/** The limits rows and the statements that change them, each one atomic. */
module LimitsStore {
  import opened Common
  import opened BudgetWindows

  datatype EntityType = Key | Org | App | Member | EndUser

  datatype EntityKey = EntityKey(entityType: EntityType, id: string)

  datatype LimitsRow = LimitsRow(
    maxBudget: Option<real>,
    softBudget: Option<real>,
    duration: Option<string>,
    spend: real,
    resetAt: Option<int>,
    alertedAt: Option<int>)

  type Rows = map<EntityKey, LimitsRow>

  predicate CanRoll(rows: Rows, k: EntityKey, expected: Option<int>) {
    k in rows && rows[k].resetAt == expected
  }

  function Rolled(rows: Rows, k: EntityKey, expected: Option<int>, next: Option<int>): Rows {
    if CanRoll(rows, k, expected)
    then rows[k := rows[k].(spend := 0.0, alertedAt := None, resetAt := next)]
    else rows
  }

  predicate CanReserve(rows: Rows, k: EntityKey, amount: real) {
    k in rows && (rows[k].maxBudget.None? || rows[k].spend + amount <= rows[k].maxBudget.value)
  }

  function Charged(rows: Rows, k: EntityKey, delta: real): Rows {
    if k in rows then rows[k := rows[k].(spend := rows[k].spend + delta)] else rows
  }

  function Reserved(rows: Rows, k: EntityKey, amount: real): Rows {
    if CanReserve(rows, k, amount) then Charged(rows, k, amount) else rows
  }

  predicate CanAlert(rows: Rows, k: EntityKey) {
    k in rows && rows[k].alertedAt.None?
  }

  function Alerted(rows: Rows, k: EntityKey, at: int): Rows {
    if CanAlert(rows, k) then rows[k := rows[k].(alertedAt := Some(at))] else rows
  }

  // Every row but `k`'s is there as before, and none is added or removed.
  ghost predicate OnlyRow(before: Rows, after: Rows, k: EntityKey) {
    after.Keys == before.Keys && forall x | x in before && x != k :: after[x] == before[x]
  }

  class ManagementStore {
    var rows: Rows

    method GetLimits(k: EntityKey) returns (r: Option<LimitsRow>)
      ensures r == if k in rows then Some(rows[k]) else None
    {
      r := if k in rows then Some(rows[k]) else None;
    }

    method UpsertLimits(k: EntityKey, row: LimitsRow)
      modifies this
      ensures rows == old(rows)[k := row]
    {
      rows := rows[k := row];
    }

    method DeleteLimits(k: EntityKey) returns (deleted: bool)
      modifies this
      ensures deleted == (k in old(rows))
      ensures rows == old(rows) - {k}
    {
      deleted := k in rows;
      rows := rows - {k};
    }

    method RollLimitsWindow(k: EntityKey, expected: Option<int>, next: Option<int>) returns (won: bool)
      modifies this
      ensures won == CanRoll(old(rows), k, expected)
      ensures rows == Rolled(old(rows), k, expected, next)
      ensures won <==> k in old(rows) && old(rows)[k].resetAt == expected
      ensures !won ==> rows == old(rows)
      ensures won ==> OnlyRow(old(rows), rows, k)
                      && rows[k].maxBudget == old(rows)[k].maxBudget && rows[k].softBudget == old(rows)[k].softBudget
                      && rows[k].duration == old(rows)[k].duration
                      && rows[k].spend == 0.0 && rows[k].resetAt == next && rows[k].alertedAt == None
    {
      won := false;
      if k in rows && rows[k].resetAt == expected {
        var row := rows[k];
        rows := rows[k := LimitsRow(row.maxBudget, row.softBudget, row.duration, 0.0, next, None)];
        won := true;
      }
    }

    method ReserveLimitsSpend(k: EntityKey, amount: real) returns (ok: bool)
      modifies this
      ensures ok == CanReserve(old(rows), k, amount)
      ensures rows == Reserved(old(rows), k, amount)
      ensures ok <==> k in old(rows) && (old(rows)[k].maxBudget.Some? ==> old(rows)[k].spend + amount <= old(rows)[k].maxBudget.value)
      ensures !ok ==> rows == old(rows)
      ensures ok ==> OnlyRow(old(rows), rows, k)
                     && rows[k].maxBudget == old(rows)[k].maxBudget && rows[k].softBudget == old(rows)[k].softBudget
                     && rows[k].duration == old(rows)[k].duration && rows[k].resetAt == old(rows)[k].resetAt
                     && rows[k].alertedAt == old(rows)[k].alertedAt && rows[k].spend == old(rows)[k].spend + amount
    {
      ok := false;
      if k in rows {
        var row := rows[k];
        var spend := row.spend + amount;
        if row.maxBudget.None? || spend <= row.maxBudget.value {
          rows := rows[k := row.(spend := spend)];
          ok := true;
        }
      }
    }

    method ChargeLimitsSpend(k: EntityKey, delta: real) returns (spend: Option<real>)
      modifies this
      ensures rows == Charged(old(rows), k, delta)
      ensures spend == if k in old(rows) then Some(old(rows)[k].spend + delta) else None
      ensures k !in old(rows) ==> rows == old(rows)
      ensures k in old(rows) ==>
                OnlyRow(old(rows), rows, k)
                && rows[k].maxBudget == old(rows)[k].maxBudget && rows[k].softBudget == old(rows)[k].softBudget
                && rows[k].duration == old(rows)[k].duration && rows[k].resetAt == old(rows)[k].resetAt
                && rows[k].alertedAt == old(rows)[k].alertedAt && rows[k].spend == old(rows)[k].spend + delta
    {
      spend := None;
      if k in rows {
        rows := rows[k := rows[k].(spend := rows[k].spend + delta)];
        spend := Some(rows[k].spend);
      }
    }

    method MarkSoftBudgetAlerted(k: EntityKey, at: int) returns (first: bool)
      modifies this
      ensures first == CanAlert(old(rows), k)
      ensures rows == Alerted(old(rows), k, at)
      ensures first <==> k in old(rows) && old(rows)[k].alertedAt == None
      ensures !first ==> rows == old(rows)
      ensures first ==> OnlyRow(old(rows), rows, k)
                        && rows[k].maxBudget == old(rows)[k].maxBudget && rows[k].softBudget == old(rows)[k].softBudget
                        && rows[k].duration == old(rows)[k].duration && rows[k].resetAt == old(rows)[k].resetAt
                        && rows[k].spend == old(rows)[k].spend && rows[k].alertedAt == Some(at)
    {
      first := k in rows && rows[k].alertedAt == None;
      if first {
        rows := rows[k := rows[k].(alertedAt := Some(at))];
      }
    }

    // Load a row, rolling its window first if it lapsed.
    method LoadCurrent(k: EntityKey, now: int) returns (r: Option<LimitsRow>)
      modifies this
      ensures r.Some? == (k in old(rows))
      ensures k in old(rows) ==>
                var next := LapsedWindowNextReset(old(rows)[k].duration, old(rows)[k].resetAt, now);
                && rows == (if next.Some? then Rolled(old(rows), k, old(rows)[k].resetAt, next) else old(rows))
                && r == Some(rows[k])
      ensures k !in old(rows) ==> rows == old(rows)
    {
      r := GetLimits(k);
      if r.Some? {
        var next := LapsedWindowNextReset(r.value.duration, r.value.resetAt, now);
        if next.Some? {
          var won := RollLimitsWindow(k, r.value.resetAt, next);
          if won {
            r := Some(r.value.(spend := 0.0, alertedAt := None, resetAt := next));
          } else {
            r := GetLimits(k);
          }
        }
      }
    }
  }
}
