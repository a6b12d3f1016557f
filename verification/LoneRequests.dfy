/**
  What a request does when nothing runs between its store calls: it reserves all
  of its rows or, refused by one, leaves every row as it was; settled, it leaves
  its rows at its cost.
 */
module LoneRequests {
  import opened Common
  import opened LimitsStore
  import opened Enforcement

  // Every one of the keys has spent `x` more; nothing else differs.
  function Added(rows: Rows, keys: seq<EntityKey>, x: real): Rows {
    map k | k in rows :: if k in keys then rows[k].(spend := rows[k].spend + x) else rows[k]
  }

  lemma AddedNext(rows: Rows, keys: seq<EntityKey>, n: nat, x: real)
    requires Distinct(keys) && n < |keys| && keys[n] in rows
    ensures keys[n] in Added(rows, keys[..n], x) && Added(rows, keys[..n], x)[keys[n]] == rows[keys[n]]
    ensures Charged(Added(rows, keys[..n], x), keys[n], x) == Added(rows, keys[..n + 1], x)
  {
    assert keys[..n + 1] == keys[..n] + [keys[n]];
    assert keys[n] !in keys[..n];
  }

  lemma AddedNothing(rows: Rows, keys: seq<EntityKey>)
    ensures Added(rows, keys, 0.0) == rows
  {
  }

  lemma AddedNone(rows: Rows, x: real)
    ensures Added(rows, [], x) == rows
  {
  }

  lemma AddedTwice(rows: Rows, keys: seq<EntityKey>, x: real, y: real)
    ensures Added(Added(rows, keys, x), keys, y) == Added(rows, keys, x + y)
  {
  }

  // The row takes the amount.
  predicate Fits(rows: Rows, k: EntityKey, amount: real) {
    k in rows && (rows[k].maxBudget.Some? ==> rows[k].spend + amount <= rows[k].maxBudget.value)
  }

  // ---- One store call ------------------------------------------------------

  lemma BeginCall(s: State, keys: seq<EntityKey>, estimate: real)
    requires Inv(s) && Distinct(keys) && forall k | k in keys :: k in s.rows
    ensures var amount := if estimate > 0.0 then estimate else 0.0;
            Step(s, Begin(keys, estimate)) == s.(reqs := s.reqs + [Request(keys, amount, Reserving(0), map[], map[])])
  {
    hide Inv;
  }

  // A row that takes the amount is charged it; no row is asked for an amount of zero.
  lemma ReserveCall(s: State, i: nat)
    requires Inv(s) && i < |s.reqs| && s.reqs[i].phase.Reserving? && s.reqs[i].phase.next < |s.reqs[i].keys|
    requires s.reqs[i].amount > 0.0 ==> Fits(s.rows, s.reqs[i].keys[s.reqs[i].phase.next], s.reqs[i].amount)
    ensures var (t, r) := (Step(s, Advance(i)), s.reqs[i]);
            && t == s.(rows := t.rows, reqs := s.reqs[i := t.reqs[i]]) && |t.reqs| == |s.reqs|
            && t.reqs[i] == r.(phase := Reserving(r.phase.next + 1), taken := t.reqs[i].taken)
            && t.rows == if r.amount > 0.0 then Charged(s.rows, r.keys[r.phase.next], r.amount) else s.rows
  {
    InReqs(s, i);
    hide Inv, GoodRequest;
  }

  // A row that does not take it turns the request to giving back what it took, at a cost of nothing.
  lemma RefusedCall(s: State, i: nat)
    requires Inv(s) && i < |s.reqs| && s.reqs[i].phase.Reserving? && s.reqs[i].phase.next < |s.reqs[i].keys|
    requires s.reqs[i].amount > 0.0 && !Fits(s.rows, s.reqs[i].keys[s.reqs[i].phase.next], s.reqs[i].amount)
    ensures Step(s, Advance(i)) == s.(reqs := s.reqs[i := s.reqs[i].(phase := Settling(0, s.reqs[i].phase.next, 0.0))])
  {
    InReqs(s, i);
    hide Inv, GoodRequest;
  }

  lemma SettleCall(s: State, i: nat)
    requires Inv(s) && i < |s.reqs| && s.reqs[i].phase.Settling? && s.reqs[i].phase.next < s.reqs[i].phase.upTo
    ensures s.reqs[i].phase.next < |s.reqs[i].keys|
    ensures var (t, r) := (Step(s, Advance(i)), s.reqs[i]);
            && t == s.(rows := t.rows, reqs := s.reqs[i := t.reqs[i]]) && |t.reqs| == |s.reqs|
            && t.reqs[i] == r.(phase := r.phase.(next := r.phase.next + 1), settled := t.reqs[i].settled)
            && t.rows == Charged(s.rows, r.keys[r.phase.next], FinalCost(r.amount, r.phase.actual) - r.amount)
  {
    InReqs(s, i);
    SettledCharges(s.rows, s.reqs[i].keys[s.reqs[i].phase.next], s.reqs[i].amount, s.reqs[i].phase.actual);
    hide Inv, GoodRequest, Settled, FinalCost;
  }

  lemma SettledCharges(rows: Rows, k: EntityKey, amount: real, actual: real)
    ensures Settled(rows, k, amount, actual) == Charged(rows, k, FinalCost(amount, actual) - amount)
  {
    if k in rows {
      assert rows[k := rows[k].(spend := rows[k].spend + 0.0)] == rows;
    }
  }

  // ---- All of them ---------------------------------------------------------

  lemma AdvancesNext(s: State, i: nat, m: nat)
    requires Inv(s) && m > 0
    ensures Exec(s, Advances(i, m)) == Step(Exec(s, Advances(i, m - 1)), Advance(i))
  {
    hide Inv, Step;
    assert Advances(i, m) == Advances(i, m - 1) + [Advance(i)];
    ExecOne(s, Advances(i, m - 1), Advance(i));
  }

  lemma AdvancesNone(s: State, i: nat)
    requires Inv(s)
    ensures Exec(s, Advances(i, 0)) == s
  {
    assert Advances(i, 0) == [];
    ExecNone(s);
  }

  lemma {:induction false} ReserveSteps(s: State, i: nat, m: nat)
    requires Inv(s) && i < |s.reqs| && s.reqs[i].phase == Reserving(0) && m <= |s.reqs[i].keys|
    requires s.reqs[i].amount > 0.0 ==> forall j | 0 <= j < m :: Fits(s.rows, s.reqs[i].keys[j], s.reqs[i].amount)
    requires s.reqs[i].amount >= 0.0
    ensures var (t, r) := (Exec(s, Advances(i, m)), s.reqs[i]);
            && |t.reqs| == |s.reqs| && t == s.(rows := t.rows, reqs := s.reqs[i := t.reqs[i]])
            && t.reqs[i] == r.(phase := Reserving(m), taken := t.reqs[i].taken)
            && t.rows == Added(s.rows, r.keys[..m], r.amount)
  {
    hide Inv, GoodRequest, Step, Exec, Added, Charged, Fits, Advances;
    InReqs(s, i);
    var r := s.reqs[i];
    if m == 0 {
      AdvancesNone(s, i);
      AddedNone(s.rows, r.amount);
    } else {
      ReserveSteps(s, i, m - 1);
      AdvancesNext(s, i, m);
      var before := Exec(s, Advances(i, m - 1));
      AddedNext(s.rows, r.keys, m - 1, r.amount);
      AddedFits(s.rows, before.rows, r.keys[m - 1], r.amount);
      ReserveCall(before, i);
      if r.amount == 0.0 {
        AddedNothing(s.rows, r.keys[..m - 1]);
        AddedNothing(s.rows, r.keys[..m]);
      }
    }
  }

  lemma AddedFits(rows: Rows, after: Rows, k: EntityKey, amount: real)
    requires k in rows && k in after && after[k] == rows[k]
    ensures Fits(after, k, amount) <==> Fits(rows, k, amount)
  {
  }

  lemma {:induction false} SettleSteps(s: State, i: nat, m: nat)
    requires Inv(s) && i < |s.reqs| && s.reqs[i].phase.Settling? && s.reqs[i].phase.next == 0 && m <= s.reqs[i].phase.upTo
    ensures m <= |s.reqs[i].keys|
    ensures var (t, r) := (Exec(s, Advances(i, m)), s.reqs[i]);
            && |t.reqs| == |s.reqs| && t == s.(rows := t.rows, reqs := s.reqs[i := t.reqs[i]])
            && t.reqs[i] == r.(phase := r.phase.(next := m), settled := t.reqs[i].settled)
            && t.rows == Added(s.rows, r.keys[..m], FinalCost(r.amount, r.phase.actual) - r.amount)
  {
    hide Inv, GoodRequest, Step, Exec, Added, Charged, FinalCost, Advances;
    InReqs(s, i);
    var r := s.reqs[i];
    if m == 0 {
      AdvancesNone(s, i);
      AddedNone(s.rows, FinalCost(r.amount, r.phase.actual) - r.amount);
    } else {
      SettleSteps(s, i, m - 1);
      AdvancesNext(s, i, m);
      AddedNext(s.rows, r.keys, m - 1, FinalCost(r.amount, r.phase.actual) - r.amount);
      SettleCall(Exec(s, Advances(i, m - 1)), i);
    }
  }

  // ---- A request on its own ------------------------------------------------

  // Where every row takes the estimate, a request is held with all its rows charged it; an estimate of
  // nothing is always held.
  lemma HeldAlone(s: State, keys: seq<EntityKey>, estimate: real)
    requires Inv(s) && Distinct(keys) && forall k | k in keys :: k in s.rows
    requires estimate > 0.0 ==> forall k | k in keys :: Fits(s.rows, k, estimate)
    ensures var (i, amount) := (|s.reqs|, if estimate > 0.0 then estimate else 0.0);
            var t := Exec(s, [Begin(keys, estimate)] + Advances(i, |keys| + 1));
            && t.rows == Added(s.rows, keys, amount)
            && |t.reqs| == i + 1 && t.reqs[..i] == s.reqs
            && t.reqs[i].phase == Held && t.reqs[i].keys == keys && t.reqs[i].amount == amount
  {
    hide Inv, GoodRequest, Step, Exec, Added, Fits, Advances;
    var i := |s.reqs|;
    var u := Begun(s, keys, estimate, |keys| + 1);
    ReserveSteps(u, i, |keys|);
    AdvancesNext(u, i, |keys| + 1);
    HoldOne(Exec(u, Advances(i, |keys|)), i);
    assert keys[..|keys|] == keys;
  }

  lemma Begun(s: State, keys: seq<EntityKey>, estimate: real, m: nat) returns (u: State)
    requires Inv(s) && Distinct(keys) && forall k | k in keys :: k in s.rows
    ensures Inv(u) && Exec(s, [Begin(keys, estimate)] + Advances(|s.reqs|, m)) == Exec(u, Advances(|s.reqs|, m))
    ensures u == s.(reqs := s.reqs + [Request(keys, if estimate > 0.0 then estimate else 0.0, Reserving(0), map[], map[])])
  {
    hide Inv, Step;
    u := Exec(s, [Begin(keys, estimate)]);
    BeginCall(s, keys, estimate);
    ExecNone(s);
    ExecOne(s, [], Begin(keys, estimate));
    assert [] + [Begin(keys, estimate)] == [Begin(keys, estimate)];
    ExecConcat(s, [Begin(keys, estimate)], Advances(|s.reqs|, m));
  }

  // Where a row does not take it, the request ends with every row as it was, its refusal undoing the
  // reservations before it; but for amounts too small for settlement to give back.
  lemma RefusedAlone(s: State, keys: seq<EntityKey>, estimate: real, n: nat)
    requires Inv(s) && Distinct(keys) && (forall k | k in keys :: k in s.rows) && n < |keys| && estimate > 0.0
    requires !Fits(s.rows, keys[n], estimate) && forall j | 0 <= j < n :: Fits(s.rows, keys[j], estimate)
    ensures var i := |s.reqs|;
            var t := Exec(s, [Begin(keys, estimate)] + Advances(i, 2 * n + 2));
            && |t.reqs| == i + 1 && t.reqs[i].phase == Finished(n, 0.0)
            && (estimate > 1.0 / 4503599627370496.0 ==> t.rows == s.rows)
            && t.rows == Added(s.rows, keys[..n], if estimate > 1.0 / 4503599627370496.0 then 0.0 else estimate)
  {
    hide Inv, GoodRequest, Step, Exec, Added, Fits, FinalCost;
    var i := |s.reqs|;
    var u := Begun(s, keys, estimate, 2 * n + 2);
    assert Advances(i, 2 * n + 2) == Advances(i, n + 1) + Advances(i, n + 1);
    ExecConcat(u, Advances(i, n + 1), Advances(i, n + 1));
    RefusedSteps(u, i, n);
    var v := Exec(u, Advances(i, n + 1));
    SettleSteps(v, i, n);
    AdvancesNext(v, i, n + 1);
    FinishOne(Exec(v, Advances(i, n)), i);
    AddedTwice(s.rows, keys[..n], estimate, FinalCost(estimate, 0.0) - estimate);
    Released(estimate);
    AddedNothing(s.rows, keys[..n]);
  }

  lemma RefusedSteps(u: State, i: nat, n: nat)
    requires Inv(u) && i < |u.reqs| && u.reqs[i].phase == Reserving(0) && n < |u.reqs[i].keys| && u.reqs[i].amount > 0.0
    requires !Fits(u.rows, u.reqs[i].keys[n], u.reqs[i].amount) && forall j | 0 <= j < n :: Fits(u.rows, u.reqs[i].keys[j], u.reqs[i].amount)
    ensures var (v, r) := (Exec(u, Advances(i, n + 1)), u.reqs[i]);
            && |v.reqs| == |u.reqs| && v.rows == Added(u.rows, r.keys[..n], r.amount)
            && v.reqs[i] == r.(phase := Settling(0, n, 0.0), taken := v.reqs[i].taken)
  {
    hide Inv, GoodRequest, Step, Exec, Added, Fits, Advances;
    InReqs(u, i);
    var r := u.reqs[i];
    ReserveSteps(u, i, n);
    AdvancesNext(u, i, n + 1);
    var w := Exec(u, Advances(i, n));
    AddedNext(u.rows, r.keys, n, r.amount);
    AddedFits(u.rows, w.rows, r.keys[n], r.amount);
    RefusedCall(w, i);
  }

  lemma Released(estimate: real)
    requires estimate > 0.0
    ensures FinalCost(estimate, 0.0) == if estimate > 1.0 / 4503599627370496.0 then 0.0 else estimate
  {
  }

  // A held request that settles leaves each of its rows at its cost instead of its estimate.
  lemma SettledAlone(s: State, i: nat, actual: real)
    requires Inv(s) && i < |s.reqs| && s.reqs[i].phase.Held?
    ensures var (t, r) := (Exec(s, [Settle(i, actual)] + Advances(i, |s.reqs[i].keys| + 1)), s.reqs[i]);
            && |t.reqs| == |s.reqs| && t.reqs[i].phase == Finished(|r.keys|, actual)
            && t.rows == Added(s.rows, r.keys, FinalCost(r.amount, actual) - r.amount)
  {
    hide Inv, GoodRequest, Step, Exec, Added, FinalCost, Advances;
    var (r, n) := (s.reqs[i], |s.reqs[i].keys|);
    var u := Exec(s, [Settle(i, actual)]);
    SettleBegun(s, i, actual);
    ExecConcat(s, [Settle(i, actual)], Advances(i, n + 1));
    SettleSteps(u, i, n);
    AdvancesNext(u, i, n + 1);
    FinishOne(Exec(u, Advances(i, n)), i);
    assert r.keys[..n] == r.keys;
  }

  lemma SettleBegun(s: State, i: nat, actual: real)
    requires Inv(s) && i < |s.reqs| && s.reqs[i].phase.Held?
    ensures Exec(s, [Settle(i, actual)]) == s.(reqs := s.reqs[i := s.reqs[i].(phase := Settling(0, |s.reqs[i].keys|, actual))])
  {
    hide Inv, GoodRequest;
    ExecNone(s);
    ExecOne(s, [], Settle(i, actual));
    assert [] + [Settle(i, actual)] == [Settle(i, actual)];
  }
}
