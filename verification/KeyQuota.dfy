/** The token quota of an API key: reserving and charging are single statements on the key's row. */
module KeyQuota {
  import opened Common

  datatype Quota = Quota(limit: Option<real>, used: real)

  type Keys = map<string, Quota>

  predicate CanReserve(keys: Keys, id: string, amount: real) {
    id in keys && (keys[id].limit.None? || keys[id].used + amount <= keys[id].limit.value)
  }

  function Charged(keys: Keys, id: string, cost: real): Keys {
    if id in keys then keys[id := keys[id].(used := keys[id].used + cost)] else keys
  }

  function Reserved(keys: Keys, id: string, amount: real): Keys {
    if CanReserve(keys, id, amount) then Charged(keys, id, amount) else keys
  }

  datatype StoreError = RowNotFound

  // Every key but `id` is as before, and none is added or removed.
  ghost predicate OnlyKey(before: Keys, after: Keys, id: string) {
    after.Keys == before.Keys && forall x | x in before && x != id :: after[x] == before[x]
  }

  class KeyStore {
    var keys: Keys

    method ReserveTokens(id: string, amount: real) returns (ok: bool)
      modifies this
      ensures ok == CanReserve(old(keys), id, amount)
      ensures keys == Reserved(old(keys), id, amount)
      ensures ok <==> id in old(keys) && (old(keys)[id].limit.Some? ==> old(keys)[id].used + amount <= old(keys)[id].limit.value)
      ensures !ok ==> keys == old(keys)
      ensures ok ==> OnlyKey(old(keys), keys, id)
                     && keys[id].limit == old(keys)[id].limit && keys[id].used == old(keys)[id].used + amount
    {
      ok := false;
      if id in keys {
        var q := keys[id];
        if q.limit.None? || q.used + amount <= q.limit.value {
          keys := keys[id := Quota(q.limit, q.used + amount)];
          ok := true;
        }
      }
    }

    method AtomicChargeTokens(id: string, cost: real) returns (r: Result<real, StoreError>)
      modifies this
      ensures keys == Charged(old(keys), id, cost)
      ensures id !in old(keys) ==> keys == old(keys)
      ensures id in old(keys) ==> OnlyKey(old(keys), keys, id)
                                  && keys[id].limit == old(keys)[id].limit && keys[id].used == old(keys)[id].used + cost
      ensures r == if id in old(keys) then Ok(old(keys)[id].used + cost) else Err(RowNotFound)
    {
      if id !in keys {
        return Err(RowNotFound);
      }
      var used := keys[id].used + cost;
      keys := keys[id := keys[id].(used := used)];
      r := Ok(used);
    }
  }

  // ---- Interleavings -------------------------------------------------------

  datatype Action = Reserve(id: string, amount: real) | Charge(id: string, cost: real)

  function Step(keys: Keys, a: Action): Keys {
    match a
    case Reserve(id, amount) => Reserved(keys, id, amount)
    case Charge(id, cost) => Charged(keys, id, cost)
  }

  function Exec(keys: Keys, acts: seq<Action>): Keys {
    if acts == [] then keys else Step(Exec(keys, acts[..|acts| - 1]), acts[|acts| - 1])
  }

  // What the calls on one key were told they added.
  function Accepted(keys: Keys, acts: seq<Action>, id: string): real {
    if acts == [] then 0.0
    else
      var (before, a) := (Exec(keys, acts[..|acts| - 1]), acts[|acts| - 1]);
      Accepted(keys, acts[..|acts| - 1], id) +
      if a.id != id || id !in before then 0.0
      else match a
           case Reserve(_, amount) => if CanReserve(before, id, amount) then amount else 0.0
           case Charge(_, cost) => cost
  }

  // In every interleaving the tokens used are what was accepted, no key appears, vanishes or changes
  // its limit, and with charges that only refund the limit is never passed.
  lemma {:induction false} QuotaConserved(keys: Keys, acts: seq<Action>, id: string)
    requires id in keys
    ensures Exec(keys, acts).Keys == keys.Keys
    ensures Exec(keys, acts)[id].limit == keys[id].limit
    ensures Exec(keys, acts)[id].used == keys[id].used + Accepted(keys, acts, id)
    ensures && keys[id].limit.Some? && keys[id].used <= keys[id].limit.value
            && (forall i | 0 <= i < |acts| && acts[i].Charge? :: acts[i].cost <= 0.0)
            ==> Exec(keys, acts)[id].used <= keys[id].limit.value
  {
    if acts != [] {
      QuotaConserved(keys, acts[..|acts| - 1], id);
    }
  }

  // After any run of calls, in any order, a reservation is refused exactly when the key is missing or the
  // amount, on top of everything accepted so far, passes the limit the key began with.
  lemma ReserveDecidesOnHistory(keys: Keys, acts: seq<Action>, id: string, amount: real)
    ensures CanReserve(Exec(keys, acts), id, amount) <==>
            && id in keys
            && (keys[id].limit.Some? ==> keys[id].used + Accepted(keys, acts, id) + amount <= keys[id].limit.value)
  {
    hide Accepted;
    KeysStay(keys, acts);
    if id in keys {
      QuotaConserved(keys, acts, id);
    }
  }

  lemma {:induction false} KeysStay(keys: Keys, acts: seq<Action>)
    ensures Exec(keys, acts).Keys == keys.Keys
  {
    if acts != [] {
      KeysStay(keys, acts[..|acts| - 1]);
    }
  }
}
