/**
  Concurrent requests against the limits rows: each reserves its estimate row by
  row, refunds what it took if a row refuses, and otherwise holds the
  reservations until it settles them to the actual cost. Every store call of
  every request is one step. Between any two of them any caller may read a row,
  roll its lapsed window from what it read, or record an alert.
 */
module Enforcement {
  import opened Common
  import opened Calendar
  import opened BudgetWindows
  import opened LimitsStore
  import RollingWindows

  // The least difference of two costs that settlement acts on: f64::EPSILON, 2 to the power -52.
  const EPSILON: real := 1.0 / 4503599627370496.0

  datatype Phase =
    | Reserving(next: nat)
    | Held
    | Settling(next: nat, upTo: nat, actual: real)
    | Finished(upTo: nat, actual: real)

  // `taken` and `settled` record in which window of each row the request reserved and settled.
  datatype Request = Request(
    keys: seq<EntityKey>,
    amount: real,
    phase: Phase,
    taken: map<EntityKey, nat>,
    settled: map<EntityKey, nat>)

  // `epoch` counts the windows each row has rolled away.
  datatype State = State(
    rows: Rows, seen: map<(int, EntityKey), LimitsRow>, epoch: map<EntityKey, nat>, reqs: seq<Request>)

  // The store as its callers' calls change it.
  function Store(s: State): RollingWindows.State {
    RollingWindows.State(s.rows, s.seen)
  }

  datatype Action =
    | Begin(keys: seq<EntityKey>, estimate: real)
    | Advance(index: nat)
    | Settle(index: nat, actual: real)
    | Window(call: RollingWindows.Action)

  // Spend is added by requests only.
  predicate AddsSpend(call: RollingWindows.Action) {
    call.Reserve? || call.Charge?
  }

  predicate Rolls(s: State, call: RollingWindows.Action) {
    RollingWindows.Rolls(Store(s), call)
  }

  // The cost a settled request ends up charged with.
  function FinalCost(amount: real, actual: real): (c: real)
    ensures -1.0 / 4503599627370496.0 <= c - actual <= 1.0 / 4503599627370496.0
    ensures actual - amount > 1.0 / 4503599627370496.0 || amount - actual > 1.0 / 4503599627370496.0 ==> c == actual
    ensures c == actual || c == amount
  {
    var delta := actual - amount;
    if delta > EPSILON || -delta > EPSILON then actual else amount
  }

  function Settled(rows: Rows, k: EntityKey, amount: real, actual: real): Rows {
    var delta := actual - amount;
    if delta > EPSILON || -delta > EPSILON then Charged(rows, k, delta) else rows
  }

  predicate Distinct(keys: seq<EntityKey>) {
    forall i, j | 0 <= i < j < |keys| :: keys[i] != keys[j]
  }

  // One store call of a request.
  function AdvanceRequest(s: State, r: Request): (Rows, Request)
    requires s.epoch.Keys == s.rows.Keys && GoodRequest(r, s.rows, s.epoch)
  {
    match r.phase
    case Reserving(n) => ReserveNext(s, r)
    case Settling(n, upTo, actual) => SettleNext(s, r)
    case _ => (s.rows, r)
  }

  function ReserveNext(s: State, r: Request): (Rows, Request)
    requires s.epoch.Keys == s.rows.Keys && GoodRequest(r, s.rows, s.epoch) && r.phase.Reserving?
  {
    var n := r.phase.next;
    if n >= |r.keys| then (s.rows, r.(phase := Held))
    else if r.amount > 0.0 && !CanReserve(s.rows, r.keys[n], r.amount) then
      (s.rows, r.(phase := Settling(0, n, 0.0)))
    else
      (if r.amount > 0.0 then Reserved(s.rows, r.keys[n], r.amount) else s.rows,
       r.(phase := Reserving(n + 1), taken := r.taken[r.keys[n] := s.epoch[r.keys[n]]]))
  }

  function SettleNext(s: State, r: Request): (Rows, Request)
    requires s.epoch.Keys == s.rows.Keys && GoodRequest(r, s.rows, s.epoch) && r.phase.Settling?
  {
    var Settling(n, upTo, actual) := r.phase;
    if n >= upTo then (s.rows, r.(phase := Finished(upTo, actual)))
    else
      (Settled(s.rows, r.keys[n], r.amount, actual),
       r.(phase := Settling(n + 1, upTo, actual), settled := r.settled[r.keys[n] := s.epoch[r.keys[n]]]))
  }

  function Step(s: State, a: Action): State
    requires Inv(s)
  {
    match a
    case Begin(keys, estimate) =>
      if Distinct(keys) && forall k | k in keys :: k in s.rows then
        var amount := if estimate > 0.0 then estimate else 0.0;
        s.(reqs := s.reqs + [Request(keys, amount, Reserving(0), map[], map[])])
      else s
    case Advance(i) =>
      if i < |s.reqs| then
        var (rows, r) := AdvanceRequest(s, s.reqs[i]);
        s.(rows := rows, reqs := s.reqs[i := r])
      else s
    case Settle(i, actual) =>
      if i < |s.reqs| && s.reqs[i].phase.Held? then
        s.(reqs := s.reqs[i := s.reqs[i].(phase := Settling(0, |s.reqs[i].keys|, actual))])
      else s
    case Window(call) =>
      if AddsSpend(call) then s
      else
        var store := RollingWindows.Step(Store(s), call);
        s.(rows := store.rows, seen := store.seen,
           epoch := if Rolls(s, call) then s.epoch[call.key := s.epoch[call.key] + 1] else s.epoch)
  }

  // ---- Invariant -----------------------------------------------------------

  // How many of its rows a request has reserved, and how many of those it has settled.
  function Counts(r: Request): (nat, nat) {
    match r.phase
    case Reserving(n) => (n, 0)
    case Held => (|r.keys|, 0)
    case Settling(n, upTo, _) => (upTo, n)
    case Finished(upTo, _) => (upTo, upTo)
  }

  ghost predicate Covers(m: map<EntityKey, nat>, keys: seq<EntityKey>, n: nat)
    requires n <= |keys|
  {
    forall k :: k in m <==> k in keys[..n]
  }

  lemma CoversNext(m: map<EntityKey, nat>, keys: seq<EntityKey>, n: nat, v: nat)
    requires n < |keys| && Distinct(keys) && Covers(m, keys, n)
    ensures keys[n] !in m && Covers(m[keys[n] := v], keys, n + 1)
  {
    assert keys[..n + 1] == keys[..n] + [keys[n]];
  }

  lemma CoversWithin(m: map<EntityKey, nat>, keys: seq<EntityKey>, n: nat, i: nat)
    requires i < n <= |keys| && Covers(m, keys, n)
    ensures keys[i] in m
  {
    assert keys[..n][i] == keys[i];
  }

  // A request that did not get all its rows settles at nothing.
  predicate ReleasedIfRefused(r: Request) {
    && (r.phase.Settling? && r.phase.upTo < |r.keys| ==> r.phase.actual == 0.0)
    && (r.phase.Finished? && r.phase.upTo < |r.keys| ==> r.phase.actual == 0.0)
  }

  ghost predicate GoodRequest(r: Request, rows: Rows, epoch: map<EntityKey, nat>) {
    && Distinct(r.keys) && r.amount >= 0.0
    && (forall i | 0 <= i < |r.keys| :: r.keys[i] in rows)
    && Counts(r).1 <= Counts(r).0 <= |r.keys|
    && ReleasedIfRefused(r)
    && Covers(r.taken, r.keys, Counts(r).0)
    && Covers(r.settled, r.keys, Counts(r).1)
    && (forall k | k in r.taken && k in epoch :: r.taken[k] <= epoch[k])
    && (forall k | k in r.settled && k in epoch :: k in r.taken && r.taken[k] <= r.settled[k] <= epoch[k])
  }

  ghost predicate Inv(s: State) {
    && s.epoch.Keys == s.rows.Keys
    && forall i | 0 <= i < |s.reqs| :: GoodRequest(s.reqs[i], s.rows, s.epoch)
  }

  lemma AdvanceGood(s: State, r: Request)
    requires s.epoch.Keys == s.rows.Keys && GoodRequest(r, s.rows, s.epoch)
    ensures var (rows, r') := AdvanceRequest(s, r);
            rows.Keys == s.rows.Keys && GoodRequest(r', rows, s.epoch)
  {
    if r.phase.Reserving? {
      ReserveGood(s, r);
    } else if r.phase.Settling? {
      SettleGood(s, r);
    }
  }

  lemma ReserveGood(s: State, r: Request)
    requires s.epoch.Keys == s.rows.Keys && GoodRequest(r, s.rows, s.epoch) && r.phase.Reserving?
    ensures var (rows, r') := ReserveNext(s, r);
            rows.Keys == s.rows.Keys && GoodRequest(r', rows, s.epoch)
  {
    hide Covers, Distinct;
    if r.phase.next < |r.keys| {
      CoversNext(r.taken, r.keys, r.phase.next, s.epoch[r.keys[r.phase.next]]);
    }
    NothingSettled(r, s.rows, s.epoch);
  }

  lemma SettleGood(s: State, r: Request)
    requires s.epoch.Keys == s.rows.Keys && GoodRequest(r, s.rows, s.epoch) && r.phase.Settling?
    ensures var (rows, r') := SettleNext(s, r);
            rows.Keys == s.rows.Keys && GoodRequest(r', rows, s.epoch)
  {
    hide Covers, Distinct;
    if r.phase.next < r.phase.upTo {
      CoversNext(r.settled, r.keys, r.phase.next, s.epoch[r.keys[r.phase.next]]);
      CoversWithin(r.taken, r.keys, r.phase.upTo, r.phase.next);
    }
  }

  lemma NothingSettled(r: Request, rows: Rows, epoch: map<EntityKey, nat>)
    requires GoodRequest(r, rows, epoch) && Counts(r).1 == 0
    ensures r.settled == map[]
  {
    assert forall k :: k in r.settled <==> k in r.keys[..0];
  }

  lemma RollGood(r: Request, rows: Rows, rows': Rows, epoch: map<EntityKey, nat>, k: EntityKey)
    requires GoodRequest(r, rows, epoch) && k in epoch && rows'.Keys == rows.Keys
    ensures GoodRequest(r, rows', epoch[k := epoch[k] + 1])
  {
    hide Covers, Distinct;
  }

  lemma BeginGood(keys: seq<EntityKey>, amount: real, rows: Rows, epoch: map<EntityKey, nat>)
    requires Distinct(keys) && amount >= 0.0 && forall k | k in keys :: k in rows
    ensures GoodRequest(Request(keys, amount, Reserving(0), map[], map[]), rows, epoch)
  {
  }

  lemma SettlingGood(r: Request, rows: Rows, epoch: map<EntityKey, nat>, actual: real)
    requires GoodRequest(r, rows, epoch) && r.phase.Held?
    ensures GoodRequest(r.(phase := Settling(0, |r.keys|, actual)), rows, epoch)
  {
    hide Covers, Distinct;
  }

  lemma RowsGood(r: Request, rows: Rows, rows': Rows, epoch: map<EntityKey, nat>)
    requires GoodRequest(r, rows, epoch) && rows'.Keys == rows.Keys
    ensures GoodRequest(r, rows', epoch)
  {
    hide Covers, Distinct;
  }

  // What such a call does to a row: a roll empties it, anything else leaves its spend; its cap stays.
  lemma WindowFrame(s: State, call: RollingWindows.Action, k: EntityKey)
    requires Inv(s) && !AddsSpend(call)
    ensures Step(s, Window(call)).rows.Keys == s.rows.Keys && Step(s, Window(call)).reqs == s.reqs
    ensures Rolls(s, call) ==> call.key in s.rows && call.key in s.epoch
    ensures Step(s, Window(call)).epoch == if Rolls(s, call) then s.epoch[call.key := s.epoch[call.key] + 1] else s.epoch
    ensures k in s.rows ==>
              var row := Step(s, Window(call)).rows[k];
              && row.maxBudget == s.rows[k].maxBudget
              && row.spend == if Rolls(s, call) && call.key == k then 0.0 else s.rows[k].spend
  {
    hide GoodRequest, RollingWindows.Step, LapsedWindowNextReset;
    RollingWindows.StepFrame(Store(s), call, k);
    if k in s.rows {
      RollingWindows.StepEvent(Store(s), call, k);
    }
  }

  lemma WindowInv(s: State, call: RollingWindows.Action)
    requires Inv(s) && !AddsSpend(call)
    ensures Inv(Step(s, Window(call))) && Step(s, Window(call)).rows.Keys == s.rows.Keys
  {
    hide GoodRequest, Step, Rolls, AddsSpend;
    WindowFrame(s, call, call.key);
    var t := Step(s, Window(call));
    forall j | 0 <= j < |s.reqs|
      ensures GoodRequest(s.reqs[j], t.rows, t.epoch)
    {
      WindowGood(s, call, s.reqs[j]);
    }
  }

  lemma WindowGood(s: State, call: RollingWindows.Action, r: Request)
    requires Inv(s) && !AddsSpend(call) && GoodRequest(r, s.rows, s.epoch)
    ensures GoodRequest(r, Step(s, Window(call)).rows, Step(s, Window(call)).epoch)
  {
    hide GoodRequest, Inv, Step, Rolls, AddsSpend;
    WindowFrame(s, call, call.key);
    var t := Step(s, Window(call));
    if Rolls(s, call) {
      RollGood(r, s.rows, t.rows, s.epoch, call.key);
    } else {
      RowsGood(r, s.rows, t.rows, s.epoch);
    }
  }

  lemma StepInv(s: State, a: Action)
    requires Inv(s)
    ensures Inv(Step(s, a)) && Step(s, a).rows.Keys == s.rows.Keys
  {
    hide GoodRequest, Distinct, AdvanceRequest, RollingWindows.Step, RollingWindows.Rolls;
    var s' := Step(s, a);
    match a
    case Begin(keys, estimate) =>
      if s' != s {
        BeginGood(keys, if estimate > 0.0 then estimate else 0.0, s.rows, s.epoch);
      }
    case Advance(i) =>
      if i < |s.reqs| {
        AdvanceGood(s, s.reqs[i]);
        forall j | 0 <= j < |s.reqs| { RowsGood(s.reqs[j], s.rows, s'.rows, s.epoch); }
      }
    case Settle(i, actual) =>
      if s' != s {
        SettlingGood(s.reqs[i], s.rows, s.epoch, actual);
      }
    case Window(call) =>
      if !AddsSpend(call) {
        WindowInv(s, call);
      }
  }

  function Exec(s: State, acts: seq<Action>): (r: State)
    requires Inv(s)
    ensures Inv(r) && r.rows.Keys == s.rows.Keys
  {
    if acts == [] then s
    else
      StepInv(Exec(s, acts[..|acts| - 1]), acts[|acts| - 1]);
      Step(Exec(s, acts[..|acts| - 1]), acts[|acts| - 1])
  }

  // ---- Conservation --------------------------------------------------------

  // What one request contributes to the spend of row `k` in its window number `e`: the estimate from
  // reserving on, then the final cost; only the correction, if it reserved in an earlier window.
  function Share(r: Request, k: EntityKey, e: nat): real {
    if k !in r.taken then 0.0
    else if k !in r.settled then if r.taken[k] == e then r.amount else 0.0
    else if r.settled[k] != e then 0.0
    else if r.taken[k] == e then Cost(r)
    else Cost(r) - r.amount
  }

  function Cost(r: Request): real {
    match r.phase
    case Settling(_, _, actual) => FinalCost(r.amount, actual)
    case Finished(_, actual) => FinalCost(r.amount, actual)
    case _ => 0.0
  }

  function Shares(reqs: seq<Request>, k: EntityKey, e: nat): real {
    if reqs == [] then 0.0 else Shares(reqs[..|reqs| - 1], k, e) + Share(reqs[|reqs| - 1], k, e)
  }

  lemma {:induction false} SharesUpdate(reqs: seq<Request>, i: nat, r: Request, k: EntityKey, e: nat)
    requires i < |reqs|
    ensures Shares(reqs[i := r], k, e) == Shares(reqs, k, e) - Share(reqs[i], k, e) + Share(r, k, e)
  {
    hide Share;
    var n := |reqs| - 1;
    if i < n {
      SharesUpdate(reqs[..n], i, r, k, e);
      assert reqs[i := r][..n] == reqs[..n][i := r];
    } else {
      assert reqs[i := r][..n] == reqs[..n];
    }
  }

  // A new window starts with nobody's share.
  lemma {:induction false} SharesFresh(reqs: seq<Request>, rows: Rows, epoch: map<EntityKey, nat>, k: EntityKey, e: nat)
    requires k in epoch && e > epoch[k]
    requires forall i | 0 <= i < |reqs| :: GoodRequest(reqs[i], rows, epoch)
    ensures Shares(reqs, k, e) == 0.0
  {
    if reqs != [] {
      SharesFresh(reqs[..|reqs| - 1], rows, epoch, k, e);
      assert GoodRequest(reqs[|reqs| - 1], rows, epoch);
    }
  }

  // One store call moves the spend of a row by exactly the change of the request's share.
  lemma AdvanceShare(s: State, r: Request, k: EntityKey)
    requires s.epoch.Keys == s.rows.Keys && GoodRequest(r, s.rows, s.epoch) && k in s.rows
    ensures var (rows, r') := AdvanceRequest(s, r);
            && k in rows
            && rows[k].maxBudget == s.rows[k].maxBudget
            && rows[k].spend == s.rows[k].spend - Share(r, k, s.epoch[k]) + Share(r', k, s.epoch[k])
  {
    if r.phase.Reserving? {
      ReserveShare(s, r, k);
    } else if r.phase.Settling? {
      SettleShare(s, r, k);
    }
  }

  lemma ReserveShare(s: State, r: Request, k: EntityKey)
    requires s.epoch.Keys == s.rows.Keys && GoodRequest(r, s.rows, s.epoch) && k in s.rows && r.phase.Reserving?
    ensures var (rows, r') := ReserveNext(s, r);
            && k in rows
            && rows[k].maxBudget == s.rows[k].maxBudget
            && rows[k].spend == s.rows[k].spend - Share(r, k, s.epoch[k]) + Share(r', k, s.epoch[k])
  {
    hide Covers, Distinct;
    NothingSettled(r, s.rows, s.epoch);
    if r.phase.next < |r.keys| {
      CoversNext(r.taken, r.keys, r.phase.next, 0);
    }
  }

  lemma SettleShare(s: State, r: Request, k: EntityKey)
    requires s.epoch.Keys == s.rows.Keys && GoodRequest(r, s.rows, s.epoch) && k in s.rows && r.phase.Settling?
    ensures var (rows, r') := SettleNext(s, r);
            && k in rows
            && rows[k].maxBudget == s.rows[k].maxBudget
            && rows[k].spend == s.rows[k].spend - Share(r, k, s.epoch[k]) + Share(r', k, s.epoch[k])
  {
    hide Covers, Distinct;
    if r.phase.next < r.phase.upTo {
      CoversNext(r.settled, r.keys, r.phase.next, 0);
      CoversWithin(r.taken, r.keys, r.phase.upTo, r.phase.next);
    }
  }

  function Base(initial: State, s: State, k: EntityKey): real
    requires k in s.epoch && k in initial.rows
  {
    if s.epoch[k] == 0 then initial.rows[k].spend else 0.0
  }

  ghost predicate Conserved(initial: State, s: State, k: EntityKey)
    requires k in s.rows && k in s.epoch && k in initial.rows
  {
    s.rows[k].spend == Base(initial, s, k) + Shares(s.reqs, k, s.epoch[k])
  }

  lemma AdvanceConserves(initial: State, s: State, i: nat, k: EntityKey)
    requires Inv(s) && k in s.rows && k in initial.rows && Conserved(initial, s, k) && i < |s.reqs|
    ensures var t := Step(s, Advance(i)); k in t.rows && k in t.epoch && Conserved(initial, t, k)
  {
    hide Share, GoodRequest;
    assert GoodRequest(s.reqs[i], s.rows, s.epoch);
    hide Inv, AdvanceRequest;
    AdvanceShare(s, s.reqs[i], k);
    SharesUpdate(s.reqs, i, AdvanceRequest(s, s.reqs[i]).1, k, s.epoch[k]);
  }

  lemma WindowConserves(initial: State, s: State, call: RollingWindows.Action, k: EntityKey)
    requires Inv(s) && k in s.rows && k in initial.rows && Conserved(initial, s, k) && !AddsSpend(call)
    ensures var t := Step(s, Window(call)); k in t.rows && k in t.epoch && Conserved(initial, t, k)
  {
    hide Share, Shares, GoodRequest, Step, Rolls;
    WindowFrame(s, call, k);
    if Rolls(s, call) {
      SharesFresh(s.reqs, s.rows, s.epoch, call.key, s.epoch[call.key] + 1);
    }
  }

  lemma StepConserves(initial: State, s: State, a: Action, k: EntityKey)
    requires Inv(s) && k in s.rows && k in initial.rows && Conserved(initial, s, k)
    ensures Inv(Step(s, a)) && k in Step(s, a).rows && Conserved(initial, Step(s, a), k)
  {
    hide AdvanceRequest, Share, GoodRequest, RollingWindows.Step, RollingWindows.Rolls;
    StepInv(s, a);
    match a
    case Begin(keys, estimate) =>
      var reqs := Step(s, a).reqs;
      if reqs != s.reqs {
        assert reqs[..|reqs| - 1] == s.reqs;
        FreshRequest(reqs[|reqs| - 1], k, s.epoch[k]);
      }
    case Advance(i) =>
      if i < |s.reqs| {
        AdvanceConserves(initial, s, i, k);
      }
    case Settle(i, actual) =>
      if i < |s.reqs| && s.reqs[i].phase.Held? {
        var r := s.reqs[i].(phase := Settling(0, |s.reqs[i].keys|, actual));
        HeldShare(s.reqs[i], s.rows, s.epoch, r, k);
        SharesUpdate(s.reqs, i, r, k, s.epoch[k]);
      }
    case Window(call) =>
      if !AddsSpend(call) {
        WindowConserves(initial, s, call, k);
      }
  }

  lemma FreshRequest(r: Request, k: EntityKey, e: nat)
    requires r.taken == map[]
    ensures Share(r, k, e) == 0.0
  {
  }

  lemma HeldShare(r: Request, rows: Rows, epoch: map<EntityKey, nat>, r': Request, k: EntityKey)
    requires GoodRequest(r, rows, epoch) && r.phase.Held? && k in epoch
    requires r' == r.(phase := r'.phase)
    ensures Share(r', k, epoch[k]) == Share(r, k, epoch[k])
  {
    NothingSettled(r, rows, epoch);
  }

  // In every interleaving, with windows rolling at any moment, the spend of a row is what its window
  // opened with plus every request's share of that window.
  lemma {:induction false} SpendIsShares(s: State, acts: seq<Action>, k: EntityKey)
    requires Inv(s) && k in s.rows && s.epoch[k] == 0 && s.reqs == []
    ensures Conserved(s, Exec(s, acts), k)
  {
    hide Step, GoodRequest;
    if acts != [] {
      SpendIsShares(s, acts[..|acts| - 1], k);
      StepConserves(s, Exec(s, acts[..|acts| - 1]), acts[|acts| - 1], k);
    }
  }

  // ---- Runs of requests as runs of the store -------------------------------

  // The call on the store that a step makes, if any.
  function Call(s: State, a: Action): seq<RollingWindows.Action>
    requires Inv(s)
  {
    match a
    case Begin(_, _) => []
    case Advance(i) => if i < |s.reqs| then RequestCall(s, s.reqs[i]) else []
    case Settle(_, _) => []
    case Window(call) => if AddsSpend(call) then [] else [call]
  }

  function RequestCall(s: State, r: Request): seq<RollingWindows.Action>
    requires GoodRequest(r, s.rows, s.epoch)
  {
    match r.phase
    case Reserving(n) =>
      if n < |r.keys| && r.amount > 0.0 then [RollingWindows.Reserve(r.keys[n], r.amount)] else []
    case Settling(n, upTo, actual) =>
      var delta := actual - r.amount;
      if n < upTo && (delta > EPSILON || -delta > EPSILON) then [RollingWindows.Charge(r.keys[n], delta)] else []
    case _ => []
  }

  function Calls(s: State, acts: seq<Action>): seq<RollingWindows.Action>
    requires Inv(s)
  {
    if acts == [] then []
    else Calls(s, acts[..|acts| - 1]) + Call(Exec(s, acts[..|acts| - 1]), acts[|acts| - 1])
  }

  lemma RequestIsCall(s: State, r: Request)
    requires s.epoch.Keys == s.rows.Keys && GoodRequest(r, s.rows, s.epoch)
    ensures var (c, rows) := (RequestCall(s, r), AdvanceRequest(s, r).0);
            && |c| <= 1
            && (c == [] ==> rows == s.rows)
            && (c != [] ==> AddsSpend(c[0]) && RollingWindows.Step(Store(s), c[0]) == RollingWindows.State(rows, s.seen))
  {
    hide Covers, Distinct;
  }

  // The state after a step is what its call makes of the store, and the count of rolls goes with it.
  ghost predicate Follows(s: State, c: seq<RollingWindows.Action>, t: State) {
    && |c| <= 1
    && (c == [] ==> Store(t) == Store(s) && t.epoch == s.epoch)
    && (c != [] ==> && Store(t) == RollingWindows.Step(Store(s), c[0])
                    && t.epoch == if Rolls(s, c[0]) && c[0].key in s.epoch
                                  then s.epoch[c[0].key := s.epoch[c[0].key] + 1] else s.epoch)
  }

  lemma StepIsCall(s: State, a: Action)
    requires Inv(s)
    ensures Follows(s, Call(s, a), Step(s, a))
  {
    hide GoodRequest, AdvanceRequest, RequestCall, RollingWindows.Step, Rolls;
    match a
    case Begin(_, _) =>
    case Settle(_, _) =>
    case Advance(i) =>
      AdvanceIsCall(s, i);
    case Window(call) =>
      WindowIsCall(s, call);
  }

  lemma AdvanceIsCall(s: State, i: nat)
    requires Inv(s)
    ensures Follows(s, Call(s, Advance(i)), Step(s, Advance(i)))
  {
    hide GoodRequest, AdvanceRequest, RequestCall, RollingWindows.Step, Rolls;
    if i < |s.reqs| {
      RequestIsCall(s, s.reqs[i]);
      NoRoll(s, s.reqs[i]);
    }
  }

  lemma WindowIsCall(s: State, call: RollingWindows.Action)
    requires Inv(s)
    ensures Follows(s, Call(s, Window(call)), Step(s, Window(call)))
  {
    hide Inv, GoodRequest, RollingWindows.Step, Rolls;
    if !AddsSpend(call) {
      WindowFrame(s, call, call.key);
    }
  }

  lemma NoRoll(s: State, r: Request)
    requires GoodRequest(r, s.rows, s.epoch)
    ensures RequestCall(s, r) != [] ==> !Rolls(s, RequestCall(s, r)[0])
  {
    hide Covers, Distinct, RollingWindows.Target;
  }

  // Every run of requests, with windows rolling at any moment, is a run of the store's own calls: so whatever
  // holds of all of those holds here. And `epoch` counts the rolls of a row.
  lemma {:induction false} RunsAreStoreRuns(s: State, acts: seq<Action>, k: EntityKey)
    requires Inv(s) && RollingWindows.Inv(Store(s)) && k in s.rows
    ensures Store(Exec(s, acts)) == RollingWindows.Exec(Store(s), Calls(s, acts))
    ensures Exec(s, acts).epoch[k] == s.epoch[k] + |RollingWindows.RollLog(Store(s), Calls(s, acts), k)|
  {
    if acts == [] {
      assert Calls(s, acts) == [] && Exec(s, acts) == s;
    } else {
      var (pre, a) := (acts[..|acts| - 1], acts[|acts| - 1]);
      assert Calls(s, acts) == Calls(s, pre) + Call(Exec(s, pre), a) && Exec(s, acts) == Step(Exec(s, pre), a);
      hide *;
      RunsAreStoreRuns(s, pre, k);
      StepIsCall(Exec(s, pre), a);
      StoreFollows(Store(s), Calls(s, pre), Exec(s, pre), Call(Exec(s, pre), a), Exec(s, acts), k);
    }
  }

  lemma StoreFollows(start: RollingWindows.State, calls: seq<RollingWindows.Action>, s: State, c: seq<RollingWindows.Action>, t: State, k: EntityKey)
    requires RollingWindows.Inv(start) && k in s.epoch
    requires Store(s) == RollingWindows.Exec(start, calls) && Follows(s, c, t)
    ensures Store(t) == RollingWindows.Exec(start, calls + c)
    ensures k in t.epoch
    ensures t.epoch[k] - s.epoch[k] == |RollingWindows.RollLog(start, calls + c, k)| - |RollingWindows.RollLog(start, calls, k)|
  {
    hide RollingWindows.Step, RollingWindows.Inv, RollingWindows.Rolls, RollingWindows.RollLog, RollingWindows.Exec;
    if c == [] {
      assert calls + c == calls;
    } else {
      assert c == [c[0]];
      StoreRunNext(start, calls, c[0], k);
    }
  }

  lemma StoreRunNext(s: RollingWindows.State, calls: seq<RollingWindows.Action>, c: RollingWindows.Action, k: EntityKey)
    requires RollingWindows.Inv(s)
    ensures RollingWindows.Exec(s, calls + [c]) == RollingWindows.Step(RollingWindows.Exec(s, calls), c)
    ensures |RollingWindows.RollLog(s, calls + [c], k)|
            == |RollingWindows.RollLog(s, calls, k)|
               + if RollingWindows.Rolls(RollingWindows.Exec(s, calls), c) && c.key == k then 1 else 0
  {
    hide RollingWindows.Step, RollingWindows.Inv, RollingWindows.Rolls;
    assert (calls + [c])[..|calls|] == calls;
  }

  // In every such run the reset time of a budget stays a whole number of windows after the moment it was set,
  // at least one more than the row has rolled.
  lemma WindowsStayOnGrid(s: State, acts: seq<Action>, k: EntityKey, setAt: int)
    requires Inv(s) && RollingWindows.Inv(Store(s)) && k in s.rows && s.epoch[k] == 0 && s.rows[k].duration.Some?
    requires InitialResetAt(s.rows[k].duration, setAt) == Ok(s.rows[k].resetAt)
    ensures var (t, w) := (Exec(s, acts), ParseDuration(s.rows[k].duration.value));
            && t.rows[k].resetAt.Some? && w.Ok?
            && RollingWindows.OnGrid(w.value, setAt, t.rows[k].resetAt.value, t.epoch[k] + 1)
            && (t.epoch[k] == 0 ==> t.rows[k].resetAt.value == Iterate(w.value, setAt, 1))
            && IsFirstEnd(w.value, setAt, RollingWindows.LastClock(Store(s), Calls(s, acts), k, setAt), t.rows[k].resetAt.value)
  {
    hide Exec, Calls, ParseDuration, RollingWindows.Exec, RollingWindows.Inv, RollingWindows.RollLog;
    RunsAreStoreRuns(s, acts, k);
    RollingWindows.ResetStaysOnGrid(Store(s), Calls(s, acts), k, setAt);
    RollingWindows.ResetIsFirstEnd(Store(s), Calls(s, acts), k, setAt);
  }

  // ---- What a finished window holds ---------------------------------------

  // The final costs settled in window `e`, and the estimates settled there but reserved earlier.
  function Billed(reqs: seq<Request>, k: EntityKey, e: nat): real {
    if reqs == [] then 0.0
    else
      var r := reqs[|reqs| - 1];
      Billed(reqs[..|reqs| - 1], k, e) + if k in r.settled && r.settled[k] == e then Cost(r) else 0.0
  }

  predicate Straddles(r: Request, k: EntityKey, e: nat) {
    k in r.settled && k in r.taken && r.settled[k] == e && r.taken[k] != e
  }

  function Straddled(reqs: seq<Request>, k: EntityKey, e: nat): real {
    if reqs == [] then 0.0
    else
      var r := reqs[|reqs| - 1];
      Straddled(reqs[..|reqs| - 1], k, e) + if Straddles(r, k, e) then r.amount else 0.0
  }

  lemma FinishedBoth(r: Request, rows: Rows, epoch: map<EntityKey, nat>, k: EntityKey)
    requires GoodRequest(r, rows, epoch) && r.phase.Finished? && k in epoch
    ensures r.amount >= 0.0 && (k in r.taken <==> k in r.settled) && (k in r.taken ==> r.taken[k] <= r.settled[k])
  {
    assert forall x :: x in r.taken <==> x in r.keys[..r.phase.upTo];
  }

  lemma {:induction false} FinishedShares(reqs: seq<Request>, rows: Rows, epoch: map<EntityKey, nat>, k: EntityKey, e: nat)
    requires k in epoch
    requires forall i | 0 <= i < |reqs| :: GoodRequest(reqs[i], rows, epoch) && reqs[i].phase.Finished?
    ensures Shares(reqs, k, e) == Billed(reqs, k, e) - Straddled(reqs, k, e)
    ensures Straddled(reqs, k, e) >= 0.0
    ensures Straddled(reqs, k, e) == 0.0 <==>
            forall i | 0 <= i < |reqs| && Straddles(reqs[i], k, e) :: reqs[i].amount == 0.0
  {
    hide Covers, Distinct, Cost;
    if reqs != [] {
      var n := |reqs| - 1;
      FinishedShares(reqs[..n], rows, epoch, k, e);
      FinishedBoth(reqs[n], rows, epoch, k);
      hide GoodRequest;
      assert forall i | 0 <= i < n :: reqs[..n][i] == reqs[i];
    }
  }

  // Once every request has finished, the spend of a window is what it opened with plus the costs
  // settled in it, less the estimates that were reserved in an earlier window. So the row tells the
  // true cost exactly when no positive reservation crossed a roll.
  lemma WindowSpend(s: State, acts: seq<Action>, k: EntityKey)
    requires Inv(s) && k in s.rows && s.epoch[k] == 0 && s.reqs == []
    requires forall i | 0 <= i < |Exec(s, acts).reqs| :: Exec(s, acts).reqs[i].phase.Finished?
    ensures var t := Exec(s, acts);
            var (e, base) := (t.epoch[k], Base(s, t, k));
            && t.rows[k].spend == base + Billed(t.reqs, k, e) - Straddled(t.reqs, k, e)
            && (t.rows[k].spend == base + Billed(t.reqs, k, e) <==>
                forall i | 0 <= i < |t.reqs| && Straddles(t.reqs[i], k, e) :: t.reqs[i].amount == 0.0)
  {
    SpendIsShares(s, acts, k);
    var t := Exec(s, acts);
    FinishedShares(t.reqs, t.rows, t.epoch, k, t.epoch[k]);
  }

  // ---- Settling after a roll ----------------------------------------------

  // One store call at a time: the first `m` rows of a settling request.
  function Advances(i: nat, m: nat): seq<Action> {
    seq(m, _ => Advance(i))
  }

  lemma ExecOne(s: State, acts: seq<Action>, a: Action)
    requires Inv(s)
    ensures Exec(s, acts + [a]) == Step(Exec(s, acts), a)
  {
    assert (acts + [a])[..|acts|] == acts;
  }

  lemma {:induction false} ExecConcat(s: State, xs: seq<Action>, ys: seq<Action>)
    requires Inv(s)
    ensures Exec(s, xs + ys) == Exec(Exec(s, xs), ys)
  {
    hide Step, Inv;
    if ys == [] {
      assert xs + ys == xs;
    } else {
      var pre := ys[..|ys| - 1];
      ExecConcat(s, xs, pre);
      ExecOne(s, xs + pre, ys[|ys| - 1]);
      assert xs + ys == xs + pre + [ys[|ys| - 1]];
    }
  }

  // After `m` store calls of a settling request the rows from its m-th on are untouched.
  lemma {:induction false} SettleRows(s: State, i: nat, m: nat)
    requires Inv(s) && i < |s.reqs| && s.reqs[i].phase.Settling? && s.reqs[i].phase.next == 0
    requires m <= s.reqs[i].phase.upTo
    ensures var (t, r) := (Exec(s, Advances(i, m)), s.reqs[i]);
            && |t.reqs| == |s.reqs| && t.epoch == s.epoch && m <= |r.keys|
            && t.reqs[i] == r.(phase := Settling(m, r.phase.upTo, r.phase.actual), settled := t.reqs[i].settled)
            && forall j | m <= j < |r.keys| :: r.keys[j] in s.rows && r.keys[j] in t.rows && t.rows[r.keys[j]] == s.rows[r.keys[j]]
  {
    hide Inv, GoodRequest, Step, Exec, Settled;
    InReqs(s, i);
    if m == 0 {
      ExecNone(s);
      assert Advances(i, 0) == [];
    } else {
      SettleRows(s, i, m - 1);
      assert Advances(i, m) == Advances(i, m - 1) + [Advance(i)];
      ExecOne(s, Advances(i, m - 1), Advance(i));
      SettleOne(Exec(s, Advances(i, m - 1)), i);
    }
  }

  lemma ExecNone(s: State)
    requires Inv(s)
    ensures Exec(s, []) == s
  {
  }

  lemma InReqs(s: State, i: nat)
    requires Inv(s) && i < |s.reqs|
    ensures GoodRequest(s.reqs[i], s.rows, s.epoch) && Counts(s.reqs[i]).0 <= |s.reqs[i].keys| && Distinct(s.reqs[i].keys)
    ensures forall j | 0 <= j < |s.reqs[i].keys| :: s.reqs[i].keys[j] in s.rows
  {
  }

  lemma SettleOne(s: State, i: nat)
    requires Inv(s) && i < |s.reqs| && s.reqs[i].phase.Settling? && s.reqs[i].phase.next < s.reqs[i].phase.upTo
    ensures s.reqs[i].phase.next < |s.reqs[i].keys|
    ensures var (t, r, n) := (Step(s, Advance(i)), s.reqs[i], s.reqs[i].phase.next);
            && |t.reqs| == |s.reqs| && t.epoch == s.epoch
            && t.reqs[i] == r.(phase := r.phase.(next := n + 1), settled := t.reqs[i].settled)
            && t.rows == Settled(s.rows, r.keys[n], r.amount, r.phase.actual)
            && forall j | n < j < |r.keys| :: r.keys[j] in s.rows && r.keys[j] in t.rows && t.rows[r.keys[j]] == s.rows[r.keys[j]]
  {
    InReqs(s, i);
    hide Covers;
  }

  // A held request settles on its n-th row after the window of that row rolled. The new window then
  // stands at the correction alone, below zero whenever the request cost less than it had reserved, and
  // admits that much more than its cap.
  lemma SettleAfterRoll(s: State, i: nat, n: nat, call: RollingWindows.Action, actual: real)
    requires Inv(s) && i < |s.reqs| && s.reqs[i].phase.Held? && n < |s.reqs[i].keys|
    requires Rolls(s, call) && call.key == s.reqs[i].keys[n]
    ensures var (r, k) := (s.reqs[i], s.reqs[i].keys[n]);
            var t := Exec(s, [Window(call), Settle(i, actual)] + Advances(i, n + 1));
            && k in s.rows && k in t.rows && t.rows[k].spend == FinalCost(r.amount, actual) - r.amount
            && forall x :: CanReserve(t.rows, k, x) <==>
                 s.rows[k].maxBudget.None? || x <= s.rows[k].maxBudget.value + r.amount - FinalCost(r.amount, actual)
  {
    hide GoodRequest, Inv, Step, Exec, Rolls, Settled, FinalCost;
    var (r, k) := (s.reqs[i], s.reqs[i].keys[n]);
    RollThenSettle(s, i, n, call, actual);
    var s2 := Exec(s, [Window(call), Settle(i, actual)]);
    SettleRows(s2, i, n);
    SettleOne(Exec(s2, Advances(i, n)), i);
    SettledRow(Exec(s2, Advances(i, n)).rows, k, r.amount, actual);
    ExecOne(s2, Advances(i, n), Advance(i));
    assert Advances(i, n + 1) == Advances(i, n) + [Advance(i)];
    ExecConcat(s, [Window(call), Settle(i, actual)], Advances(i, n + 1));
  }

  lemma SettledRow(rows: Rows, k: EntityKey, amount: real, actual: real)
    requires k in rows
    ensures var t := Settled(rows, k, amount, actual);
            && k in t && t[k].maxBudget == rows[k].maxBudget
            && t[k].spend == rows[k].spend + FinalCost(amount, actual) - amount
  {
  }

  lemma RollThenSettle(s: State, i: nat, n: nat, call: RollingWindows.Action, actual: real)
    requires Inv(s) && i < |s.reqs| && s.reqs[i].phase.Held? && n < |s.reqs[i].keys|
    requires Rolls(s, call) && call.key == s.reqs[i].keys[n]
    ensures var (r, k) := (s.reqs[i], s.reqs[i].keys[n]);
            var t := Exec(s, [Window(call), Settle(i, actual)]);
            && k in s.rows && |t.reqs| == |s.reqs| && t.reqs[i] == r.(phase := Settling(0, |r.keys|, actual))
            && k in t.rows && t.rows[k].spend == 0.0 && t.rows[k].maxBudget == s.rows[k].maxBudget
  {
    hide Exec, Inv, GoodRequest, Rolls, RollingWindows.Step;
    RollAddsNothing(s, call);
    WindowFrame(s, call, call.key);
    ExecNone(s);
    ExecOne(s, [], Window(call));
    ExecOne(s, [Window(call)], Settle(i, actual));
    assert [] + [Window(call)] == [Window(call)];
    assert [Window(call)] + [Settle(i, actual)] == [Window(call), Settle(i, actual)];
  }

  lemma RollAddsNothing(s: State, call: RollingWindows.Action)
    requires Rolls(s, call)
    ensures !AddsSpend(call)
  {
    hide RollingWindows.Target;
  }

  // ---- The cap -------------------------------------------------------------

  // By how much the requests settled in window `e` of row `k` cost more than they had reserved.
  function OverrunIn(reqs: seq<Request>, k: EntityKey, e: nat): real {
    if reqs == [] then 0.0
    else
      var r := reqs[|reqs| - 1];
      OverrunIn(reqs[..|reqs| - 1], k, e) + Excess(r, k, e)
  }

  function Excess(r: Request, k: EntityKey, e: nat): (x: real)
    ensures x >= 0.0
  {
    if k in r.settled && r.settled[k] == e && Cost(r) > r.amount then Cost(r) - r.amount else 0.0
  }

  lemma {:induction false} OverrunUpdate(reqs: seq<Request>, i: nat, r: Request, k: EntityKey, e: nat)
    requires i < |reqs|
    ensures OverrunIn(reqs[i := r], k, e) == OverrunIn(reqs, k, e) - Excess(reqs[i], k, e) + Excess(r, k, e)
    ensures OverrunIn(reqs, k, e) >= 0.0
  {
    hide Excess;
    var n := |reqs| - 1;
    OverrunNonNegative(reqs, k, e);
    if i < n {
      OverrunUpdate(reqs[..n], i, r, k, e);
      assert reqs[i := r][..n] == reqs[..n][i := r];
    } else {
      assert reqs[i := r][..n] == reqs[..n];
    }
  }

  lemma {:induction false} OverrunNonNegative(reqs: seq<Request>, k: EntityKey, e: nat)
    ensures OverrunIn(reqs, k, e) >= 0.0
  {
    hide Excess;
    if reqs != [] {
      OverrunNonNegative(reqs[..|reqs| - 1], k, e);
    }
  }

  ghost predicate UnderCap(s: State, k: EntityKey)
    requires k in s.rows && k in s.epoch
  {
    s.rows[k].maxBudget.Some? ==> s.rows[k].spend <= s.rows[k].maxBudget.value + OverrunIn(s.reqs, k, s.epoch[k])
  }

  // One store call keeps the row under its cap, or raises the excess by what it adds.
  lemma AdvanceUnderCap(s: State, r: Request, k: EntityKey, over: real)
    requires s.epoch.Keys == s.rows.Keys && GoodRequest(r, s.rows, s.epoch) && k in s.rows && s.rows[k].maxBudget.Some?
    requires over >= Excess(r, k, s.epoch[k]) && s.rows[k].spend <= s.rows[k].maxBudget.value + over
    ensures var (rows, r') := AdvanceRequest(s, r);
            && k in rows && rows[k].maxBudget == s.rows[k].maxBudget
            && rows[k].spend <= rows[k].maxBudget.value + over - Excess(r, k, s.epoch[k]) + Excess(r', k, s.epoch[k])
  {
    hide Covers, Distinct;
    if r.phase.Settling? && r.phase.next < r.phase.upTo {
      CoversNext(r.settled, r.keys, r.phase.next, 0);
    }
  }

  lemma StepUnderCap(s: State, a: Action, k: EntityKey)
    requires Inv(s) && k in s.rows && UnderCap(s, k)
    requires s.rows[k].maxBudget.Some? ==> s.rows[k].maxBudget.value >= 0.0
    ensures Inv(Step(s, a)) && k in Step(s, a).rows && k in Step(s, a).epoch && UnderCap(Step(s, a), k)
    ensures Step(s, a).rows[k].maxBudget == s.rows[k].maxBudget
  {
    hide AdvanceRequest, Excess, GoodRequest, RollingWindows.Step, RollingWindows.Rolls;
    StepInv(s, a);
    OverrunNonNegative(s.reqs, k, Step(s, a).epoch[k]);
    match a
    case Begin(keys, estimate) =>
      var reqs := Step(s, a).reqs;
      if reqs != s.reqs {
        assert reqs[..|reqs| - 1] == s.reqs;
        HeldExcess(reqs[|reqs| - 1], k, s.epoch[k]);
      }
    case Advance(i) =>
      if i < |s.reqs| {
        AdvanceShare(s, s.reqs[i], k);
        OverrunUpdate(s.reqs, i, AdvanceRequest(s, s.reqs[i]).1, k, s.epoch[k]);
        if s.rows[k].maxBudget.Some? {
          ExcessBelowOverrun(s.reqs, i, k, s.epoch[k]);
          AdvanceUnderCap(s, s.reqs[i], k, OverrunIn(s.reqs, k, s.epoch[k]));
        }
      }
    case Settle(i, actual) =>
      if i < |s.reqs| && s.reqs[i].phase.Held? {
        var r := s.reqs[i].(phase := Settling(0, |s.reqs[i].keys|, actual));
        NothingSettled(s.reqs[i], s.rows, s.epoch);
        HeldExcess(s.reqs[i], k, s.epoch[k]);
        HeldExcess(r, k, s.epoch[k]);
        OverrunUpdate(s.reqs, i, r, k, s.epoch[k]);
      }
    case Window(call) =>
      if !AddsSpend(call) {
        WindowFrame(s, call, k);
      }
  }

  lemma HeldExcess(r: Request, k: EntityKey, e: nat)
    requires r.settled == map[]
    ensures Excess(r, k, e) == 0.0
  {
  }

  lemma {:induction false} ExcessBelowOverrun(reqs: seq<Request>, i: nat, k: EntityKey, e: nat)
    requires i < |reqs|
    ensures Excess(reqs[i], k, e) <= OverrunIn(reqs, k, e)
  {
    hide Excess;
    var n := |reqs| - 1;
    OverrunNonNegative(reqs[..n], k, e);
    if i < n {
      ExcessBelowOverrun(reqs[..n], i, k, e);
    }
  }

  // In every interleaving a row passes its hard cap by no more than the requests settled in its current
  // window cost above their own reservations; with estimates that bound the costs, never.
  lemma {:induction false} SpendWithinCapAndOverrun(s: State, acts: seq<Action>, k: EntityKey)
    requires Inv(s) && k in s.rows && s.reqs == [] && s.rows[k].maxBudget.Some?
    requires s.rows[k].maxBudget.value >= 0.0 && s.rows[k].spend <= s.rows[k].maxBudget.value
    ensures Exec(s, acts).rows[k].maxBudget == s.rows[k].maxBudget
    ensures UnderCap(Exec(s, acts), k)
  {
    hide Step, GoodRequest;
    if acts != [] {
      SpendWithinCapAndOverrun(s, acts[..|acts| - 1], k);
      StepUnderCap(Exec(s, acts[..|acts| - 1]), acts[|acts| - 1], k);
    }
  }

  // Where no request settled in the current window costs more than it reserved, the row is within its cap.
  lemma EstimatesKeepTheCap(s: State, acts: seq<Action>, k: EntityKey)
    requires Inv(s) && k in s.rows && s.reqs == [] && s.rows[k].maxBudget.Some?
    requires s.rows[k].maxBudget.value >= 0.0 && s.rows[k].spend <= s.rows[k].maxBudget.value
    requires forall i | 0 <= i < |Exec(s, acts).reqs| && SettledIn(Exec(s, acts).reqs[i], k, Exec(s, acts).epoch[k]) ::
               Cost(Exec(s, acts).reqs[i]) <= Exec(s, acts).reqs[i].amount
    ensures Exec(s, acts).rows[k].spend <= s.rows[k].maxBudget.value
  {
    hide GoodRequest, Exec, Cost;
    SpendWithinCapAndOverrun(s, acts, k);
    NoOverrun(Exec(s, acts).reqs, k, Exec(s, acts).epoch[k]);
  }

  predicate SettledIn(r: Request, k: EntityKey, e: nat) {
    k in r.settled && r.settled[k] == e
  }

  lemma {:induction false} NoOverrun(reqs: seq<Request>, k: EntityKey, e: nat)
    requires forall i | 0 <= i < |reqs| && SettledIn(reqs[i], k, e) :: Cost(reqs[i]) <= reqs[i].amount
    ensures OverrunIn(reqs, k, e) == 0.0
  {
    hide Cost;
    if reqs != [] {
      NoOverrun(reqs[..|reqs| - 1], k, e);
    }
  }

  // So the costs billed to a window in which every request has finished pass the cap by no more than the
  // overruns of that window and the estimates that were reserved before it began.
  lemma BilledWithinCap(s: State, acts: seq<Action>, k: EntityKey)
    requires Inv(s) && k in s.rows && s.epoch[k] == 0 && s.reqs == [] && s.rows[k].maxBudget.Some?
    requires s.rows[k].maxBudget.value >= 0.0 && s.rows[k].spend <= s.rows[k].maxBudget.value
    requires forall i | 0 <= i < |Exec(s, acts).reqs| :: Exec(s, acts).reqs[i].phase.Finished?
    ensures var t := Exec(s, acts);
            var e := t.epoch[k];
            Base(s, t, k) + Billed(t.reqs, k, e) <= s.rows[k].maxBudget.value + OverrunIn(t.reqs, k, e) + Straddled(t.reqs, k, e)
  {
    hide Inv, Exec;
    WindowSpend(s, acts, k);
    SpendWithinCapAndOverrun(s, acts, k);
  }

  // ---- What a late settlement admits ---------------------------------------

  // What the requests that reserved in window `e` have taken of it: the estimate, and once settled the cost.
  function Own(reqs: seq<Request>, k: EntityKey, e: nat): real {
    if reqs == [] then 0.0
    else
      var r := reqs[|reqs| - 1];
      Own(reqs[..|reqs| - 1], k, e) +
      if k !in r.taken || r.taken[k] != e then 0.0 else if k in r.settled then Cost(r) else r.amount
  }

  // The corrections that requests of earlier windows made to window `e`.
  function Carry(reqs: seq<Request>, k: EntityKey, e: nat): real {
    if reqs == [] then 0.0
    else
      var r := reqs[|reqs| - 1];
      Carry(reqs[..|reqs| - 1], k, e) + if Straddles(r, k, e) then Cost(r) - r.amount else 0.0
  }

  lemma {:induction false} SharesSplit(reqs: seq<Request>, rows: Rows, epoch: map<EntityKey, nat>, k: EntityKey)
    requires k in epoch && forall i | 0 <= i < |reqs| :: GoodRequest(reqs[i], rows, epoch)
    ensures Shares(reqs, k, epoch[k]) == Own(reqs, k, epoch[k]) + Carry(reqs, k, epoch[k])
  {
    hide Covers, Distinct, Cost;
    if reqs != [] {
      var n := |reqs| - 1;
      SharesSplit(reqs[..n], rows, epoch, k);
      assert GoodRequest(reqs[n], rows, epoch);
    }
  }

  // Whatever the interleaving, the window of a capped row admits no reservation that takes it over the cap
  // exactly when its late settlements did not lower it; for positive amounts, or when it is full anyway.
  lemma CapHoldsIffNoCredit(s: State, acts: seq<Action>, k: EntityKey)
    requires Inv(s) && k in s.rows && s.epoch[k] == 0 && s.reqs == [] && Exec(s, acts).rows[k].maxBudget.Some?
    ensures var t := Exec(s, acts);
            var (cap, taken, carry) := (t.rows[k].maxBudget.value, Base(s, t, k) + Own(t.reqs, k, t.epoch[k]), Carry(t.reqs, k, t.epoch[k]));
            && t.rows[k].spend == taken + carry
            && ((forall x | CanReserve(t.rows, k, x) :: taken + x <= cap) <==> carry >= 0.0)
            && ((forall x | x > 0.0 && CanReserve(t.rows, k, x) :: taken + x <= cap) <==> carry >= 0.0 || t.rows[k].spend >= cap)
  {
    hide Exec, GoodRequest;
    var t := Exec(s, acts);
    SpendIsShares(s, acts, k);
    SharesSplit(t.reqs, t.rows, t.epoch, k);
    var free := t.rows[k].maxBudget.value - t.rows[k].spend;
    assert CanReserve(t.rows, k, free);
  }

  // ---- A run that bills twice the cap --------------------------------------

  function ReserveCalls(i: nat, k: EntityKey, amount: real): (calls: seq<Action>)
    ensures calls == [Begin([k], amount), Advance(i), Advance(i)]
  {
    [Begin([k], amount), Advance(i), Advance(i)]
  }

  function SettleCalls(i: nat, actual: real): (calls: seq<Action>)
    ensures calls == [Settle(i, actual), Advance(i), Advance(i)]
  {
    [Settle(i, actual), Advance(i), Advance(i)]
  }

  lemma ExecThree(s: State, a: Action, b: Action, c: Action)
    requires Inv(s)
    ensures Inv(Step(s, a)) && Inv(Step(Step(s, a), b))
    ensures Exec(s, [a, b, c]) == Step(Step(Step(s, a), b), c)
  {
    hide Step, Inv;
    StepInv(s, a);
    StepInv(Step(s, a), b);
    ExecNone(s);
    ExecOne(s, [], a);
    ExecOne(s, [a], b);
    ExecOne(s, [a, b], c);
    assert [] + [a] == [a] && [a] + [b] == [a, b] && [a, b] + [c] == [a, b, c];
  }

  lemma BeginOne(s: State, k: EntityKey, amount: real)
    requires Inv(s) && amount > 0.0 && CanReserve(s.rows, k, amount)
    ensures k in s.rows && k in s.epoch
    ensures Step(s, Begin([k], amount)) == s.(reqs := s.reqs + [Request([k], amount, Reserving(0), map[], map[])])
  {
    assert k in s.epoch;
    hide Inv;
    assert forall x | x in [k] :: x == k;
  }

  lemma ReserveOne(s: State, i: nat, k: EntityKey)
    requires Inv(s) && i < |s.reqs| && s.reqs[i].keys == [k] && s.reqs[i].phase == Reserving(0) && s.reqs[i].taken == map[]
    requires s.reqs[i].amount > 0.0 && CanReserve(s.rows, k, s.reqs[i].amount)
    ensures k in s.epoch
    ensures Step(s, Advance(i)) == s.(rows := Charged(s.rows, k, s.reqs[i].amount),
                                      reqs := s.reqs[i := s.reqs[i].(phase := Reserving(1), taken := map[k := s.epoch[k]])])
  {
    InReqs(s, i);
    hide GoodRequest;
  }

  lemma HoldOne(s: State, i: nat)
    requires Inv(s) && i < |s.reqs| && s.reqs[i].phase == Reserving(|s.reqs[i].keys|)
    ensures Step(s, Advance(i)) == s.(reqs := s.reqs[i := s.reqs[i].(phase := Held)])
  {
    InReqs(s, i);
    hide GoodRequest;
  }

  lemma SettleFirst(s: State, i: nat, k: EntityKey)
    requires Inv(s) && i < |s.reqs| && s.reqs[i].keys == [k] && s.reqs[i].settled == map[]
    requires s.reqs[i].phase.Settling? && s.reqs[i].phase.next == 0 && s.reqs[i].phase.upTo == 1
    ensures k in s.epoch
    ensures var r := s.reqs[i];
            Step(s, Advance(i)) == s.(rows := Settled(s.rows, k, r.amount, r.phase.actual),
                                      reqs := s.reqs[i := r.(phase := Settling(1, 1, r.phase.actual), settled := map[k := s.epoch[k]])])
  {
    InReqs(s, i);
    assert s.reqs[i].keys[0] == k;
    hide GoodRequest, Settled;
  }

  lemma FinishOne(s: State, i: nat)
    requires Inv(s) && i < |s.reqs| && s.reqs[i].phase.Settling? && s.reqs[i].phase.next == s.reqs[i].phase.upTo
    ensures var r := s.reqs[i];
            Step(s, Advance(i)) == s.(reqs := s.reqs[i := r.(phase := Finished(r.phase.upTo, r.phase.actual))])
  {
    InReqs(s, i);
    hide GoodRequest;
  }

  // A request on one row reserves and is held.
  lemma ReserveRun(s: State, k: EntityKey, amount: real)
    requires Inv(s) && amount > 0.0 && CanReserve(s.rows, k, amount)
    ensures k in s.epoch
    ensures Exec(s, ReserveCalls(|s.reqs|, k, amount))
            == s.(rows := Charged(s.rows, k, amount), reqs := s.reqs + [Request([k], amount, Held, map[k := s.epoch[k]], map[])])
  {
    hide *;
    var n := |s.reqs|;
    BeginOne(s, k, amount);
    ExecThree(s, Begin([k], amount), Advance(n), Advance(n));
    var r := Request([k], amount, Reserving(0), map[], map[]);
    var s1 := Step(s, Begin([k], amount));
    assert s1.reqs[n] == r;
    ReserveOne(s1, n, k);
    var s2 := Step(s1, Advance(n));
    r := r.(phase := Reserving(1), taken := map[k := s.epoch[k]]);
    assert s2.reqs == s.reqs + [r];
    HoldOne(s2, n);
    assert s2.reqs[n := r.(phase := Held)] == s.reqs + [r.(phase := Held)];
  }

  // And a held one settles and finishes.
  lemma SettleRun(s: State, i: nat, k: EntityKey, actual: real)
    requires Inv(s) && i < |s.reqs| && s.reqs[i].phase.Held? && s.reqs[i].keys == [k] && s.reqs[i].settled == map[]
    ensures k in s.epoch
    ensures Exec(s, SettleCalls(i, actual))
            == s.(rows := Settled(s.rows, k, s.reqs[i].amount, actual),
                  reqs := s.reqs[i := s.reqs[i].(phase := Finished(1, actual), settled := map[k := s.epoch[k]])])
  {
    hide *;
    SettleBegins(s, i, k, actual);
    ExecThree(s, Settle(i, actual), Advance(i), Advance(i));
    var s1 := Step(s, Settle(i, actual));
    SettleFirst(s1, i, k);
    FinishOne(Step(s1, Advance(i)), i);
  }

  lemma SettleBegins(s: State, i: nat, k: EntityKey, actual: real)
    requires Inv(s) && i < |s.reqs| && s.reqs[i].phase.Held? && s.reqs[i].keys == [k]
    ensures Step(s, Settle(i, actual)) == s.(reqs := s.reqs[i := s.reqs[i].(phase := Settling(0, 1, actual))])
  {
    hide Inv;
  }

  // A store with one row, with a cap of 10 and a window of a day.
  function DayRow(spend: real, resetAt: int): LimitsRow {
    LimitsRow(Some(10.0), None, Some("1d"), spend, Some(resetAt), None)
  }

  function OneRow(k: EntityKey, spend: real, resetAt: int, seen: map<(int, EntityKey), LimitsRow>, e: nat, reqs: seq<Request>): State {
    State(map[k := DayRow(spend, resetAt)], seen, map[k := e], reqs)
  }

  lemma ReserveOneRow(k: EntityKey, spend: real, resetAt: int, seen: map<(int, EntityKey), LimitsRow>, e: nat, reqs: seq<Request>, amount: real)
    requires Inv(OneRow(k, spend, resetAt, seen, e, reqs)) && amount > 0.0 && spend + amount <= 10.0
    ensures Exec(OneRow(k, spend, resetAt, seen, e, reqs), ReserveCalls(|reqs|, k, amount))
            == OneRow(k, spend + amount, resetAt, seen, e, reqs + [HeldOn(k, amount, e)])
  {
    hide Inv, Exec;
    ReserveRun(OneRow(k, spend, resetAt, seen, e, reqs), k, amount);
  }

  lemma SettleOneRow(k: EntityKey, spend: real, resetAt: int, seen: map<(int, EntityKey), LimitsRow>, e: nat, reqs: seq<Request>, i: nat, actual: real)
    requires Inv(OneRow(k, spend, resetAt, seen, e, reqs)) && i < |reqs| && reqs[i].phase.Held? && reqs[i].keys == [k] && reqs[i].settled == map[]
    ensures Exec(OneRow(k, spend, resetAt, seen, e, reqs), SettleCalls(i, actual))
            == OneRow(k, spend + FinalCost(reqs[i].amount, actual) - reqs[i].amount, resetAt, seen, e,
                      reqs[i := reqs[i].(phase := Finished(1, actual), settled := map[k := e])])
  {
    hide Inv, Exec;
    SettleRun(OneRow(k, spend, resetAt, seen, e, reqs), i, k, actual);
  }

  // A caller that finds the window lapsed at `now` and rolls it.
  function RollCalls(caller: int, k: EntityKey, now: int): (calls: seq<Action>)
    ensures calls == [Window(RollingWindows.Read(caller, k)), Window(RollingWindows.TryRoll(caller, k, now))]
  {
    [Window(RollingWindows.Read(caller, k)), Window(RollingWindows.TryRoll(caller, k, now))]
  }

  lemma RollOneRow(k: EntityKey, spend: real, reqs: seq<Request>)
    requires Inv(OneRow(k, spend, NANOS_PER_DAY, map[], 0, reqs))
    ensures Exec(OneRow(k, spend, NANOS_PER_DAY, map[], 0, reqs), RollCalls(1, k, NANOS_PER_DAY))
            == OneRow(k, 0.0, 2 * NANOS_PER_DAY, map[(1, k) := DayRow(spend, NANOS_PER_DAY)], 1, reqs)
  {
    var s := OneRow(k, spend, NANOS_PER_DAY, map[], 0, reqs);
    var (read, roll) := (Window(RollingWindows.Read(1, k)), Window(RollingWindows.TryRoll(1, k, NANOS_PER_DAY)));
    hide Inv, Exec, Step, LapsedWindowNextReset;
    ExecNone(s);
    ExecOne(s, [], read);
    ExecOne(s, [read], roll);
    assert [] + [read] == [read] && [read] + [roll] == [read, roll];
    ReadOneRow(k, spend, reqs);
    TryRollOneRow(k, spend, reqs);
  }

  lemma ReadOneRow(k: EntityKey, spend: real, reqs: seq<Request>)
    requires Inv(OneRow(k, spend, NANOS_PER_DAY, map[], 0, reqs))
    ensures Step(OneRow(k, spend, NANOS_PER_DAY, map[], 0, reqs), Window(RollingWindows.Read(1, k)))
            == OneRow(k, spend, NANOS_PER_DAY, map[(1, k) := DayRow(spend, NANOS_PER_DAY)], 0, reqs)
  {
    hide Inv;
  }

  lemma TryRollOneRow(k: EntityKey, spend: real, reqs: seq<Request>)
    requires Inv(OneRow(k, spend, NANOS_PER_DAY, map[(1, k) := DayRow(spend, NANOS_PER_DAY)], 0, reqs))
    ensures Step(OneRow(k, spend, NANOS_PER_DAY, map[(1, k) := DayRow(spend, NANOS_PER_DAY)], 0, reqs),
                 Window(RollingWindows.TryRoll(1, k, NANOS_PER_DAY)))
            == OneRow(k, 0.0, 2 * NANOS_PER_DAY, map[(1, k) := DayRow(spend, NANOS_PER_DAY)], 1, reqs)
  {
    hide Inv, RollingWindows.Step, RollingWindows.Rolls;
    StoreRolls(k, spend);
  }

  lemma StoreRolls(k: EntityKey, spend: real)
    ensures var seen := map[(1, k) := DayRow(spend, NANOS_PER_DAY)];
            var (s, call) := (RollingWindows.State(map[k := DayRow(spend, NANOS_PER_DAY)], seen), RollingWindows.TryRoll(1, k, NANOS_PER_DAY));
            && RollingWindows.Rolls(s, call)
            && RollingWindows.Step(s, call) == RollingWindows.State(map[k := DayRow(0.0, 2 * NANOS_PER_DAY)], seen)
  {
    hide LapsedWindowNextReset, RollingWindows.Step, RollingWindows.Rolls;
    DayWindow();
    var seen := map[(1, k) := DayRow(spend, NANOS_PER_DAY)];
    RollingWindows.CurrentViewRolls(RollingWindows.State(map[k := DayRow(spend, NANOS_PER_DAY)], seen), 1, k, NANOS_PER_DAY);
  }

  function HeldOn(k: EntityKey, amount: real, e: nat): Request {
    Request([k], amount, Held, map[k := e], map[])
  }

  function SettledAt(k: EntityKey, amount: real, e: nat, actual: real): Request {
    HeldOn(k, amount, e).(phase := Finished(1, actual), settled := map[k := 1])
  }

  lemma OneRowInv(k: EntityKey)
    ensures Inv(OneRow(k, 0.0, NANOS_PER_DAY, map[], 0, []))
  {
  }

  // A reservation of 10 crosses a roll and settles at 0 ...
  lemma CreditCarried(k: EntityKey)
    ensures Inv(OneRow(k, 0.0, NANOS_PER_DAY, map[], 0, []))
    ensures Exec(OneRow(k, 0.0, NANOS_PER_DAY, map[], 0, []), ReserveCalls(0, k, 10.0) + RollCalls(1, k, NANOS_PER_DAY) + SettleCalls(0, 0.0))
            == OneRow(k, -10.0, 2 * NANOS_PER_DAY, map[(1, k) := DayRow(10.0, NANOS_PER_DAY)], 1, [SettledAt(k, 10.0, 0, 0.0)])
  {
    hide Exec, Step, Inv, OneRow, ReserveCalls, SettleCalls, RollCalls, FinalCost;
    var s := OneRow(k, 0.0, NANOS_PER_DAY, map[], 0, []);
    OneRowInv(k);
    var h := HeldOn(k, 10.0, 0);
    ReserveOneRow(k, 0.0, NANOS_PER_DAY, map[], 0, [], 10.0);
    assert [] + [h] == [h];
    ExecConcat(s, ReserveCalls(0, k, 10.0), RollCalls(1, k, NANOS_PER_DAY));
    RollOneRow(k, 10.0, [h]);
    ExecConcat(s, ReserveCalls(0, k, 10.0) + RollCalls(1, k, NANOS_PER_DAY), SettleCalls(0, 0.0));
    SettleOneRow(k, 0.0, 2 * NANOS_PER_DAY, map[(1, k) := DayRow(10.0, NANOS_PER_DAY)], 1, [h], 0, 0.0);
    assert [h][0 := SettledAt(k, 10.0, 0, 0.0)] == [SettledAt(k, 10.0, 0, 0.0)];
  }

  // ... and the new window, whose cap is 10 too, then reserves 20 and bills 20. The row is that of a budget of
  // "1d" set at instant 0, rolled when its window ends.
  lemma LateCreditWitness(k: EntityKey)
    ensures Inv(OneRow(k, 0.0, NANOS_PER_DAY, map[], 0, []))
    ensures InitialResetAt(Some("1d"), 0) == Ok(Some(NANOS_PER_DAY))
    ensures LapsedWindowNextReset(Some("1d"), Some(NANOS_PER_DAY), NANOS_PER_DAY) == Some(2 * NANOS_PER_DAY)
    ensures var t := Exec(OneRow(k, 0.0, NANOS_PER_DAY, map[], 0, []),
                          ReserveCalls(0, k, 10.0) + RollCalls(1, k, NANOS_PER_DAY) + SettleCalls(0, 0.0)
                          + ReserveCalls(1, k, 20.0) + SettleCalls(1, 20.0));
            && t == OneRow(k, 10.0, 2 * NANOS_PER_DAY, t.seen, 1, [SettledAt(k, 10.0, 0, 0.0), SettledAt(k, 20.0, 1, 20.0)])
            && Billed(t.reqs, k, 1) == 20.0 && t.rows[k].maxBudget == Some(10.0)
  {
    hide Exec, Step, Inv, Billed, ReserveCalls, SettleCalls, RollCalls, LapsedWindowNextReset, InitialResetAt;
    DayWindow();
    var (s, seen) := (OneRow(k, 0.0, NANOS_PER_DAY, map[], 0, []), map[(1, k) := DayRow(10.0, NANOS_PER_DAY)]);
    CreditCarried(k);
    var (f0, r1, f1) := (SettledAt(k, 10.0, 0, 0.0), HeldOn(k, 20.0, 1), SettledAt(k, 20.0, 1, 20.0));
    var c := ReserveCalls(0, k, 10.0) + RollCalls(1, k, NANOS_PER_DAY) + SettleCalls(0, 0.0);
    ExecConcat(s, c, ReserveCalls(1, k, 20.0));
    ReserveOneRow(k, -10.0, 2 * NANOS_PER_DAY, seen, 1, [f0], 20.0);
    assert [f0] + [r1] == [f0, r1];
    ExecConcat(s, c + ReserveCalls(1, k, 20.0), SettleCalls(1, 20.0));
    SettleOneRow(k, 10.0, 2 * NANOS_PER_DAY, seen, 1, [f0, r1], 1, 20.0);
    assert [f0, r1][1 := f1] == [f0, f1];
    BilledTwo([f0, f1], k);
  }

  lemma BilledTwo(reqs: seq<Request>, k: EntityKey)
    requires |reqs| == 2
    requires k in reqs[0].settled && reqs[0].settled[k] == 1 && reqs[0].phase == Finished(1, 0.0) && reqs[0].amount == 10.0
    requires k in reqs[1].settled && reqs[1].settled[k] == 1 && reqs[1].phase == Finished(1, 20.0) && reqs[1].amount == 20.0
    ensures Billed(reqs, k, 1) == 20.0
  {
    assert Billed(reqs[..1], k, 1) == 0.0 by {
      assert reqs[..1][..0] == [];
      assert reqs[..1][0] == reqs[0];
    }
    assert Billed(reqs, k, 1) == Billed(reqs[..1], k, 1) + Cost(reqs[1]);
  }
}
