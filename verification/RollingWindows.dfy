/**
  Every interleaving of callers that read a limits row, roll its lapsed window by
  compare-and-set, reserve, charge and raise the soft alert.
 */
module RollingWindows {
  import opened Common
  import opened BudgetWindows
  import opened LimitsStore

  // ---- Interleavings -------------------------------------------------------

  // What each caller last read, and what it may do next, on its own clock.
  datatype State = State(rows: Rows, seen: map<(int, EntityKey), LimitsRow>)

  datatype Action =
    | Read(caller: int, key: EntityKey)
    | TryRoll(caller: int, key: EntityKey, now: int)
    | Reserve(key: EntityKey, amount: real)
    | Charge(key: EntityKey, delta: real)
    | Alert(key: EntityKey, at: int)

  // The reset time a caller would roll to, from the row it read.
  function Target(s: State, a: Action): Option<int>
    requires a.TryRoll?
  {
    if (a.caller, a.key) in s.seen
    then LapsedWindowNextReset(s.seen[(a.caller, a.key)].duration, s.seen[(a.caller, a.key)].resetAt, a.now)
    else None
  }

  predicate Rolls(s: State, a: Action) {
    a.TryRoll? && Target(s, a).Some? && CanRoll(s.rows, a.key, s.seen[(a.caller, a.key)].resetAt)
  }

  function Step(s: State, a: Action): State {
    match a
    case Read(c, k) => if k in s.rows then s.(seen := s.seen[(c, k) := s.rows[k]]) else s
    case TryRoll(c, k, _) =>
      var target := Target(s, a);
      if target.Some? then s.(rows := Rolled(s.rows, k, s.seen[(c, k)].resetAt, target)) else s
    case Reserve(k, amount) => s.(rows := Reserved(s.rows, k, amount))
    case Charge(k, delta) => s.(rows := Charged(s.rows, k, delta))
    case Alert(k, at) => s.(rows := Alerted(s.rows, k, at))
  }

  function Exec(s: State, acts: seq<Action>): State {
    if acts == [] then s else Step(Exec(s, acts[..|acts| - 1]), acts[|acts| - 1])
  }

  // A caller's view of a row is never newer than the row.
  ghost predicate Inv(s: State) {
    forall c, k | (c, k) in s.seen ::
      && k in s.rows
      && s.seen[(c, k)].duration == s.rows[k].duration
      && (s.seen[(c, k)].resetAt.Some? <==> s.rows[k].resetAt.Some?)
      && (s.rows[k].resetAt.Some? ==> s.seen[(c, k)].resetAt.value <= s.rows[k].resetAt.value)
  }

  // A successful roll moves the reset time of its row strictly forward, to the first window end
  // after the caller's clock.
  lemma RollAdvances(s: State, a: Action)
    requires Inv(s) && Rolls(s, a)
    ensures var row := s.rows[a.key];
            && a.TryRoll? && Target(s, a).Some?
            && row.duration.Some? && ParseDuration(row.duration.value).Ok? && row.resetAt.Some?
            && Step(s, a).rows[a.key] == row.(spend := 0.0, alertedAt := None, resetAt := Target(s, a))
            && IsFirstEnd(ParseDuration(row.duration.value).value, row.resetAt.value, a.now, Target(s, a).value)
            && row.resetAt.value < Target(s, a).value
  {
    hide LapsedWindowNextReset, IsFirstEnd, ParseDuration;
    var view := s.seen[(a.caller, a.key)];
    LapsedRollsToFirstEnd(view.duration, view.resetAt, a.now);
  }

  // A caller whose view is current and lapsed rolls the row.
  lemma CurrentViewRolls(s: State, c: int, k: EntityKey, now: int)
    requires k in s.rows && (c, k) in s.seen && s.seen[(c, k)] == s.rows[k]
    requires LapsedWindowNextReset(s.rows[k].duration, s.rows[k].resetAt, now).Some?
    ensures Rolls(s, TryRoll(c, k, now))
    ensures Step(s, TryRoll(c, k, now)) == s.(rows := s.rows[k := s.rows[k].(
              spend := 0.0, alertedAt := None, resetAt := LapsedWindowNextReset(s.rows[k].duration, s.rows[k].resetAt, now))])
  {
    hide LapsedWindowNextReset;
  }

  // No action adds or removes a row, changes its configuration, or touches its reset time but a roll.
  lemma StepFrame(s: State, a: Action, k: EntityKey)
    ensures Step(s, a).rows.Keys == s.rows.Keys
    ensures k in s.rows ==>
              && Step(s, a).rows[k].maxBudget == s.rows[k].maxBudget
              && Step(s, a).rows[k].softBudget == s.rows[k].softBudget
              && Step(s, a).rows[k].duration == s.rows[k].duration
              && (!(Rolls(s, a) && a.key == k) ==> Step(s, a).rows[k].resetAt == s.rows[k].resetAt)
  {
    hide LapsedWindowNextReset;
  }

  // A read records the row as it is under the caller, and nothing else touches what callers have read.
  lemma StepSeen(s: State, a: Action)
    ensures Step(s, a).seen == if a.Read? && a.key in s.rows then s.seen[(a.caller, a.key) := s.rows[a.key]] else s.seen
  {
    hide LapsedWindowNextReset;
  }

  lemma StepInv(s: State, a: Action)
    requires Inv(s)
    ensures Inv(Step(s, a))
  {
    hide LapsedWindowNextReset;
    if Rolls(s, a) {
      RollAdvances(s, a);
    }
  }

  lemma {:induction false} ExecInv(s: State, acts: seq<Action>)
    requires Inv(s)
    ensures Inv(Exec(s, acts)) && Exec(s, acts).rows.Keys == s.rows.Keys
  {
    hide Step, Inv;
    if acts != [] {
      ExecInv(s, acts[..|acts| - 1]);
      StepInv(Exec(s, acts[..|acts| - 1]), acts[|acts| - 1]);
      StepFrame(Exec(s, acts[..|acts| - 1]), acts[|acts| - 1], acts[|acts| - 1].key);
    }
  }

  // The reset times rolled away on row `k` along a run, and what each was replaced with.
  function RollLog(s: State, acts: seq<Action>, k: EntityKey): seq<(int, int)>
    requires Inv(s)
  {
    if acts == [] then []
    else
      var (before, a) := (Exec(s, acts[..|acts| - 1]), acts[|acts| - 1]);
      var log := RollLog(s, acts[..|acts| - 1], k);
      ExecInv(s, acts[..|acts| - 1]);
      if Rolls(before, a) && a.key == k then
        RollAdvances(before, a);
        log + [(before.rows[k].resetAt.value, Target(before, a).value)]
      else log
  }

  // Each entry starts where the one before it ended, so every reset time is rolled away at most once
  // and the reset time strictly grows.
  ghost predicate Chain(log: seq<(int, int)>) {
    && (forall i | 0 <= i < |log| :: log[i].0 < log[i].1)
    && (forall i, j | 0 <= i < j < |log| :: log[i].1 <= log[j].0)
    && (forall i | 0 < i < |log| :: log[i - 1].1 == log[i].0)
  }

  lemma {:induction false} RollsFormChain(s: State, acts: seq<Action>, k: EntityKey)
    requires Inv(s) && k in s.rows
    ensures k in Exec(s, acts).rows
    ensures var log := RollLog(s, acts, k);
            && Chain(log)
            && (log == [] ==> Exec(s, acts).rows[k].resetAt == s.rows[k].resetAt)
            && (log != [] ==> && s.rows[k].resetAt == Some(log[0].0)
                              && Exec(s, acts).rows[k].resetAt == Some(log[|log| - 1].1))
  {
    hide LapsedWindowNextReset, IsFirstEnd, ParseDuration, Inv, Step, Rolls, Target;
    if acts != [] {
      var (pre, a) := (acts[..|acts| - 1], acts[|acts| - 1]);
      RollsFormChain(s, pre, k);
      ExecInv(s, pre);
      StepFrame(Exec(s, pre), a, k);
      if Rolls(Exec(s, pre), a) {
        RollAdvances(Exec(s, pre), a);
      }
    }
  }

  // No ABA: once the reset time has moved past a value, no roll that expects that value ever succeeds.
  lemma {:induction false} StaleNeverRolls(s: State, acts: seq<Action>, k: EntityKey, expected: int)
    requires Inv(s) && k in s.rows && s.rows[k].resetAt.Some? && expected < s.rows[k].resetAt.value
    ensures k in Exec(s, acts).rows && Exec(s, acts).rows[k].resetAt.Some?
    ensures Exec(s, acts).rows[k].resetAt.value > expected
    ensures !CanRoll(Exec(s, acts).rows, k, Some(expected))
  {
    hide LapsedWindowNextReset, Inv, Step, RollLog;
    RollsFormChain(s, acts, k);
  }

  // ---- Window anchoring ----------------------------------------------------

  lemma {:induction false} IterateAdd(w: BudgetWindow, at: int, j: nat, k: nat)
    ensures Iterate(w, Iterate(w, at, j), k) == Iterate(w, at, j + k)
  {
    hide After;
    if k > 0 {
      IterateAdd(w, at, j, k - 1);
    }
  }

  ghost predicate OnGrid(w: BudgetWindow, setAt: int, resetAt: int, atLeast: nat) {
    exists k: nat :: k >= atLeast && k >= 1 && resetAt == Iterate(w, setAt, k)
  }

  lemma FirstEndOnGrid(w: BudgetWindow, setAt: int, at: int, now: int, r: int, n: nat)
    requires OnGrid(w, setAt, at, n) && IsFirstEnd(w, at, now, r) && at < r
    ensures OnGrid(w, setAt, r, n + 1)
  {
    hide After;
    var j: nat :| j >= n && j >= 1 && at == Iterate(w, setAt, j);
    var k: nat :| FirstEndAt(w, at, now, k) && r == Iterate(w, at, k);
    IterateAdd(w, setAt, j, k);
    assert k >= 1;
  }

  // Whatever the callers' clocks, the reset time stays a whole number of windows after the moment the
  // budget was set, at least one more for each roll.
  lemma {:induction false} ResetStaysOnGrid(s: State, acts: seq<Action>, k: EntityKey, setAt: int)
    requires Inv(s) && k in s.rows && s.rows[k].duration.Some?
    requires InitialResetAt(s.rows[k].duration, setAt) == Ok(s.rows[k].resetAt)
    ensures k in Exec(s, acts).rows
    ensures var row := Exec(s, acts).rows[k];
            && row.duration == s.rows[k].duration && row.resetAt.Some?
            && OnGrid(ParseDuration(row.duration.value).value, setAt, row.resetAt.value, |RollLog(s, acts, k)| + 1)
            && (RollLog(s, acts, k) == [] ==> row.resetAt.value == Iterate(ParseDuration(row.duration.value).value, setAt, 1))
  {
    hide LapsedWindowNextReset, IsFirstEnd, ParseDuration, Inv, Step, Rolls, Target, After;
    var w := ParseDuration(s.rows[k].duration.value).value;
    InitialResetIsFirstEnd(s.rows[k].duration, setAt);
    if acts == [] {
    } else {
      hide OnGrid;
      var (pre, a) := (acts[..|acts| - 1], acts[|acts| - 1]);
      ResetStaysOnGrid(s, pre, k, setAt);
      ExecInv(s, pre);
      var before := Exec(s, pre);
      StepFrame(before, a, k);
      if Rolls(before, a) && a.key == k {
        RollAdvances(before, a);
        FirstEndOnGrid(w, setAt, before.rows[k].resetAt.value, a.now, Target(before, a).value, |RollLog(s, pre, k)| + 1);
      }
    }
  }

  // The clock of the last successful roll of row `k`, or `setAt`.
  function LastClock(s: State, acts: seq<Action>, k: EntityKey, setAt: int): int {
    if acts == [] then setAt
    else
      var (before, a) := (Exec(s, acts[..|acts| - 1]), acts[|acts| - 1]);
      if Rolls(before, a) && a.key == k then a.now else LastClock(s, acts[..|acts| - 1], k, setAt)
  }

  lemma FirstEndsCompose(w: BudgetWindow, setAt: int, clock: int, at: int, now: int, r: int)
    requires Regular(w) && IsFirstEnd(w, setAt, clock, at) && IsFirstEnd(w, at, now, r) && at < r
    ensures IsFirstEnd(w, setAt, now, r)
  {
    hide After, Regular;
    var j: nat :| FirstEndAt(w, setAt, clock, j) && at == Iterate(w, setAt, j);
    var k: nat :| FirstEndAt(w, at, now, k) && r == Iterate(w, at, k);
    IterateAdd(w, setAt, j, k);
    assert Iterate(w, at, 0) <= now;
    forall i: nat | i < j + k
      ensures Iterate(w, setAt, i) <= now
    {
      if i < j {
        IterateIncreases(w, setAt, i, j);
      } else {
        IterateAdd(w, setAt, j, i - j);
      }
    }
    assert FirstEndAt(w, setAt, now, j + k);
  }

  // The reset time always is the first window end, counted from the moment the budget was set, after the
  // clock of the last roll: how many rolls led there, and from which stale views, does not matter.
  lemma {:induction false} ResetIsFirstEnd(s: State, acts: seq<Action>, k: EntityKey, setAt: int)
    requires Inv(s) && k in s.rows && s.rows[k].duration.Some?
    requires InitialResetAt(s.rows[k].duration, setAt) == Ok(s.rows[k].resetAt)
    ensures k in Exec(s, acts).rows
    ensures var row := Exec(s, acts).rows[k];
            && row.duration == s.rows[k].duration && row.resetAt.Some?
            && IsFirstEnd(ParseDuration(row.duration.value).value, setAt, LastClock(s, acts, k, setAt), row.resetAt.value)
  {
    hide LapsedWindowNextReset, IsFirstEnd, ParseDuration, Inv, Step, Rolls, Target, Regular;
    InitialResetIsFirstEnd(s.rows[k].duration, setAt);
    if acts != [] {
      var (pre, a) := (acts[..|acts| - 1], acts[|acts| - 1]);
      ResetIsFirstEnd(s, pre, k, setAt);
      ExecInv(s, pre);
      var before := Exec(s, pre);
      StepFrame(before, a, k);
      if Rolls(before, a) && a.key == k {
        RollAdvances(before, a);
        ParsedIsRegular(s.rows[k].duration.value);
        FirstEndsCompose(ParseDuration(s.rows[k].duration.value).value, setAt, LastClock(s, pre, k, setAt),
                         before.rows[k].resetAt.value, a.now, Target(before, a).value);
      }
    }
  }

  // For a fixed length the grid is the set time plus k * length.
  lemma FixedGrid(d: int, setAt: int, resetAt: int, n: nat)
    ensures OnGrid(Fixed(d), setAt, resetAt, n) <==> exists k: nat :: k >= n && k >= 1 && resetAt == setAt + k * d
  {
    forall k: nat ensures Iterate(Fixed(d), setAt, k) == setAt + k * d { IterateFixed(d, setAt, k); }
    hide Iterate;
    if OnGrid(Fixed(d), setAt, resetAt, n) {
      var k: nat :| k >= n && k >= 1 && resetAt == Iterate(Fixed(d), setAt, k);
      assert resetAt == setAt + k * d;
    }
    if exists k: nat :: k >= n && k >= 1 && resetAt == setAt + k * d {
      var k: nat :| k >= n && k >= 1 && resetAt == setAt + k * d;
      assert resetAt == Iterate(Fixed(d), setAt, k);
    }
  }

  // ---- Spend and alerts ----------------------------------------------------

  // What the callers of a run are told about row `k`, in order.
  datatype Event = NewWindow | Added(amount: real) | AlertRecorded

  function EventOf(s: State, a: Action, k: EntityKey): seq<Event> {
    if a.key != k || k !in s.rows then []
    else
      match a
      case Read(_, _) => []
      case TryRoll(_, _, _) => if Rolls(s, a) then [NewWindow] else []
      case Reserve(_, amount) => if CanReserve(s.rows, k, amount) then [Added(amount)] else []
      case Charge(_, delta) => [Added(delta)]
      case Alert(_, _) => if CanAlert(s.rows, k) then [AlertRecorded] else []
  }

  function Events(s: State, acts: seq<Action>, k: EntityKey): seq<Event> {
    if acts == [] then []
    else Events(s, acts[..|acts| - 1], k) + EventOf(Exec(s, acts[..|acts| - 1]), acts[|acts| - 1], k)
  }

  // The part of a history that belongs to the current window.
  function SinceRoll(h: seq<Event>): seq<Event> {
    if h == [] then []
    else if h[|h| - 1] == NewWindow then []
    else SinceRoll(h[..|h| - 1]) + [h[|h| - 1]]
  }

  function Total(h: seq<Event>): real {
    if h == [] then 0.0
    else Total(h[..|h| - 1]) + if h[|h| - 1].Added? then h[|h| - 1].amount else 0.0
  }

  function AlertCount(h: seq<Event>): nat {
    if h == [] then 0
    else AlertCount(h[..|h| - 1]) + if h[|h| - 1].AlertRecorded? then 1 else 0
  }

  // What the current window started from: zero, or the initial row if no window was rolled.
  function Opening(h: seq<Event>, initial: real): real {
    if NewWindow in h then 0.0 else initial
  }

  lemma NoEvents()
    ensures SinceRoll([]) == [] && Total([]) == 0.0 && AlertCount([]) == 0
  {
  }

  lemma AppendEvent(h: seq<Event>, e: Event)
    ensures SinceRoll(h + [e]) == if e == NewWindow then [] else SinceRoll(h) + [e]
    ensures Total(SinceRoll(h) + [e]) == Total(SinceRoll(h)) + if e.Added? then e.amount else 0.0
    ensures AlertCount(SinceRoll(h) + [e]) == AlertCount(SinceRoll(h)) + if e.AlertRecorded? then 1 else 0
  {
    assert (h + [e])[..|h|] == h;
    var t := SinceRoll(h);
    assert (t + [e])[..|t|] == t;
  }

  // What an event says about its row.
  lemma StepEvent(s: State, a: Action, k: EntityKey)
    requires k in s.rows
    ensures k in Step(s, a).rows && |EventOf(s, a, k)| <= 1
    ensures var (row, after, e) := (s.rows[k], Step(s, a).rows[k], EventOf(s, a, k));
            if e == [] then after.spend == row.spend && after.alertedAt == row.alertedAt
            else match e[0]
              case NewWindow => after.spend == 0.0 && after.alertedAt.None?
              case Added(x) => after.spend == row.spend + x && after.alertedAt == row.alertedAt
              case AlertRecorded => a.Alert? && after.spend == row.spend && row.alertedAt.None? && after.alertedAt == Some(a.at)
  {
    hide LapsedWindowNextReset;
  }

  // In every interleaving the spend is exactly what was accepted since the last roll, and at most one
  // alert is recorded in a window, counting one the run may have started with.
  lemma {:induction false} SpendIsConserved(s: State, acts: seq<Action>, k: EntityKey)
    requires Inv(s) && k in s.rows
    ensures k in Exec(s, acts).rows
    ensures var h := Events(s, acts, k);
            var row := Exec(s, acts).rows[k];
            && row.spend == Opening(h, s.rows[k].spend) + Total(SinceRoll(h))
            && AlertCount(SinceRoll(h)) + (if NewWindow !in h && s.rows[k].alertedAt.Some? then 1 else 0)
               == if row.alertedAt.Some? then 1 else 0
  {
    hide LapsedWindowNextReset, Inv, Step, EventOf, SinceRoll, Total, AlertCount;
    NoEvents();
    if acts != [] {
      var (pre, a) := (acts[..|acts| - 1], acts[|acts| - 1]);
      SpendIsConserved(s, pre, k);
      StepEvent(Exec(s, pre), a, k);
      var h := Events(s, pre, k);
      var e := EventOf(Exec(s, pre), a, k);
      if e == [] {
        assert Events(s, acts, k) == h;
      } else {
        assert e == [e[0]];
        AppendEvent(h, e[0]);
      }
    }
  }

  lemma {:induction false} CapStays(s: State, acts: seq<Action>, k: EntityKey)
    requires k in s.rows
    ensures k in Exec(s, acts).rows && Exec(s, acts).rows[k].maxBudget == s.rows[k].maxBudget
  {
    hide Step;
    if acts != [] {
      CapStays(s, acts[..|acts| - 1], k);
      StepFrame(Exec(s, acts[..|acts| - 1]), acts[|acts| - 1], k);
    }
  }

  // After any interleaving a reservation is accepted exactly when the row exists and the amount, on top of
  // everything accepted since the last roll, stays within the cap the row began with.
  lemma ReserveDecidesOnHistory(s: State, acts: seq<Action>, k: EntityKey, amount: real)
    requires Inv(s)
    ensures CanReserve(Exec(s, acts).rows, k, amount) <==>
            && k in s.rows
            && var h := Events(s, acts, k);
               (s.rows[k].maxBudget.Some? ==>
                  Opening(h, s.rows[k].spend) + Total(SinceRoll(h)) + amount <= s.rows[k].maxBudget.value)
  {
    hide Inv, Step, EventOf, SinceRoll, Total, Exec, Events;
    ExecInv(s, acts);
    if k in s.rows {
      SpendIsConserved(s, acts, k);
      CapStays(s, acts, k);
    }
  }

  // A step takes a row over its cap only if it is an unconditional charge that does.
  lemma StepKeepsCap(s: State, a: Action, k: EntityKey)
    requires k in s.rows && s.rows[k].maxBudget.Some? && s.rows[k].maxBudget.value >= 0.0
    requires s.rows[k].spend <= s.rows[k].maxBudget.value
    ensures k in Step(s, a).rows
    ensures Step(s, a).rows[k].spend <= s.rows[k].maxBudget.value <==>
            !(a.Charge? && a.key == k && s.rows[k].spend + a.delta > s.rows[k].maxBudget.value)
  {
    hide LapsedWindowNextReset;
    StepFrame(s, a, k);
  }

  // With charges that only refund, no interleaving takes spend over the hard cap.
  lemma {:induction false} SpendNeverExceedsCap(s: State, acts: seq<Action>, k: EntityKey)
    requires Inv(s) && k in s.rows && s.rows[k].maxBudget.Some? && s.rows[k].maxBudget.value >= 0.0
    requires s.rows[k].spend <= s.rows[k].maxBudget.value
    requires forall i | 0 <= i < |acts| && acts[i].Charge? :: acts[i].delta <= 0.0
    ensures k in Exec(s, acts).rows
    ensures Exec(s, acts).rows[k].maxBudget == s.rows[k].maxBudget
    ensures Exec(s, acts).rows[k].spend <= s.rows[k].maxBudget.value
  {
    hide Inv, Step;
    if acts != [] {
      SpendNeverExceedsCap(s, acts[..|acts| - 1], k);
      StepKeepsCap(Exec(s, acts[..|acts| - 1]), acts[|acts| - 1], k);
      StepFrame(Exec(s, acts[..|acts| - 1]), acts[|acts| - 1], k);
    }
  }
}
