/**
  The playground's fan-out: a bounded pool of workers over a shared cursor into
  the request list, patching result tiles as calls settle.
 */
module FanOut {
  import opened Common

  const MAX_CONCURRENCY: nat := 4

  // A request for one model; `n` is how many images it asks for, one if absent.
  datatype Request = Request(modelId: string, n: Option<nat>)

  datatype Status = Queued | Running | Done | Failed

  datatype Tile = Tile(modelId: string, index: nat, status: Status)

  // A worker at its loop head, waiting for the call of one request, or gone.
  datatype Worker = Ready | InFlight(index: nat) | Exited

  // `dispatched` records the requests sent, in order, and `outcomes` how their calls settled.
  datatype State = State(
    tiles: seq<Tile>, cursor: nat, aborted: bool, workers: seq<Worker>, dispatched: seq<nat>, outcomes: map<nat, bool>)

  // One uninterrupted piece of the program: the event loop runs nothing in between.
  datatype Action = Check(worker: nat) | SettleOk(worker: nat) | SettleErr(worker: nat) | Cancel

  function TilesOf(r: Request): seq<Tile> {
    seq(if r.n.Some? then r.n.value else 1, i requires i >= 0 => Tile(r.modelId, i, Queued))
  }

  function InitialTiles(requests: seq<Request>): seq<Tile> {
    if requests == [] then [] else InitialTiles(requests[..|requests| - 1]) + TilesOf(requests[|requests| - 1])
  }

  function PoolSize(requests: seq<Request>): (n: nat)
    ensures n <= MAX_CONCURRENCY && n <= |requests| && (requests != [] ==> n > 0)
  {
    if |requests| < MAX_CONCURRENCY then |requests| else MAX_CONCURRENCY
  }

  function Init(requests: seq<Request>): State {
    State(InitialTiles(requests), 0, false, seq(PoolSize(requests), _ => Ready), [], map[])
  }

  // Every tile of a model takes a status.
  function Patched(tiles: seq<Tile>, modelId: string, status: Status): seq<Tile> {
    seq(|tiles|, i requires 0 <= i < |tiles| =>
      if tiles[i].modelId == modelId then tiles[i].(status := status) else tiles[i])
  }

  function Cancelled(tiles: seq<Tile>): seq<Tile> {
    seq(|tiles|, i requires 0 <= i < |tiles| =>
      if tiles[i].status.Queued? || tiles[i].status.Running? then tiles[i].(status := Failed) else tiles[i])
  }

  // Whether an action is a step its worker can take.
  predicate Enabled(s: State, a: Action) {
    match a
    case Check(w) => w < |s.workers| && s.workers[w].Ready?
    case SettleOk(w) => w < |s.workers| && s.workers[w].InFlight?
    case SettleErr(w) => w < |s.workers| && s.workers[w].InFlight?
    case Cancel => true
  }

  function Step(requests: seq<Request>, s: State, a: Action): State {
    if !Enabled(s, a) then s
    else match a
      case Check(w) =>
        if s.cursor < |requests| && !s.aborted then
          State(Patched(s.tiles, requests[s.cursor].modelId, Running), s.cursor + 1, false,
                s.workers[w := InFlight(s.cursor)], s.dispatched + [s.cursor], s.outcomes)
        else s.(workers := s.workers[w := Exited])
      case SettleOk(w) =>
        var j := s.workers[w].index;
        s.(workers := s.workers[w := Ready], outcomes := s.outcomes[j := true],
           tiles := if j < |requests| then Patched(s.tiles, requests[j].modelId, Done) else s.tiles)
      case SettleErr(w) =>
        var j := s.workers[w].index;
        if s.aborted then s.(workers := s.workers[w := Exited], outcomes := s.outcomes[j := false])
        else s.(workers := s.workers[w := Ready], outcomes := s.outcomes[j := false],
                tiles := if j < |requests| then Patched(s.tiles, requests[j].modelId, Failed) else s.tiles)
      case Cancel => s.(aborted := true, tiles := Cancelled(s.tiles))
  }

  function Exec(requests: seq<Request>, s: State, acts: seq<Action>): State {
    if acts == [] then s else Step(requests, Exec(requests, s, acts[..|acts| - 1]), acts[|acts| - 1])
  }

  // Every tile stays in its place, and exactly those of the model take the status.
  ghost predicate Takes(before: seq<Tile>, after: seq<Tile>, modelId: string, status: Status) {
    && |after| == |before|
    && forall i | 0 <= i < |before| ::
         && after[i].modelId == before[i].modelId && after[i].index == before[i].index
         && after[i].status == if before[i].modelId == modelId then status else before[i].status
  }

  function Images(r: Request): nat {
    if r.n.Some? then r.n.value else 1
  }

  // How many tiles stand before those of request `j`.
  function TilesBefore(requests: seq<Request>, j: nat): nat
    requires j <= |requests|
  {
    if j == 0 then 0 else TilesBefore(requests, j - 1) + Images(requests[j - 1])
  }

  // The i-th image of request `j` has its tile, queued, after those of the requests and images before it.
  ghost predicate HasTile(tiles: seq<Tile>, requests: seq<Request>, j: nat, i: nat)
    requires j < |requests|
  {
    TilesBefore(requests, j) + i < |tiles| && tiles[TilesBefore(requests, j) + i] == Tile(requests[j].modelId, i, Queued)
  }

  ghost predicate OneTileEach(tiles: seq<Tile>, requests: seq<Request>) {
    && |tiles| == TilesBefore(requests, |requests|)
    && forall j: nat, i: nat | j < |requests| && i < Images(requests[j]) :: HasTile(tiles, requests, j, i)
  }

  lemma {:induction false} TilesBeforeInit(requests: seq<Request>, r: Request, j: nat)
    requires j <= |requests|
    ensures TilesBefore(requests + [r], j) == TilesBefore(requests, j)
  {
    if j > 0 {
      TilesBeforeInit(requests, r, j - 1);
    }
  }

  lemma OneTileNext(tiles: seq<Tile>, requests: seq<Request>, r: Request)
    requires OneTileEach(tiles, requests)
    ensures OneTileEach(tiles + TilesOf(r), requests + [r])
  {
    var both := requests + [r];
    hide TilesBefore;
    LastTiles(both);
    TilesBeforeInit(requests, r, |requests|);
    assert both[|requests|] == r && |TilesOf(r)| == Images(r);
    forall j: nat, i: nat | j < |both| && i < Images(both[j])
      ensures HasTile(tiles + TilesOf(r), both, j, i)
    {
      TilesBeforeInit(requests, r, if j < |requests| then j else |requests|);
      if j < |requests| {
        assert both[j] == requests[j];
        assert HasTile(tiles, requests, j, i);
      } else {
        assert (tiles + TilesOf(r))[|tiles| + i] == TilesOf(r)[i];
      }
    }
  }

  lemma LastTiles(requests: seq<Request>)
    requires requests != []
    ensures TilesBefore(requests, |requests|) == TilesBefore(requests, |requests| - 1) + Images(requests[|requests| - 1])
  {
  }

  lemma NoTiles()
    ensures OneTileEach([], [])
  {
  }

  lemma {:induction false} InitialTilesMeaning(requests: seq<Request>)
    ensures OneTileEach(InitialTiles(requests), requests)
  {
    hide OneTileEach;
    if requests == [] {
      NoTiles();
    } else {
      InitialTilesMeaning(requests[..|requests| - 1]);
      OneTileNext(InitialTiles(requests[..|requests| - 1]), requests[..|requests| - 1], requests[|requests| - 1]);
      assert requests == requests[..|requests| - 1] + [requests[|requests| - 1]];
    }
  }

  class Run {
    const requests: seq<Request>
    var tiles: seq<Tile>
    var cursor: nat
    var aborted: bool
    var workers: seq<Worker>
    ghost var dispatched: seq<nat>
    ghost var outcomes: map<nat, bool>

    ghost function View(): State
      reads this
    {
      State(tiles, cursor, aborted, workers, dispatched, outcomes)
    }

    constructor (requests: seq<Request>)
      ensures this.requests == requests && View() == Init(requests)
      ensures OneTileEach(tiles, requests) && cursor == 0 && !aborted && dispatched == [] && outcomes == map[]
      ensures |workers| == (if |requests| < 4 then |requests| else 4) && forall w | 0 <= w < |workers| :: workers[w] == Ready
    {
      this.requests := requests;
      cursor, aborted, dispatched, outcomes := 0, false, [], map[];
      workers := seq(PoolSize(requests), _ => Ready);
      // One tile per model and image.
      var initial: seq<Tile> := [];
      for k := 0 to |requests|
        invariant initial == InitialTiles(requests[..k])
      {
        var n := if requests[k].n.Some? then requests[k].n.value else 1;
        ghost var before := initial;
        for i := 0 to n
          invariant initial == before + TilesOf(requests[k])[..i]
        {
          initial := initial + [Tile(requests[k].modelId, i, Queued)];
        }
        assert requests[..k + 1][..k] == requests[..k];
        assert TilesOf(requests[k])[..n] == TilesOf(requests[k]);
      }
      assert requests[..|requests|] == requests;
      InitialTilesMeaning(requests);
      tiles := initial;
    }

    method Patch(modelId: string, status: Status)
      modifies this`tiles
      ensures tiles == Patched(old(tiles), modelId, status)
      ensures Takes(old(tiles), tiles, modelId, status)
    {
      var out: seq<Tile> := [];
      for i := 0 to |tiles|
        invariant tiles == old(tiles)
        invariant out == Patched(tiles, modelId, status)[..i]
      {
        out := out + [if tiles[i].modelId == modelId then Tile(tiles[i].modelId, tiles[i].index, status) else tiles[i]];
      }
      tiles := out;
    }

    // The loop head of a worker: take the next request, or leave.
    method CheckLoop(w: nat)
      requires w < |workers| && workers[w].Ready?
      modifies this
      ensures View() == Step(requests, old(View()), Check(w))
      ensures aborted == old(aborted) && outcomes == old(outcomes)
      ensures old(cursor) < |requests| && !aborted ==>
                && cursor == old(cursor) + 1 && workers == old(workers)[w := InFlight(old(cursor))]
                && dispatched == old(dispatched) + [old(cursor)]
                && Takes(old(tiles), tiles, requests[old(cursor)].modelId, Running)
      ensures old(cursor) >= |requests| || aborted ==>
                && cursor == old(cursor) && workers == old(workers)[w := Exited]
                && dispatched == old(dispatched) && tiles == old(tiles)
    {
      if cursor < |requests| && !aborted {
        var j := cursor;
        cursor := cursor + 1;
        workers := workers[w := InFlight(j)];
        dispatched := dispatched + [j];
        Patch(requests[j].modelId, Running);
      } else {
        workers := workers[w := Exited];
      }
    }

    method Resolve(w: nat)
      requires w < |workers| && workers[w].InFlight? && workers[w].index < |requests|
      modifies this
      ensures View() == Step(requests, old(View()), SettleOk(w))
      ensures var j := old(workers)[w].index;
              && workers == old(workers)[w := Ready] && outcomes == old(outcomes)[j := true]
              && Takes(old(tiles), tiles, requests[j].modelId, Done)
      ensures aborted == old(aborted) && cursor == old(cursor) && dispatched == old(dispatched)
    {
      Patch(requests[workers[w].index].modelId, Done);
      outcomes := outcomes[workers[w].index := true];
      workers := workers[w := Ready];
    }

    method Reject(w: nat)
      requires w < |workers| && workers[w].InFlight? && workers[w].index < |requests|
      modifies this
      ensures View() == Step(requests, old(View()), SettleErr(w))
      ensures var j := old(workers)[w].index;
              && outcomes == old(outcomes)[j := false]
              && (aborted ==> workers == old(workers)[w := Exited] && tiles == old(tiles))
              && (!aborted ==> workers == old(workers)[w := Ready] && Takes(old(tiles), tiles, requests[j].modelId, Failed))
      ensures aborted == old(aborted) && cursor == old(cursor) && dispatched == old(dispatched)
    {
      outcomes := outcomes[workers[w].index := false];
      if aborted {
        workers := workers[w := Exited];
        return;
      }
      Patch(requests[workers[w].index].modelId, Failed);
      workers := workers[w := Ready];
    }

    method CancelRun()
      modifies this
      ensures View() == Step(requests, old(View()), Cancel)
      ensures aborted && cursor == old(cursor) && workers == old(workers) && dispatched == old(dispatched) && outcomes == old(outcomes)
      ensures |tiles| == |old(tiles)| && forall i | 0 <= i < |tiles| ::
                && tiles[i].modelId == old(tiles)[i].modelId && tiles[i].index == old(tiles)[i].index
                && tiles[i].status == if old(tiles)[i].status == Done then Done else Failed
    {
      aborted := true;
      tiles := seq(|tiles|, i requires 0 <= i < |tiles| reads this =>
        if tiles[i].status.Queued? || tiles[i].status.Running? then tiles[i].(status := Failed) else tiles[i]);
    }
  }

  // ---- Invariant -----------------------------------------------------------

  predicate Finished(t: Tile) {
    t.status.Done? || t.status.Failed?
  }

  // A request that will still patch its tiles: not yet taken, or in flight.
  ghost predicate Pending(s: State, j: nat) {
    j >= s.cursor || exists w :: 0 <= w < |s.workers| && s.workers[w] == InFlight(j)
  }

  // A tile still to be finished belongs to a request that will finish it.
  ghost predicate Covered(requests: seq<Request>, s: State, t: Tile) {
    Finished(t) || exists j: nat :: j < |requests| && requests[j].modelId == t.modelId && Pending(s, j)
  }

  ghost predicate Inv(requests: seq<Request>, s: State) {
    && |s.workers| == PoolSize(requests)
    && s.cursor <= |requests|
    && s.dispatched == seq(s.cursor, i requires i >= 0 => i)
    && (forall w | 0 <= w < |s.workers| && s.workers[w].InFlight? :: s.workers[w].index < s.cursor)
    && (forall v, w | 0 <= v < w < |s.workers| && s.workers[v].InFlight? && s.workers[w].InFlight? ::
          s.workers[v].index != s.workers[w].index)
    && (!s.aborted && (exists w :: 0 <= w < |s.workers| && s.workers[w].Exited?) ==> s.cursor == |requests|)
    && (s.aborted ==> forall i | 0 <= i < |s.tiles| :: Finished(s.tiles[i]))
    && (forall i | 0 <= i < |s.tiles| :: Covered(requests, s, s.tiles[i]))
  }

  lemma {:induction false} InitialTilesCovered(requests: seq<Request>, i: nat)
    requires i < |InitialTiles(requests)|
    ensures exists j: nat :: j < |requests| && requests[j].modelId == InitialTiles(requests)[i].modelId
  {
    if requests != [] {
      var init := requests[..|requests| - 1];
      if i < |InitialTiles(init)| {
        InitialTilesCovered(init, i);
        var j: nat :| j < |init| && init[j].modelId == InitialTiles(init)[i].modelId;
        assert requests[j] == init[j];
      } else {
        assert InitialTiles(requests)[i] == TilesOf(requests[|requests| - 1])[i - |InitialTiles(init)|];
        assert requests[|requests| - 1].modelId == InitialTiles(requests)[i].modelId;
      }
    }
  }

  lemma InitInv(requests: seq<Request>)
    ensures Inv(requests, Init(requests))
  {
    var s := Init(requests);
    forall i | 0 <= i < |s.tiles|
      ensures Covered(requests, s, s.tiles[i])
    {
      InitialTilesCovered(requests, i);
      var j: nat :| j < |requests| && requests[j].modelId == InitialTiles(requests)[i].modelId;
      assert Pending(s, j);
    }
  }

  // What a step leaves covered: a request still pending afterwards, or a tile it finished.
  lemma StepCovers(requests: seq<Request>, s: State, a: Action, i: nat)
    requires Inv(requests, s) && i < |Step(requests, s, a).tiles|
    ensures Covered(requests, Step(requests, s, a), Step(requests, s, a).tiles[i])
  {
    var s' := Step(requests, s, a);
    assert Covered(requests, s, s.tiles[i]);
    if Enabled(s, a) && !a.Cancel? && !Finished(s'.tiles[i]) {
      var w := a.worker;
      if a.Check? && s'.cursor > s.cursor && s'.tiles[i].modelId == requests[s.cursor].modelId {
        assert s'.workers[w] == InFlight(s.cursor);
        assert Pending(s', s.cursor);
      } else {
        var j: nat :| j < |requests| && requests[j].modelId == s.tiles[i].modelId && Pending(s, j);
        StillPending(requests, s, a, j);
      }
    }
  }

  // A request stays pending unless it is the one that settles.
  lemma StillPending(requests: seq<Request>, s: State, a: Action, j: nat)
    requires Inv(requests, s) && Enabled(s, a) && !a.Cancel? && j < |requests| && Pending(s, j)
    requires a.Check? || s.workers[a.worker] != InFlight(j)
    ensures Pending(Step(requests, s, a), j)
  {
    var s' := Step(requests, s, a);
    var w := a.worker;
    if j >= s.cursor {
      if j < s'.cursor {
        assert s'.workers[w] == InFlight(j);
      }
    } else {
      var v :| 0 <= v < |s.workers| && s.workers[v] == InFlight(j);
      assert v != w;
      assert s'.workers[v] == InFlight(j);
    }
  }

  lemma StepInv(requests: seq<Request>, s: State, a: Action)
    requires Inv(requests, s)
    ensures Inv(requests, Step(requests, s, a))
  {
    var s' := Step(requests, s, a);
    forall i | 0 <= i < |s'.tiles|
      ensures Covered(requests, s', s'.tiles[i])
    {
      StepCovers(requests, s, a, i);
    }
    StepPool(requests, s, a);
    StepExits(requests, s, a);
    StepFinishes(requests, s, a);
  }

  lemma StepPool(requests: seq<Request>, s: State, a: Action)
    requires Inv(requests, s)
    ensures var s' := Step(requests, s, a);
            && |s'.workers| == PoolSize(requests) && s'.cursor <= |requests|
            && s'.dispatched == seq(s'.cursor, i requires i >= 0 => i)
            && (forall w | 0 <= w < |s'.workers| && s'.workers[w].InFlight? :: s'.workers[w].index < s'.cursor)
            && (forall v, w | 0 <= v < w < |s'.workers| && s'.workers[v].InFlight? && s'.workers[w].InFlight? ::
                  s'.workers[v].index != s'.workers[w].index)
  {
    hide Covered, Finished, Patched, Cancelled;
  }

  lemma StepExits(requests: seq<Request>, s: State, a: Action)
    requires Inv(requests, s)
    ensures var s' := Step(requests, s, a);
            !s'.aborted && (exists w :: 0 <= w < |s'.workers| && s'.workers[w].Exited?) ==> s'.cursor == |requests|
  {
    hide Covered, Finished, Patched, Cancelled;
    var s' := Step(requests, s, a);
    if !s'.aborted && exists w :: 0 <= w < |s'.workers| && s'.workers[w].Exited? {
      var w :| 0 <= w < |s'.workers| && s'.workers[w].Exited?;
      assert a.Check? || s.workers[w].Exited?;
    }
  }

  lemma StepFinishes(requests: seq<Request>, s: State, a: Action)
    requires Inv(requests, s)
    ensures var s' := Step(requests, s, a);
            s'.aborted ==> forall i | 0 <= i < |s'.tiles| :: Finished(s'.tiles[i])
  {
    hide Covered;
  }

  lemma {:induction false} ExecInv(requests: seq<Request>, s: State, acts: seq<Action>)
    requires Inv(requests, s)
    ensures Inv(requests, Exec(requests, s, acts))
  {
    hide Inv, Step;
    if acts != [] {
      ExecInv(requests, s, acts[..|acts| - 1]);
      StepInv(requests, Exec(requests, s, acts[..|acts| - 1]), acts[|acts| - 1]);
    }
  }

  function Calls(workers: seq<Worker>): nat {
    if workers == [] then 0
    else Calls(workers[..|workers| - 1]) + if workers[|workers| - 1].InFlight? then 1 else 0
  }

  lemma {:induction false} CallsBounded(workers: seq<Worker>)
    ensures Calls(workers) <= |workers|
  {
    if workers != [] {
      CallsBounded(workers[..|workers| - 1]);
    }
  }

  // The calls in flight, counted worker by worker.
  lemma {:induction false} CallsIsCard(workers: seq<Worker>)
    ensures Calls(workers) == |InFlightSet(workers)|
  {
    if workers != [] {
      var n := |workers| - 1;
      CallsIsCard(workers[..n]);
      var init := InFlightSet(workers[..n]);
      assert InFlightSet(workers) == if workers[n].InFlight? then init + {n} else init;
    }
  }

  function InFlightSet(workers: seq<Worker>): set<nat> {
    set w | 0 <= w < |workers| && workers[w].InFlight?
  }

  // In every schedule, with cancellation at any moment: at most four calls are in flight and never more
  // than there are requests, no two of them for the same request; the requests sent are the first ones,
  // in order, once each; and when every worker has left an uncancelled run, all requests were sent and
  // every tile is done or failed. After a cancellation every tile is finished at once.
  lemma EverySchedule(requests: seq<Request>, acts: seq<Action>)
    ensures var s := Exec(requests, Init(requests), acts);
            && |InFlightSet(s.workers)| <= 4 && |InFlightSet(s.workers)| <= |requests|
            && (forall v, w | 0 <= v < w < |s.workers| && s.workers[v].InFlight? && s.workers[w].InFlight? ::
                  s.workers[v].index != s.workers[w].index)
            && s.dispatched == seq(s.cursor, i requires i >= 0 => i) && s.cursor <= |requests|
            && ((forall w | 0 <= w < |s.workers| :: s.workers[w].Exited?) && !s.aborted ==>
                  s.cursor == |requests| && forall i | 0 <= i < |s.tiles| :: Finished(s.tiles[i]))
            && (s.aborted ==> forall i | 0 <= i < |s.tiles| :: Finished(s.tiles[i]))
  {
    InitInv(requests);
    ExecInv(requests, Init(requests), acts);
    var s := Exec(requests, Init(requests), acts);
    CallsBounded(s.workers);
    CallsIsCard(s.workers);
    if (forall w | 0 <= w < |s.workers| :: s.workers[w].Exited?) && !s.aborted {
      AllExited(requests, s);
    }
  }

  lemma AllExited(requests: seq<Request>, s: State)
    requires Inv(requests, s) && !s.aborted && forall w | 0 <= w < |s.workers| :: s.workers[w].Exited?
    ensures s.cursor == |requests| && forall i | 0 <= i < |s.tiles| :: Finished(s.tiles[i])
  {
    if requests != [] {
      assert s.workers[0].Exited?;
    }
    forall i | 0 <= i < |s.tiles|
      ensures Finished(s.tiles[i])
    {
      assert Covered(requests, s, s.tiles[i]);
    }
  }

  // In every schedule each tile keeps its model and its image.
  lemma {:induction false} TilesKeepPlaces(requests: seq<Request>, s: State, acts: seq<Action>)
    ensures var t := Exec(requests, s, acts);
            |t.tiles| == |s.tiles| && forall i | 0 <= i < |s.tiles| ::
              t.tiles[i].modelId == s.tiles[i].modelId && t.tiles[i].index == s.tiles[i].index
  {
    if acts != [] {
      TilesKeepPlaces(requests, s, acts[..|acts| - 1]);
    }
  }

  // ---- What a tile tells ---------------------------------------------------

  predicate DistinctModels(requests: seq<Request>) {
    forall i, j | 0 <= i < j < |requests| :: requests[i].modelId != requests[j].modelId
  }

  // The status the tiles of request `j` should have.
  function StatusOf(s: State, j: nat): Status {
    if j in s.outcomes then if s.outcomes[j] then Done else Failed
    else if s.aborted then Failed
    else if j >= s.cursor then Queued
    else Running
  }

  ghost predicate Truthful(requests: seq<Request>, s: State) {
    && (forall j | j in s.outcomes :: j < s.cursor)
    && (forall w | 0 <= w < |s.workers| && s.workers[w].InFlight? :: s.workers[w].index !in s.outcomes)
    && (forall i, j | 0 <= i < |s.tiles| && 0 <= j < |requests| && requests[j].modelId == s.tiles[i].modelId ::
          s.tiles[i].status == StatusOf(s, j))
  }

  lemma StepTruthful(requests: seq<Request>, s: State, a: Action)
    requires Inv(requests, s) && DistinctModels(requests) && Truthful(requests, s)
    ensures Truthful(requests, Step(requests, s, a))
  {
    StepOutcomes(requests, s, a);
    hide Inv, Step;
    var s' := Step(requests, s, a);
    forall i, j | 0 <= i < |s'.tiles| && 0 <= j < |requests| && requests[j].modelId == s'.tiles[i].modelId
      ensures s'.tiles[i].status == StatusOf(s', j)
    {
      TileTruthful(requests, s, a, i, j);
    }
  }

  lemma StepOutcomes(requests: seq<Request>, s: State, a: Action)
    requires Inv(requests, s) && Truthful(requests, s)
    ensures var s' := Step(requests, s, a);
            && (forall j | j in s'.outcomes :: j < s'.cursor)
            && (forall w | 0 <= w < |s'.workers| && s'.workers[w].InFlight? :: s'.workers[w].index !in s'.outcomes)
  {
    hide Covered, Patched, Cancelled, StatusOf;
  }

  lemma TileTruthful(requests: seq<Request>, s: State, a: Action, i: nat, j: nat)
    requires Inv(requests, s) && DistinctModels(requests) && Truthful(requests, s)
    requires i < |Step(requests, s, a).tiles| && j < |requests| && requests[j].modelId == Step(requests, s, a).tiles[i].modelId
    ensures Step(requests, s, a).tiles[i].status == StatusOf(Step(requests, s, a), j)
  {
    hide Covered;
    assert s.tiles[i].modelId == Step(requests, s, a).tiles[i].modelId;
    assert s.tiles[i].status == StatusOf(s, j);
    hide Truthful;
  }

  lemma {:induction false} InitialTilesQueued(requests: seq<Request>, i: nat)
    requires i < |InitialTiles(requests)|
    ensures InitialTiles(requests)[i].status == Queued
  {
    if requests != [] {
      var init := requests[..|requests| - 1];
      if i < |InitialTiles(init)| {
        InitialTilesQueued(init, i);
      }
    }
  }

  // When each model is asked once, a tile always tells what became of its request: queued until it is
  // sent, running until its call settles, then done or failed as the call was. A cancellation fails
  // whatever has not settled, and a success that still arrives turns its tiles to done.
  lemma {:induction false} TilesTellOutcomes(requests: seq<Request>, acts: seq<Action>)
    requires DistinctModels(requests)
    ensures Truthful(requests, Exec(requests, Init(requests), acts))
  {
    hide Inv, Step, DistinctModels;
    InitInv(requests);
    if acts == [] {
      forall i | 0 <= i < |InitialTiles(requests)| { InitialTilesQueued(requests, i); }
    } else {
      hide Truthful;
      TilesTellOutcomes(requests, acts[..|acts| - 1]);
      ExecInv(requests, Init(requests), acts[..|acts| - 1]);
      StepTruthful(requests, Exec(requests, Init(requests), acts[..|acts| - 1]), acts[|acts| - 1]);
    }
  }

  // Once cancelled, the cursor never moves again and nothing more is sent.
  lemma {:induction false} CancelFreezes(requests: seq<Request>, s: State, acts: seq<Action>)
    requires s.aborted
    ensures var t := Exec(requests, s, acts);
            t.aborted && t.cursor == s.cursor && t.dispatched == s.dispatched
  {
    if acts != [] {
      CancelFreezes(requests, s, acts[..|acts| - 1]);
    }
  }

  // ---- Termination ---------------------------------------------------------

  function Weight(w: Worker): nat {
    match w
    case Ready => 1
    case InFlight(_) => 2
    case Exited => 0
  }

  function Weights(ws: seq<Worker>): nat {
    if ws == [] then 0 else Weights(ws[..|ws| - 1]) + Weight(ws[|ws| - 1])
  }

  lemma {:induction false} WeightsUpdate(ws: seq<Worker>, i: nat, w: Worker)
    requires i < |ws|
    ensures Weights(ws[i := w]) + Weight(ws[i]) == Weights(ws) + Weight(w)
  {
    var n := |ws| - 1;
    if i < n {
      WeightsUpdate(ws[..n], i, w);
      assert ws[i := w][..n] == ws[..n][i := w];
    } else {
      assert ws[i := w][..n] == ws[..n];
    }
  }

  // The steps workers can still take.
  function Remaining(requests: seq<Request>, s: State): int {
    2 * (|requests| - s.cursor) + Weights(s.workers)
  }

  function WorkerSteps(requests: seq<Request>, s: State, acts: seq<Action>): nat {
    if acts == [] then 0
    else
      var before := Exec(requests, s, acts[..|acts| - 1]);
      var a := acts[|acts| - 1];
      WorkerSteps(requests, s, acts[..|acts| - 1]) + if !a.Cancel? && Enabled(before, a) then 1 else 0
  }

  lemma StepRemaining(requests: seq<Request>, s: State, a: Action)
    requires Inv(requests, s)
    ensures Remaining(requests, Step(requests, s, a)) + (if !a.Cancel? && Enabled(s, a) then 1 else 0) <= Remaining(requests, s)
  {
    hide Covered, Patched, Cancelled, Weights;
    if !a.Cancel? && Enabled(s, a) {
      WeightsUpdate(s.workers, a.worker, Step(requests, s, a).workers[a.worker]);
    }
  }

  lemma {:induction false} StepsBounded(requests: seq<Request>, acts: seq<Action>)
    ensures WorkerSteps(requests, Init(requests), acts) + Remaining(requests, Exec(requests, Init(requests), acts))
            <= 2 * |requests| + PoolSize(requests)
  {
    hide Inv, Step, Enabled, Weights;
    InitInv(requests);
    if acts == [] {
      ReadyWeights(PoolSize(requests));
    } else {
      var pre := acts[..|acts| - 1];
      StepsBounded(requests, pre);
      ExecInv(requests, Init(requests), pre);
      StepRemaining(requests, Exec(requests, Init(requests), pre), acts[|acts| - 1]);
    }
  }

  // No schedule can keep the workers busy for more than two steps a request and one a worker; and as
  // long as one has not left, some step is possible. So if every call settles, the run ends.
  lemma RunEnds(requests: seq<Request>, acts: seq<Action>)
    ensures WorkerSteps(requests, Init(requests), acts) <= 2 * |requests| + PoolSize(requests)
    ensures var s := Exec(requests, Init(requests), acts);
            (exists w :: 0 <= w < |s.workers| && !s.workers[w].Exited?) <==> exists a: Action :: !a.Cancel? && Enabled(s, a)
  {
    StepsBounded(requests, acts);
    InitInv(requests);
    ExecInv(requests, Init(requests), acts);
    var s := Exec(requests, Init(requests), acts);
    assert s.cursor <= |requests|;
    hide Inv, Exec, WorkerSteps;
    if exists w :: 0 <= w < |s.workers| && !s.workers[w].Exited? {
      var w :| 0 <= w < |s.workers| && !s.workers[w].Exited?;
      assert Enabled(s, Check(w)) || Enabled(s, SettleOk(w));
    }
  }

  lemma {:induction false} ReadyWeights(n: nat)
    ensures Weights(seq(n, _ => Ready)) == n
  {
    if n > 0 {
      ReadyWeights(n - 1);
      assert seq(n, _ => Ready)[..n - 1] == seq(n - 1, _ => Ready);
    }
  }
}
