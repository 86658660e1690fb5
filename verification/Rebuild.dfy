/** A full rebuild beside the live index: shadow stores, promotion, and a crash
    or an exception after any step. */
module Rebuild {
  import opened Wrappers

  /** A vector collection or a graph: key -> payload. */
  type Content = map<string, string>

  /** What one full ingest sees: the commit, the batches of vector points, the graph
      rows in walk order, and what the resolver makes of the finished graph. */
  datatype World = World(root: string, sha: Option<string>, batches: seq<Content>, rows: seq<(string, string)>,
                         resolve: Content -> Content)

  /** `None` is a store that does not exist. */
  datatype Stores = Stores(
    liveVec: Option<Content>, shadowVec: Option<Content>,
    liveGraph: Option<Content>, shadowGraph: Option<Content>,
    checkpoints: map<string, string>)

  /** Where a rebuild is: each phase names the step that comes next. */
  datatype Phase =
    | Idle
    | DropOldVec | MakeVec | DropOldGraph | ClearRow
    | Walk(done: nat, flushed: set<nat>)
    | Scroll | Recreate(staged: seq<(string, string)>) | CopyPoints(staged: seq<(string, string)>, next: nat) | DropVec
    | ResolveShadow | DeleteLive | CopyGraph | DropGraph | Record

  /** `vecRouted` and `graphRouted`: writes of this process go to the shadow. */
  datatype State = State(stores: Stores, phase: Phase, w: World, vecRouted: bool, graphRouted: bool)

  datatype Event =
    | Start(w: World)
    | Advance
    | Flush(batch: nat)
    | ScrollAll(staged: seq<(string, string)>)
    | Fail
    | Crash

  const SWAP_BATCH := 256

  // ---------------------------------------------------------------- contents

  function Listed(points: seq<(string, string)>): Content {
    if points == [] then map[]
    else Listed(points[..|points| - 1])[points[|points| - 1].0 := points[|points| - 1].1]
  }

  /** The points of the first `n` batches that are in `flushed`. */
  function Union(batches: seq<Content>, flushed: set<nat>, n: nat): Content
    requires n <= |batches|
  {
    if n == 0 then map[]
    else
      var before := Union(batches, flushed, n - 1);
      if n - 1 in flushed then before + batches[n - 1] else before
  }

  function Upto(n: nat): (s: set<nat>)
    ensures forall i: nat :: i in s <==> i < n
  {
    if n == 0 then {} else Upto(n - 1) + {n - 1}
  }

  function All(w: World): set<nat> {
    Upto(|w.batches|)
  }

  function VecOf(w: World): Content {
    Union(w.batches, All(w), |w.batches|)
  }

  function GraphOf(w: World): Content {
    w.resolve(Listed(w.rows))
  }

  /** Batches that run concurrently never disagree about a point. */
  ghost predicate Agree(batches: seq<Content>) {
    forall i, j, k :: 0 <= i < |batches| && 0 <= j < |batches| && k in batches[i] && k in batches[j] ==>
      batches[i][k] == batches[j][k]
  }

  lemma {:induction false} UnionAt(batches: seq<Content>, flushed: set<nat>, n: nat, k: string)
    requires n <= |batches| && Agree(batches)
    ensures k in Union(batches, flushed, n) <==> exists i :: 0 <= i < n && i in flushed && k in batches[i]
    ensures forall i :: 0 <= i < n && i in flushed && k in batches[i] ==> Union(batches, flushed, n)[k] == batches[i][k]
  {
    if n > 0 {
      UnionAt(batches, flushed, n - 1, k);
    }
  }

  /** Batches may land in any order. */
  lemma UnionGrows(batches: seq<Content>, flushed: set<nat>, b: nat)
    requires b < |batches| && Agree(batches)
    ensures Union(batches, flushed, |batches|) + batches[b] == Union(batches, flushed + {b}, |batches|)
  {
    var n := |batches|;
    forall k
      ensures k in Union(batches, flushed, n) + batches[b] <==> k in Union(batches, flushed + {b}, n)
      ensures k in Union(batches, flushed + {b}, n) ==>
        (Union(batches, flushed, n) + batches[b])[k] == Union(batches, flushed + {b}, n)[k]
    {
      UnionAt(batches, flushed, n, k);
      UnionAt(batches, flushed + {b}, n, k);
    }
  }

  // ---------------------------------------------------------------- one step

  function Min(a: nat, b: nat): nat {
    if a < b then a else b
  }

  function Filled(store: Option<Content>, more: Content): Option<Content> {
    Some(store.GetOr(map[]) + more)
  }

  function Next(s: State, e: Event): State {
    var st := s.stores;
    match e
    case Start(w) => if s.phase.Idle? then s.(phase := DropOldVec, w := w) else s
    case Fail => s.(phase := Idle)
    case Crash => State(st, Idle, s.w, false, false)
    case Flush(b) =>
      if s.phase.Walk? && b < |s.w.batches|
      then s.(stores := st.(shadowVec := Filled(st.shadowVec, s.w.batches[b])),
              phase := Walk(s.phase.done, s.phase.flushed + {b}))
      else s
    case ScrollAll(staged) =>
      if s.phase.Scroll? && Some(Listed(staged)) == st.shadowVec then s.(phase := Recreate(staged)) else s
    case Advance => Advanced(s)
  }

  function Advanced(s: State): State {
    var st := s.stores;
    match s.phase
    case Idle => s
    case DropOldVec => s.(stores := st.(shadowVec := None), phase := MakeVec)
    case MakeVec => s.(stores := st.(shadowVec := Some(map[])), phase := DropOldGraph, vecRouted := true)
    case DropOldGraph => s.(stores := st.(shadowGraph := Some(map[])), phase := ClearRow, graphRouted := true)
    case ClearRow => s.(stores := st.(checkpoints := st.checkpoints - {s.w.root}), phase := Walk(0, {}))
    case Walk(done, flushed) =>
      if done < |s.w.rows|
      then s.(stores := st.(shadowGraph := Filled(st.shadowGraph, map[s.w.rows[done].0 := s.w.rows[done].1])),
              phase := Walk(done + 1, flushed))
      else if All(s.w) <= flushed then s.(phase := Scroll) else s
    case Scroll => s
    case Recreate(staged) => s.(stores := st.(liveVec := Some(map[])), phase := CopyPoints(staged, 0))
    case CopyPoints(staged, next) =>
      if next < |staged|
      then
        var end := Min(next + SWAP_BATCH, |staged|);
        s.(stores := st.(liveVec := Filled(st.liveVec, Listed(staged[next..end]))), phase := CopyPoints(staged, end))
      else s.(phase := DropVec)
    case DropVec => s.(stores := st.(shadowVec := None), phase := ResolveShadow, vecRouted := false)
    case ResolveShadow => s.(stores := st.(shadowGraph := Some(s.w.resolve(st.shadowGraph.GetOr(map[])))),
                             phase := DeleteLive)
    case DeleteLive => s.(stores := st.(liveGraph := None), phase := CopyGraph)
    case CopyGraph => s.(stores := st.(liveGraph := st.shadowGraph), phase := DropGraph)
    case DropGraph => s.(stores := st.(shadowGraph := None), phase := Record, graphRouted := false)
    case Record =>
      s.(stores := if s.w.sha.Some? then st.(checkpoints := st.checkpoints[s.w.root := s.w.sha.value])
         else st, phase := Idle)
  }

  // ---------------------------------------------------------------- what every run keeps

  /** What the stores hold in each phase of a rebuild of `w`. */
  ghost predicate InPhase(s: State) {
    var st, w := s.stores, s.w;
    match s.phase
    case Idle => true
    case DropOldVec => true
    case MakeVec => true
    case DropOldGraph => st.shadowVec == Some(map[])
    case ClearRow => st.shadowVec == Some(map[]) && st.shadowGraph == Some(map[])
    case Walk(done, flushed) =>
      && done <= |w.rows|
      && st.shadowVec == Some(Union(w.batches, flushed, |w.batches|)) && st.shadowGraph == Some(Listed(w.rows[..done]))
    case Scroll => st.shadowVec == Some(VecOf(w)) && st.shadowGraph == Some(Listed(w.rows))
    case Recreate(staged) =>
      st.shadowVec == Some(VecOf(w)) && Listed(staged) == VecOf(w) && st.shadowGraph == Some(Listed(w.rows))
    case CopyPoints(staged, next) =>
      && st.shadowVec == Some(VecOf(w)) && Listed(staged) == VecOf(w) && st.shadowGraph == Some(Listed(w.rows))
      && next <= |staged| && st.liveVec == Some(Listed(staged[..next]))
    case DropVec => st.liveVec == Some(VecOf(w)) && st.shadowVec == Some(VecOf(w)) &&
      st.shadowGraph == Some(Listed(w.rows))
    case ResolveShadow => st.liveVec == Some(VecOf(w)) && st.shadowGraph == Some(Listed(w.rows))
    case DeleteLive => st.liveVec == Some(VecOf(w)) && st.shadowGraph == Some(GraphOf(w))
    case CopyGraph => st.liveVec == Some(VecOf(w)) && st.shadowGraph == Some(GraphOf(w)) && st.liveGraph == None
    case DropGraph => IsIndexOf(st, w) && st.shadowGraph == Some(GraphOf(w))
    case Record => IsIndexOf(st, w)
  }

  /** Both live stores are exactly those of the completed ingest. */
  ghost predicate IsIndexOf(st: Stores, w: World) {
    st.liveVec == Some(VecOf(w)) && st.liveGraph == Some(GraphOf(w))
  }

  /** Has the row been cleared and not been set again? */
  predicate RowCleared(p: Phase) {
    !(p.Idle? || p.DropOldVec? || p.MakeVec? || p.DropOldGraph? || p.ClearRow?)
  }

  ghost predicate Recorded(s: State, root: string, last: Option<World>) {
    root in s.stores.checkpoints ==>
      last.Some? && last.value.sha == Some(s.stores.checkpoints[root]) && IsIndexOf(s.stores, last.value)
  }

  ghost predicate Inv(s: State, root: string, last: Option<World>) {
    && InPhase(s) && Agree(s.w.batches) && Recorded(s, root, last)
    && (!s.phase.Idle? ==> s.w.root == root)
    && (RowCleared(s.phase) ==> root !in s.stores.checkpoints)
  }

  /** The completed ingest that a checkpoint row would name. */
  ghost function LastAfter(s: State, e: Event, last: Option<World>): Option<World> {
    if e.Advance? && s.phase.Record? then Some(s.w) else last
  }

  lemma WalkKeeps(s: State)
    requires s.phase.Walk? && InPhase(s)
    ensures InPhase(Advanced(s))
  {
    var w, done := s.w, s.phase.done;
    if done < |w.rows| {
      assert w.rows[..done + 1][..done] == w.rows[..done];
      assert Listed(w.rows[..done]) + map[w.rows[done].0 := w.rows[done].1] == Listed(w.rows[..done + 1]);
    } else if All(w) <= s.phase.flushed {
      assert w.rows[..done] == w.rows;
      UnionOfAll(w.batches, s.phase.flushed, All(w), |w.batches|);
    }
  }

  lemma {:induction false} UnionOfAll(batches: seq<Content>, a: set<nat>, b: set<nat>, n: nat)
    requires n <= |batches| && forall i :: 0 <= i < n ==> i in a && i in b
    ensures Union(batches, a, n) == Union(batches, b, n)
  {
    if n > 0 {
      UnionOfAll(batches, a, b, n - 1);
    }
  }

  lemma {:induction false} ListedAppend(a: seq<(string, string)>, b: seq<(string, string)>)
    ensures Listed(a + b) == Listed(a) + Listed(b)
  {
    if b == [] {
      assert a + b == a;
    } else {
      assert (a + b)[..|a + b| - 1] == a + b[..|b| - 1];
      ListedAppend(a, b[..|b| - 1]);
    }
  }

  lemma CopyKeeps(s: State)
    requires s.phase.CopyPoints? && InPhase(s)
    ensures InPhase(Advanced(s))
  {
    var staged, next := s.phase.staged, s.phase.next;
    if next < |staged| {
      var end := Min(next + SWAP_BATCH, |staged|);
      ListedAppend(staged[..next], staged[next..end]);
      assert staged[..end] == staged[..next] + staged[next..end];
    } else {
      assert staged[..next] == staged;
    }
  }

  lemma AdvanceKeepsPhase(s: State)
    requires InPhase(s)
    ensures InPhase(Advanced(s))
  {
    if s.phase.Walk? {
      WalkKeeps(s);
    } else if s.phase.CopyPoints? {
      CopyKeeps(s);
    } else if s.phase.ClearRow? {
      NothingFlushed(s.w.batches, |s.w.batches|);
      assert s.w.rows[..0] == [];
    } else if s.phase.Recreate? {
      assert s.phase.staged[..0] == [];
    }
  }

  lemma {:induction false} NothingFlushed(batches: seq<Content>, n: nat)
    requires n <= |batches|
    ensures Union(batches, {}, n) == map[]
  {
    if n > 0 {
      NothingFlushed(batches, n - 1);
    }
  }

  lemma NextKeepsPhase(s: State, e: Event)
    requires InPhase(s) && Agree(s.w.batches)
    ensures InPhase(Next(s, e))
  {
    match e
    case Advance => AdvanceKeepsPhase(s);
    case Flush(b) =>
      if s.phase.Walk? && b < |s.w.batches| {
        UnionGrows(s.w.batches, s.phase.flushed, b);
      }
    case _ =>
  }

  lemma StepKeepsRow(s: State, e: Event, root: string, last: Option<World>)
    requires InPhase(s) && Recorded(s, root, last)
    requires (!s.phase.Idle? ==> s.w.root == root) && (RowCleared(s.phase) ==> root !in s.stores.checkpoints)
    requires e.Start? ==> e.w.root == root
    ensures Recorded(Next(s, e), root, LastAfter(s, e, last))
    ensures RowCleared(Next(s, e).phase) ==> root !in Next(s, e).stores.checkpoints
  {
  }

  lemma StepKeeps(s: State, e: Event, root: string, last: Option<World>)
    requires Inv(s, root, last)
    requires e.Start? ==> e.w.root == root && Agree(e.w.batches)
    ensures Inv(Next(s, e), root, LastAfter(s, e, last))
  {
    NextKeepsPhase(s, e);
    StepKeepsRow(s, e, root, last);
  }

  function Run(s: State, events: seq<Event>): State {
    if events == [] then s else Next(Run(s, events[..|events| - 1]), events[|events| - 1])
  }

  ghost function LastOf(s: State, events: seq<Event>, last: Option<World>): Option<World> {
    if events == [] then last
    else
      var init := events[..|events| - 1];
      LastAfter(Run(s, init), events[|events| - 1], LastOf(s, init, last))
  }

  /** The rebuilds of the run are all of one root, each with consistent batches. */
  ghost predicate OneRoot(events: seq<Event>, root: string) {
    forall i :: 0 <= i < |events| && events[i].Start? ==> events[i].w.root == root && Agree(events[i].w.batches)
  }

  lemma {:induction false} RunKeeps(s: State, events: seq<Event>, root: string, last: Option<World>)
    requires Inv(s, root, last) && OneRoot(events, root)
    ensures Inv(Run(s, events), root, LastOf(s, events, last))
  {
    if events != [] {
      var init := events[..|events| - 1];
      RunKeeps(s, init, root, last);
      StepKeeps(Run(s, init), events[|events| - 1], root, LastOf(s, init, last));
    }
  }

  /** Over any sequence of rebuilds that crash or fail after any step, a checkpoint
      row means that both live stores are exactly those of the ingest it names. */
  lemma CheckpointMeansComplete(s: State, events: seq<Event>, root: string)
    requires s.phase.Idle? && root !in s.stores.checkpoints && Agree(s.w.batches) && OneRoot(events, root)
    ensures
      var t := Run(s, events);
      root in t.stores.checkpoints ==>
        var last := LastOf(s, events, None);
        last.Some? && last.value.sha == Some(t.stores.checkpoints[root]) && IsIndexOf(t.stores, last.value)
  {
    RunKeeps(s, events, root, None);
  }

  // ---------------------------------------------------------------- one rebuild over a complete index

  /** Of each store, the live or the shadow copy is complete. */
  ghost predicate VecSurvives(st: Stores, before: World, w: World) {
    st.liveVec == Some(VecOf(before)) || st.liveVec == Some(VecOf(w)) || st.shadowVec == Some(VecOf(w))
  }

  ghost predicate GraphSurvives(st: Stores, before: World, w: World) {
    st.liveGraph == Some(GraphOf(before)) || st.liveGraph == Some(GraphOf(w)) || st.shadowGraph == Some(GraphOf(w))
  }

  predicate VecPromoted(p: Phase) {
    p.DropVec? || p.ResolveShadow? || p.DeleteLive? || p.CopyGraph? || p.DropGraph? || p.Record?
  }

  /** What the live collection holds while one rebuild runs over the complete index of `before`. */
  ghost predicate DuringVec(s: State, before: World) {
    && VecSurvives(s.stores, before, s.w)
    && (!s.phase.Idle? && !s.phase.CopyPoints? && !VecPromoted(s.phase) ==> s.stores.liveVec == Some(VecOf(before)))
  }

  ghost predicate DuringGraph(s: State, before: World) {
    && GraphSurvives(s.stores, before, s.w)
    && (!s.phase.Idle? && !s.phase.CopyGraph? && !s.phase.DropGraph? && !s.phase.Record? ==>
        s.stores.liveGraph == Some(GraphOf(before)))
  }

  ghost predicate During(s: State, before: World) {
    InPhase(s) && Agree(s.w.batches) && DuringVec(s, before) && DuringGraph(s, before)
  }

  lemma AdvanceKeepsVec(s: State, before: World)
    requires InPhase(s) && InPhase(Advanced(s)) && DuringVec(s, before)
    ensures DuringVec(Advanced(s), before)
  {
  }

  lemma AdvanceKeepsGraph(s: State, before: World)
    requires InPhase(s) && InPhase(Advanced(s)) && DuringGraph(s, before)
    ensures DuringGraph(Advanced(s), before)
  {
  }

  lemma DuringStep(s: State, e: Event, before: World)
    requires During(s, before) && !e.Start?
    ensures During(Next(s, e), before)
  {
    NextKeepsPhase(s, e);
    if e.Advance? {
      AdvanceKeepsVec(s, before);
      AdvanceKeepsGraph(s, before);
    }
  }

  /** From a complete index, at every step of a rebuild, crash and failure included,
      each store still has a complete copy, live or shadow. */
  lemma {:induction false} AlwaysACompleteCopy(s: State, w: World, events: seq<Event>, before: World)
    requires s.phase.Idle? && IsIndexOf(s.stores, before) && Agree(w.batches)
    requires forall i :: 0 <= i < |events| ==> !events[i].Start?
    ensures
      var t := Run(Next(s, Start(w)), events);
      During(t, before) && t.w == w && VecSurvives(t.stores, before, w) && GraphSurvives(t.stores, before, w)
  {
    if events != [] {
      var init := events[..|events| - 1];
      AlwaysACompleteCopy(s, w, init, before);
      DuringStep(Run(Next(s, Start(w)), init), events[|events| - 1], before);
    }
  }

  // ---------------------------------------------------------------- the rebuild after a crash

  /** A crash, and the next rebuild up to its clearing of both shadows. */
  function Restarted(s: State, again: World): State {
    Advanced(Advanced(Advanced(Next(Next(s, Crash), Start(again)))))
  }

  lemma RestartedIs(s: State, again: World)
    ensures
      var t := Restarted(s, again);
      && t.stores == s.stores.(shadowVec := Some(map[]), shadowGraph := Some(map[])) && t.phase.ClearRow? &&
        t.w == again
  {
  }

  lemma ListedHasLast(points: seq<(string, string)>)
    ensures points != [] ==> Listed(points) != map[]
  {
    if points != [] {
      assert points[|points| - 1].0 in Listed(points);
    }
  }

  /** A rebuild was running when the crash came. The next one drops the shadows, and a
      complete vector copy is left exactly unless the crash hit the copying of points
      at a moment when the copied ones were neither the old nor the new index. */
  lemma RestartKeepsVectorsIff(s: State, before: World, again: World)
    requires During(s, before) && !s.phase.Idle?
    ensures !VecSurvives(Restarted(s, again).stores, before, s.w) <==>
      && s.phase.CopyPoints? && Listed(s.phase.staged[..s.phase.next]) != VecOf(before) &&
        Listed(s.phase.staged[..s.phase.next]) != VecOf(s.w)
  {
    RestartedIs(s, again);
    if s.phase.CopyPoints? && VecOf(s.w) == map[] {
      ListedHasLast(s.phase.staged);
    }
  }

  /** And a complete graph is left exactly unless the crash came between the deletion of
      the live graph and the copying of a shadow that was not empty. */
  lemma RestartKeepsGraphIff(s: State, before: World, again: World)
    requires During(s, before) && !s.phase.Idle?
    ensures !GraphSurvives(Restarted(s, again).stores, before, s.w) <==> s.phase.CopyGraph? && GraphOf(s.w) != map[]
  {
    RestartedIs(s, again);
  }

  lemma {:induction false} RunFront(s: State, e: Event, events: seq<Event>)
    ensures Run(s, [e] + events) == Run(Next(s, e), events)
  {
    if events == [] {
      assert [e] + events == [e] && [e][..0] == [];
      assert Run(s, [e]) == Next(Run(s, [e][..0]), e);
    } else {
      assert ([e] + events)[..|events|] == [e] + events[..|events| - 1];
      RunFront(s, e, events[..|events| - 1]);
    }
  }

  lemma RunOn(s: State, a: seq<Event>, e: Event)
    ensures Run(s, a + [e]) == Next(Run(s, a), e)
  {
    assert (a + [e])[..|a|] == a;
  }

  /** A world of one point and one graph row. */
  function Tiny(root: string): World {
    World(root, None, [map["p" := "v"]], [("k", "v")], (c: Content) => c)
  }

  lemma TinyIs(root: string)
    ensures Agree(Tiny(root).batches) && VecOf(Tiny(root)) == map["p" := "v"] && GraphOf(Tiny(root)) == map["k" := "v"]
    ensures VecOf(Tiny(root)) != map[] && GraphOf(Tiny(root)) != map[]
  {
    var w := Tiny(root);
    assert All(w) == {0};
    assert Union(w.batches, All(w), 0) == map[];
    assert Union(w.batches, All(w), 1) == map["p" := "v"];
    assert w.rows[..0] == [] && Listed(w.rows[..0]) == map[];
    assert Listed(w.rows) == map["k" := "v"];
    assert "p" in VecOf(w) && "k" in GraphOf(w);
  }

  function TinyPoints(): seq<(string, string)> {
    [("p", "v")]
  }

  /** Its rebuild up to the emptied live collection. */
  function TinyStart(): seq<Event> {
    [Advance, Advance, Advance, Advance, Advance, Flush(0), Advance, ScrollAll(TinyPoints()), Advance]
  }

  function TinyWalked(s: State, w: World): State {
    var a := Advanced(Advanced(Advanced(Advanced(Advanced(Next(s, Start(w)))))));
    Advanced(Next(a, Flush(0)))
  }

  lemma TinyScrolls(s: State, root: string)
    requires s.phase.Idle?
    ensures
      var t := TinyWalked(s, Tiny(root));
      t.phase == Scroll && t.w == Tiny(root) && t.stores.shadowVec == Some(map["p" := "v"])
  {
    var w := Tiny(root);
    var t1 := Advanced(Advanced(Advanced(Advanced(Next(s, Start(w))))));
    assert t1.phase == Walk(0, {}) && t1.w == w && t1.stores.shadowVec == Some(map[]);
    var t2 := Next(Advanced(t1), Flush(0));
    assert t2.phase == Walk(1, {0}) && t2.stores.shadowVec == Filled(Some(map[]), map["p" := "v"]);
    assert map[] + map["p" := "v"] == map["p" := "v"];
    assert All(w) == {0};
  }

  lemma TinyRun(s: State, w: World)
    ensures Run(Next(s, Start(w)), TinyStart()) == Advanced(Next(TinyWalked(s, w), ScrollAll(TinyPoints())))
  {
    var a := Next(s, Start(w));
    RunFive(a);
    var five := [Advance, Advance, Advance, Advance, Advance];
    RunOn(a, five, Flush(0));
    RunOn(a, five + [Flush(0)], Advance);
    RunOn(a, five + [Flush(0)] + [Advance], ScrollAll(TinyPoints()));
    RunOn(a, five + [Flush(0)] + [Advance] + [ScrollAll(TinyPoints())], Advance);
    assert TinyStart() == five + [Flush(0)] + [Advance] + [ScrollAll(TinyPoints())] + [Advance];
  }

  lemma RunFive(a: State)
    ensures Run(a, [Advance, Advance, Advance, Advance, Advance]) == Advanced(Advanced(Advanced(Advanced(Advanced(a)))))
  {
    RunOn(a, [], Advance);
    RunOn(a, [] + [Advance], Advance);
    RunOn(a, [] + [Advance] + [Advance], Advance);
    RunOn(a, [] + [Advance] + [Advance] + [Advance], Advance);
    RunOn(a, [] + [Advance] + [Advance] + [Advance] + [Advance], Advance);
    assert [Advance, Advance, Advance, Advance, Advance] == [] + [Advance] + [Advance] + [Advance] + [Advance] +
      [Advance];
  }

  lemma TinyReaches(s: State, root: string)
    requires s.phase.Idle?
    ensures
      var t := Run(Next(s, Start(Tiny(root))), TinyStart());
      t.phase == CopyPoints(TinyPoints(), 0) && t.w == Tiny(root)
  {
    TinyRun(s, Tiny(root));
    TinyScrolls(s, root);
    assert TinyPoints()[..0] == [] && Listed(TinyPoints()[..0]) == map[];
    assert Listed(TinyPoints()) == map["p" := "v"];
  }

  lemma NothingCopied(before: World, w: World)
    requires VecOf(before) != map[] && VecOf(w) != map[]
    ensures Listed(TinyPoints()[..0]) != VecOf(before) && Listed(TinyPoints()[..0]) != VecOf(w)
  {
    assert TinyPoints()[..0] == [];
  }

  /** The vectors of any other index can be lost: this rebuild, stopped here, and the next one. */
  lemma VectorsCanBeLost(s: State, root: string, before: World, again: World)
    requires s.phase.Idle? && IsIndexOf(s.stores, before) && VecOf(before) != map[]
    ensures
      var t := Run(Next(s, Start(Tiny(root))), TinyStart());
      During(t, before) && !VecSurvives(Restarted(t, again).stores, before, t.w)
  {
    TinyIs(root);
    AlwaysACompleteCopy(s, Tiny(root), TinyStart(), before);
    TinyReaches(s, root);
    NothingCopied(before, Tiny(root));
    RestartKeepsVectorsIff(Run(Next(s, Start(Tiny(root))), TinyStart()), before, again);
  }

  /** And so can the graph, five steps on. */
  lemma GraphCanBeLost(s: State, root: string, before: World, again: World)
    requires s.phase.Idle? && IsIndexOf(s.stores, before)
    ensures
      var t := Run(Run(Next(s, Start(Tiny(root))), TinyStart()), [Advance, Advance, Advance, Advance, Advance]);
      During(t, before) && !GraphSurvives(Restarted(t, again).stores, before, t.w)
  {
    TinyIs(root);
    AlwaysACompleteCopy(s, Tiny(root), TinyStart(), before);
    TinyReaches(s, root);
    LostFiveOn(Run(Next(s, Start(Tiny(root))), TinyStart()), root, before, again);
  }

  lemma LostFiveOn(u: State, root: string, before: World, again: World)
    requires During(u, before) && u.phase == CopyPoints(TinyPoints(), 0) && u.w == Tiny(root)
    ensures
      var t := Run(u, [Advance, Advance, Advance, Advance, Advance]);
      During(t, before) && !GraphSurvives(Restarted(t, again).stores, before, t.w)
  {
    RunFive(u);
    FiveMore(u, before);
    LostAtCopy(Run(u, [Advance, Advance, Advance, Advance, Advance]), root, before, again);
  }

  lemma LostAtCopy(t: State, root: string, before: World, again: World)
    requires During(t, before) && t.phase == CopyGraph && t.w == Tiny(root)
    ensures !GraphSurvives(Restarted(t, again).stores, before, t.w)
  {
    TinyIs(root);
    RestartKeepsGraphIff(t, before, again);
  }

  lemma FiveMore(u: State, before: World)
    requires During(u, before) && u.phase == CopyPoints(TinyPoints(), 0)
    ensures
      var t := Advanced(Advanced(Advanced(Advanced(Advanced(u)))));
      t.phase == CopyGraph && t.w == u.w && During(t, before)
  {
    DuringStep(u, Advance, before);
    DuringStep(Advanced(u), Advance, before);
    DuringStep(Advanced(Advanced(u)), Advance, before);
    DuringStep(Advanced(Advanced(Advanced(u))), Advance, before);
    DuringStep(Advanced(Advanced(Advanced(Advanced(u)))), Advance, before);
  }

  // ---------------------------------------------------------------- routing after a failure

  /** Is the shadow graph, is the shadow collection in use? */
  predicate GraphShadowed(p: Phase) {
    !(p.Idle? || p.DropOldVec? || p.MakeVec? || p.DropOldGraph? || p.Record?)
  }

  predicate VecShadowed(p: Phase) {
    p.DropOldGraph? || p.ClearRow? || p.Walk? || p.Scroll? || p.Recreate? || p.CopyPoints? || p.DropVec?
  }

  lemma {:induction false} RoutedDuring(s: State, w: World, events: seq<Event>)
    requires s.phase.Idle? && !s.graphRouted && !s.vecRouted
    requires forall i :: 0 <= i < |events| ==> !events[i].Start? && !events[i].Fail?
    ensures
      var t := Run(Next(s, Start(w)), events);
      (t.graphRouted <==> GraphShadowed(t.phase)) && (t.vecRouted <==> VecShadowed(t.phase))
  {
    if events != [] {
      RoutedDuring(s, w, events[..|events| - 1]);
    }
  }

  function Dropped(store: Option<Content>, key: string): Option<Content> {
    if store.Some? then Some(store.value - {key}) else None
  }

  /** A save hook reingests one key: it is deleted from the live graph and the live
      collection, and written to the ones that the process routes to. */
  function Reingested(s: State, key: string, value: string): State {
    var without := s.stores.(liveGraph := Dropped(s.stores.liveGraph, key), liveVec := Dropped(s.stores.liveVec, key));
    var graphed :=
      if s.graphRouted then without.(shadowGraph := Filled(without.shadowGraph, map[key := value]))
      else without.(liveGraph := Filled(without.liveGraph, map[key := value]));
    s.(stores :=
      if s.vecRouted then graphed.(shadowVec := Filled(graphed.shadowVec, map[key := value]))
      else graphed.(liveVec := Filled(graphed.liveVec, map[key := value])))
  }

  predicate Holds(store: Option<Content>, key: string, value: string) {
    store.Some? && key in store.value && store.value[key] == value
  }

  predicate Lacks(store: Option<Content>, key: string) {
    store.Some? ==> key !in store.value
  }

  lemma ReingestReaches(s: State, key: string, value: string)
    ensures
      var st := Reingested(s, key, value).stores;
      && (if s.graphRouted then Lacks(st.liveGraph, key) else Holds(st.liveGraph, key, value))
      && (if s.vecRouted then Lacks(st.liveVec, key) else Holds(st.liveVec, key, value))
  {
  }

  /** If a rebuild ends with an exception in a process that lives on, a later reingest
      reaches each live store exactly when its shadow was not in use at that moment,
      and otherwise takes the key out of it: with the live collection already promoted
      and the graph not, the two part. A restart repairs the routing of both. */
  lemma FailedRebuildMisroutes(s: State, w: World, events: seq<Event>, key: string, value: string)
    requires s.phase.Idle? && !s.graphRouted && !s.vecRouted
    requires forall i :: 0 <= i < |events| ==> !events[i].Start? && !events[i].Fail?
    ensures
      var t := Run(Next(s, Start(w)), events);
      var failed, restarted := Reingested(Next(t, Fail), key, value).stores,
        Reingested(Next(t, Crash), key, value).stores;
      && (if GraphShadowed(t.phase) then Lacks(failed.liveGraph, key) else Holds(failed.liveGraph, key, value))
      && (if VecShadowed(t.phase) then Lacks(failed.liveVec, key) else Holds(failed.liveVec, key, value))
      && Holds(restarted.liveGraph, key, value) && Holds(restarted.liveVec, key, value)
  {
    RoutedDuring(s, w, events);
    Misrouted(Run(Next(s, Start(w)), events), key, value);
  }

  lemma Misrouted(t: State, key: string, value: string)
    requires (t.graphRouted <==> GraphShadowed(t.phase)) && (t.vecRouted <==> VecShadowed(t.phase))
    ensures
      var failed, restarted := Reingested(Next(t, Fail), key, value).stores,
        Reingested(Next(t, Crash), key, value).stores;
      && (if GraphShadowed(t.phase) then Lacks(failed.liveGraph, key) else Holds(failed.liveGraph, key, value))
      && (if VecShadowed(t.phase) then Lacks(failed.liveVec, key) else Holds(failed.liveVec, key, value))
      && Holds(restarted.liveGraph, key, value) && Holds(restarted.liveVec, key, value)
  {
    ReingestReaches(Next(t, Fail), key, value);
    ReingestReaches(Next(t, Crash), key, value);
  }

  // ---------------------------------------------------------------- the rebuild as it runs through

  class Coordinator {
    var stores: Stores
    var vecRouted: bool
    var graphRouted: bool

    constructor (st: Stores)
      ensures stores == st && !vecRouted && !graphRouted
    {
      stores, vecRouted, graphRouted := st, false, false;
    }

    /** Read all points of the shadow, page by page, in whatever order they come. */
    method ScrollShadow() returns (points: seq<(string, string)>)
      requires stores.shadowVec.Some?
      ensures Listed(points) == stores.shadowVec.value
    {
      points := [];
      var content := stores.shadowVec.value;
      var left := content.Keys;
      while left != {}
        invariant left <= content.Keys
        invariant Listed(points) == content - left
        decreases left
      {
        ghost var before := left;
        var page := 0;
        while left != {} && page < SWAP_BATCH
          invariant left <= before && (if page == 0 then left == before else left != before)
          invariant Listed(points) == content - left
          decreases left
        {
          var k :| k in left;
          assert (points + [(k, content[k])])[..|points|] == points;
          points := points + [(k, content[k])];
          left := left - {k};
          page := page + 1;
        }
      }
    }

    /** The machine's state while this process is at `phase` of a rebuild of `w`. */
    ghost function At(phase: Phase, w: World): State
      reads this
    {
      State(stores, phase, w, vecRouted, graphRouted)
    }

    /** Upsert the points into the emptied live collection, batch by batch. */
    method CopyAll(points: seq<(string, string)>, ghost w: World) returns (ghost events: seq<Event>)
      requires stores.liveVec == Some(map[])
      modifies this
      ensures stores == old(stores).(liveVec := Some(Listed(points)))
      ensures vecRouted == old(vecRouted) && graphRouted == old(graphRouted)
      ensures Run(old(At(CopyPoints(points, 0), w)), events) == At(CopyPoints(points, |points|), w)
    {
      ghost var s := At(CopyPoints(points, 0), w);
      events := [];
      var i := 0;
      while i < |points|
        invariant i <= |points|
        invariant stores == old(stores).(liveVec := Some(Listed(points[..i])))
        invariant vecRouted == old(vecRouted) && graphRouted == old(graphRouted)
        invariant Run(s, events) == At(CopyPoints(points, i), w)
      {
        var end := Min(i + SWAP_BATCH, |points|);
        CopyStep(At(CopyPoints(points, i), w), points, i);
        RunOn(s, events, Advance);
        stores := stores.(liveVec := Filled(stores.liveVec, Listed(points[i..end])));
        events := events + [Advance];
        i := end;
      }
      assert points[..|points|] == points;
    }

    /** Promote the shadow collection: the live one is empty for as long as the copy takes. */
    method CommitShadowCollection(ghost w: World) returns (ghost events: seq<Event>)
      requires stores.shadowVec.Some?
      modifies this
      ensures stores == old(stores).(liveVec := old(stores).shadowVec, shadowVec := None)
      ensures !vecRouted && graphRouted == old(graphRouted)
      ensures Run(old(At(Scroll, w)), events) == At(ResolveShadow, w)
    {
      ghost var s := At(Scroll, w);
      var points := ScrollShadow();
      stores := stores.(liveVec := Some(map[]));
      ghost var emptied := At(CopyPoints(points, 0), w);
      RunTwo(s, ScrollAll(points), Advance);
      ghost var copying := CopyAll(points, w);
      ghost var copied := At(CopyPoints(points, |points|), w);
      stores := stores.(shadowVec := None);
      vecRouted := false;
      RunTwo(copied, Advance, Advance);
      RunThrough(s, [ScrollAll(points), Advance], emptied, copying, copied, [Advance, Advance]);
      events := [ScrollAll(points), Advance] + copying + [Advance, Advance];
    }

    /** Delete the live graph, copy the shadow over it, drop the shadow. */
    method PromoteShadow()
      requires stores.shadowGraph.Some?
      modifies this
      ensures stores == old(stores).(liveGraph := old(stores).shadowGraph, shadowGraph := None)
      ensures vecRouted == old(vecRouted) && graphRouted == old(graphRouted)
    {
      stores := stores.(liveGraph := None);
      stores := stores.(liveGraph := stores.shadowGraph);
      stores := stores.(shadowGraph := None);
    }

    /** Upsert the walk's rows into the shadow graph. */
    method UpsertRows(w: World) returns (ghost events: seq<Event>)
      requires stores.shadowGraph == Some(map[])
      modifies this
      ensures stores == old(stores).(shadowGraph := Some(Listed(w.rows)))
      ensures vecRouted == old(vecRouted) && graphRouted == old(graphRouted)
      ensures Run(old(At(Walk(0, {}), w)), events) == At(Walk(|w.rows|, {}), w)
    {
      ghost var s := At(Walk(0, {}), w);
      events := [];
      for i := 0 to |w.rows|
        invariant stores == old(stores).(shadowGraph := Some(Listed(w.rows[..i])))
        invariant vecRouted == old(vecRouted) && graphRouted == old(graphRouted)
        invariant Run(s, events) == At(Walk(i, {}), w)
      {
        RunOn(s, events, Advance);
        RowStep(At(Walk(i, {}), w), i);
        stores := stores.(shadowGraph := Some(stores.shadowGraph.value[w.rows[i].0 := w.rows[i].1]));
        events := events + [Advance];
      }
      assert w.rows[..|w.rows|] == w.rows;
    }

    /** And its batches into the shadow collection. */
    method FlushBatches(w: World) returns (ghost events: seq<Event>)
      requires Agree(w.batches) && stores.shadowVec == Some(map[])
      modifies this
      ensures stores == old(stores).(shadowVec := Some(Union(w.batches, Upto(|w.batches|), |w.batches|)))
      ensures vecRouted == old(vecRouted) && graphRouted == old(graphRouted)
      ensures Run(old(At(Walk(|w.rows|, {}), w)), events) == At(Walk(|w.rows|, Upto(|w.batches|)), w)
    {
      ghost var s := At(Walk(|w.rows|, {}), w);
      events := [];
      NothingFlushed(w.batches, |w.batches|);
      assert Upto(0) == {};
      for b := 0 to |w.batches|
        invariant stores == old(stores).(shadowVec := Some(Union(w.batches, Upto(b), |w.batches|)))
        invariant vecRouted == old(vecRouted) && graphRouted == old(graphRouted)
        invariant Run(s, events) == At(Walk(|w.rows|, Upto(b)), w)
      {
        RunOn(s, events, Flush(b));
        FlushStep(At(Walk(|w.rows|, Upto(b)), w), b);
        stores := stores.(shadowVec := Filled(stores.shadowVec, w.batches[b]));
        events := events + [Flush(b)];
      }
    }

    method WalkIntoShadows(w: World) returns (ghost events: seq<Event>)
      requires Agree(w.batches) && stores.shadowVec == Some(map[]) && stores.shadowGraph == Some(map[])
      modifies this
      ensures stores == old(stores).(shadowVec := Some(VecOf(w)), shadowGraph := Some(Listed(w.rows)))
      ensures vecRouted == old(vecRouted) && graphRouted == old(graphRouted)
      ensures Run(old(At(Walk(0, {}), w)), events) == At(Scroll, w)
    {
      ghost var s := At(Walk(0, {}), w);
      ghost var rows := UpsertRows(w);
      ghost var flushes := FlushBatches(w);
      RunAppend(s, rows, flushes);
      RunOn(s, rows + flushes, Advance);
      events := rows + flushes + [Advance];
    }

    /** Empty shadows, no row. */
    method Begin(w: World) returns (ghost events: seq<Event>)
      modifies this
      ensures stores == old(stores).(shadowVec := Some(map[]), shadowGraph := Some(map[]),
                                     checkpoints := old(stores.checkpoints) - {w.root})
      ensures vecRouted && graphRouted
      ensures Run(old(At(DropOldVec, w)), events) == At(Walk(0, {}), w)
    {
      ghost var s := At(DropOldVec, w);
      stores := stores.(shadowVec := None);
      stores := stores.(shadowVec := Some(map[]));
      vecRouted := true;
      stores := stores.(shadowGraph := Some(map[]));
      graphRouted := true;
      stores := stores.(checkpoints := stores.checkpoints - {w.root});
      events := Opening(s);
    }

    /** Resolve and promote the graph, record the commit. */
    method End(w: World) returns (ghost events: seq<Event>)
      requires stores.shadowGraph.Some?
      modifies this
      ensures stores == old(stores).(liveGraph := Some(w.resolve(old(stores).shadowGraph.value)), shadowGraph := None,
        checkpoints := if w.sha.Some? then old(stores.checkpoints)[w.root := w.sha.value] else old(stores.checkpoints))
      ensures vecRouted == old(vecRouted) && !graphRouted
      ensures Run(old(At(ResolveShadow, w)), events) == At(Idle, w)
    {
      ghost var s := At(ResolveShadow, w);
      stores := stores.(shadowGraph := Some(w.resolve(stores.shadowGraph.value)));
      PromoteShadow();
      graphRouted := false;
      if w.sha.Some? {
        stores := stores.(checkpoints := stores.checkpoints[w.root := w.sha.value]);
      }
      events := Closing(s);
      ClosedIs(s);
    }

    /** One of the machine's runs, from its start to its record. */
    method IngestFull(w: World) returns (ghost events: seq<Event>)
      requires Agree(w.batches)
      modifies this
      ensures IsIndexOf(stores, w) && stores.shadowVec == None && stores.shadowGraph == None
      ensures stores.checkpoints == if w.sha.Some? then old(stores.checkpoints)[w.root := w.sha.value]
        else old(stores.checkpoints) - {w.root}
      ensures !vecRouted && !graphRouted
      ensures Run(old(At(DropOldVec, w)), events) == At(Idle, w)
    {
      ghost var s := At(DropOldVec, w);
      ghost var opening := Begin(w);
      ghost var begun := At(Walk(0, {}), w);
      ghost var walking := WalkIntoShadows(w);
      ghost var walked := At(Scroll, w);
      ghost var copying := CommitShadowCollection(w);
      RunThrough(s, opening, begun, walking, walked, copying);
      ghost var closing := End(w);
      RunAppend(s, opening + walking + copying, closing);
      events := opening + walking + copying + closing;
    }
  }

  lemma RowStep(t: State, i: nat)
    requires i < |t.w.rows| && t.phase == Walk(i, {}) && t.stores.shadowGraph == Some(Listed(t.w.rows[..i]))
    ensures Listed(t.w.rows[..i + 1]) == Listed(t.w.rows[..i])[t.w.rows[i].0 := t.w.rows[i].1]
    ensures Next(t, Advance) == t.(stores := t.stores.(shadowGraph := Some(Listed(t.w.rows[..i + 1]))),
                                   phase := Walk(i + 1, {}))
  {
    assert t.w.rows[..i + 1][..i] == t.w.rows[..i];
    PutOne(Listed(t.w.rows[..i]), t.w.rows[i].0, t.w.rows[i].1);
  }

  lemma FlushStep(t: State, b: nat)
    requires b < |t.w.batches| && Agree(t.w.batches) && t.phase.Walk? && t.phase.flushed == Upto(b)
    requires t.stores.shadowVec == Some(Union(t.w.batches, Upto(b), |t.w.batches|))
    ensures Filled(t.stores.shadowVec, t.w.batches[b]) == Some(Union(t.w.batches, Upto(b + 1), |t.w.batches|))
    ensures Next(t, Flush(b)) ==
      t.(stores := t.stores.(shadowVec := Some(Union(t.w.batches, Upto(b + 1), |t.w.batches|))),
         phase := Walk(t.phase.done, Upto(b + 1)))
  {
    assert Upto(b + 1) == Upto(b) + {b};
    UnionGrows(t.w.batches, Upto(b), b);
  }

  lemma CopyStep(t: State, points: seq<(string, string)>, i: nat)
    requires i < |points| && t.phase == CopyPoints(points, i) && t.stores.liveVec == Some(Listed(points[..i]))
    ensures
      var end := Min(i + SWAP_BATCH, |points|);
      && Filled(t.stores.liveVec, Listed(points[i..end])) == Some(Listed(points[..end]))
      && Next(t, Advance) == t.(stores := t.stores.(liveVec := Some(Listed(points[..end]))),
                                phase := CopyPoints(points, end))
  {
    var end := Min(i + SWAP_BATCH, |points|);
    ListedAppend(points[..i], points[i..end]);
    assert points[..end] == points[..i] + points[i..end];
  }

  lemma RunThrough(s: State, a: seq<Event>, t: State, b: seq<Event>, u: State, c: seq<Event>)
    requires Run(s, a) == t && Run(t, b) == u
    ensures Run(s, a + b + c) == Run(u, c)
  {
    RunAppend(s, a, b);
    RunAppend(s, a + b, c);
  }

  /** What the last five steps do. */
  lemma ClosedIs(s: State)
    requires s.phase.ResolveShadow? && s.stores.shadowGraph.Some?
    ensures
      var st, w := s.stores, s.w;
      Advanced(Advanced(Advanced(Advanced(Advanced(s))))) == State(
        st.(liveGraph := Some(w.resolve(st.shadowGraph.value)), shadowGraph := None,
            checkpoints := if w.sha.Some? then st.checkpoints[w.root := w.sha.value] else st.checkpoints),
        Idle, w, s.vecRouted, false)
  {
    var t := Advanced(Advanced(s));
    assert t.phase == CopyGraph && t.stores == s.stores.(shadowGraph := Some(s.w.resolve(s.stores.shadowGraph.value)),
                                                         liveGraph := None);
  }

  lemma PutOne(m: Content, k: string, v: string)
    ensures m[k := v] == m + map[k := v]
  {
  }

  lemma RunTwo(s: State, a: Event, b: Event)
    ensures Run(s, [a, b]) == Next(Next(s, a), b)
  {
    RunFront(s, a, [b]);
    RunFront(Next(s, a), b, []);
    assert [a] + [b] == [a, b] && [b] + [] == [b];
  }

  lemma {:induction false} RunAppend(s: State, a: seq<Event>, b: seq<Event>)
    ensures Run(s, a + b) == Run(Run(s, a), b)
  {
    if b == [] {
      assert a + b == a;
    } else {
      assert (a + b)[..|a + b| - 1] == a + b[..|b| - 1];
      RunAppend(s, a, b[..|b| - 1]);
    }
  }

  /** Four steps up to the walk. */
  lemma Opening(s: State) returns (events: seq<Event>)
    ensures Run(s, events) == Advanced(Advanced(Advanced(Advanced(s))))
  {
    RunOn(s, [], Advance);
    RunOn(s, [] + [Advance], Advance);
    RunOn(s, [] + [Advance] + [Advance], Advance);
    RunOn(s, [] + [Advance] + [Advance] + [Advance], Advance);
    events := [] + [Advance] + [Advance] + [Advance] + [Advance];
  }

  /** Five steps from the resolver to the record. */
  lemma Closing(t: State) returns (events: seq<Event>)
    ensures Run(t, events) == Advanced(Advanced(Advanced(Advanced(Advanced(t)))))
  {
    RunFive(t);
    events := [Advance, Advance, Advance, Advance, Advance];
  }
}
