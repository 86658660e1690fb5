/** Several roots of one project: their checkpoints are kept apart, their index is one. */
module RebuildRoots {
  import opened Wrappers
  import opened Rebuild

  /** Which root a key belongs to; nodes that roots share belong to none. */
  type Owner = string -> Option<string>

  /** A step of a rebuild, or a whole incremental ingest of a root: the keys of the paths
      that it touches are deleted, and what it finds at them is written. */
  datatype Step =
    | Of(e: Event)
    | Increment(root: string, sha: string, gone: set<string>, points: Content, rows: Content)

  /** An incremental ingest starts from a checkpoint, between rebuilds. */
  predicate Runs(s: State, step: Step) {
    step.Increment? && s.phase.Idle? && step.root in s.stores.checkpoints
  }

  function Minus(store: Option<Content>, gone: set<string>): Option<Content> {
    if store.Some? then Some(store.value - gone) else None
  }

  /** Deletes in the live stores, upserts where the process routes to. */
  function Incremented(s: State, step: Step): Stores
    requires step.Increment?
  {
    var without := s.stores.(liveVec := Minus(s.stores.liveVec, step.gone),
                             liveGraph := Minus(s.stores.liveGraph, step.gone));
    var written :=
      if s.vecRouted then without.(shadowVec := Filled(without.shadowVec, step.points))
      else without.(liveVec := Filled(without.liveVec, step.points));
    var both :=
      if s.graphRouted then written.(shadowGraph := Filled(written.shadowGraph, step.rows))
      else written.(liveGraph := Filled(written.liveGraph, step.rows));
    both.(checkpoints := both.checkpoints[step.root := step.sha])
  }

  function NextStep(s: State, step: Step): State {
    match step
    case Of(e) => Next(s, e)
    case Increment(_, _, _, _, _) => if Runs(s, step) then s.(stores := Incremented(s, step)) else s
  }

  function RunSteps(s: State, steps: seq<Step>): State {
    if steps == [] then s else NextStep(RunSteps(s, steps[..|steps| - 1]), steps[|steps| - 1])
  }

  // ---------------------------------------------------------------- what a checkpoint row stands for

  /** The commit that a row names, and the contents that its ingests have given the root. */
  datatype Recorded = Recorded(sha: string, vec: Content, graph: Content)

  /** The step completes a rebuild of the root. */
  predicate Records(t: State, step: Step, root: string) {
    step == Of(Advance) && t.phase.Record? && t.w.root == root && t.w.sha.Some?
  }

  ghost function RecordedAfter(t: State, step: Step, root: string, before: Option<Recorded>): Option<Recorded> {
    if Records(t, step, root) then Some(Recorded(t.w.sha.value, VecOf(t.w), GraphOf(t.w)))
    else if Runs(t, step) && step.root == root && before.Some? then
      Some(Recorded(step.sha, before.value.vec - step.gone + step.points, before.value.graph - step.gone + step.rows))
    else before
  }

  ghost function RecordedFor(s: State, steps: seq<Step>, root: string): Option<Recorded> {
    if steps == [] then None
    else
      var init := steps[..|steps| - 1];
      RecordedAfter(RunSteps(s, init), steps[|steps| - 1], root, RecordedFor(s, init, root))
  }

  /** The last step that concerned the point took it out of the live collection: another
      root's rebuild emptied it, or an incremental ingest of a process that still routes
      to the shadow deleted it and wrote it elsewhere. */
  predicate VecLostAfter(t: State, step: Step, root: string, k: string, before: bool) {
    if Records(t, step, root) then false
    else if Runs(t, step) && step.root == root && k in step.gone then t.vecRouted
    else before || (step == Of(Advance) && t.phase.Recreate? && t.w.root != root)
  }

  predicate VecLost(s: State, steps: seq<Step>, root: string, k: string) {
    steps != [] &&
    var init := steps[..|steps| - 1];
    VecLostAfter(RunSteps(s, init), steps[|steps| - 1], root, k, VecLost(s, init, root, k))
  }

  /** The same for the graph, which another root's rebuild deletes only when it promotes its own. */
  predicate GraphLostAfter(t: State, step: Step, root: string, k: string, before: bool) {
    if Records(t, step, root) then false
    else if Runs(t, step) && step.root == root && k in step.gone then t.graphRouted
    else before || (step == Of(Advance) && t.phase.DeleteLive? && t.w.root != root)
  }

  predicate GraphLost(s: State, steps: seq<Step>, root: string, k: string) {
    steps != [] &&
    var init := steps[..|steps| - 1];
    GraphLostAfter(RunSteps(s, init), steps[|steps| - 1], root, k, GraphLost(s, init, root, k))
  }

  // ---------------------------------------------------------------- what the steps may do

  /** Every key belongs to the root, or to none. */
  ghost predicate OwnKeys(owner: Owner, keys: set<string>, root: string) {
    forall k :: k in keys ==> owner(k) == None || owner(k) == Some(root)
  }

  ghost predicate OwnWorld(owner: Owner, w: World) {
    Agree(w.batches) && OwnKeys(owner, VecOf(w).Keys, w.root) && OwnKeys(owner, GraphOf(w).Keys, w.root)
  }

  /** An ingest writes keys of its own root, an incremental one only at paths that it touches. */
  ghost predicate OwnStep(owner: Owner, step: Step) {
    match step
    case Of(e) => e.Start? ==> OwnWorld(owner, e.w)
    case Increment(root, _, gone, points, rows) =>
      OwnKeys(owner, gone, root) && points.Keys <= gone && rows.Keys <= gone
  }

  ghost predicate OwnSteps(owner: Owner, steps: seq<Step>) {
    forall i :: 0 <= i < |steps| ==> OwnStep(owner, steps[i])
  }

  // ---------------------------------------------------------------- key by key

  function At(store: Option<Content>, k: string): Option<string> {
    if store.Some? && k in store.value then Some(store.value[k]) else None
  }

  predicate VecGood(t: State, root: string, k: string, recorded: Option<Recorded>, lost: bool) {
    root in t.stores.checkpoints ==>
      recorded.Some? && At(t.stores.liveVec, k) == if lost then None else At(Some(recorded.value.vec), k)
  }

  predicate GraphGood(t: State, root: string, k: string, recorded: Option<Recorded>, lost: bool) {
    root in t.stores.checkpoints ==>
      recorded.Some? && At(t.stores.liveGraph, k) == if lost then None else At(Some(recorded.value.graph), k)
  }

  predicate RowGood(t: State, root: string, recorded: Option<Recorded>) {
    && (RowCleared(t.phase) ==> t.w.root !in t.stores.checkpoints)
    && (root in t.stores.checkpoints ==> recorded.Some? && recorded.value.sha == t.stores.checkpoints[root])
  }

  ghost predicate Going(owner: Owner, t: State) {
    InPhase(t) && OwnWorld(owner, t.w)
  }

  lemma StepGoes(owner: Owner, t: State, step: Step)
    requires Going(owner, t) && OwnStep(owner, step)
    ensures Going(owner, NextStep(t, step))
  {
    if step.Of? {
      NextKeepsPhase(t, step.e);
    }
  }

  lemma StepKeepsRowGood(t: State, step: Step, root: string, recorded: Option<Recorded>)
    requires RowGood(t, root, recorded)
    ensures RowGood(NextStep(t, step), root, RecordedAfter(t, step, root, recorded))
  {
  }

  lemma {:induction false} ListedWithin(points: seq<(string, string)>, n: nat, k: string)
    requires n <= |points| && k in Listed(points[..n])
    ensures k in Listed(points)
  {
    if n < |points| {
      var m := |points| - 1;
      assert points[..m][..n] == points[..n];
      ListedWithin(points[..m], n, k);
    } else {
      assert points[..n] == points;
    }
  }

  /** While another root's points are copied, the live collection has none of this root's. */
  lemma ForeignCopy(owner: Owner, t: State, root: string, k: string)
    requires Going(owner, t) && owner(k) == Some(root) && t.w.root != root && (t.phase.CopyPoints? || t.phase.DropVec?)
    ensures At(t.stores.liveVec, k) == None
  {
    assert k !in VecOf(t.w);
    if t.phase.CopyPoints? && k in Listed(t.phase.staged[..t.phase.next]) {
      ListedWithin(t.phase.staged, t.phase.next, k);
    }
  }

  /** Outside the copying only its own emptying changes the live collection. */
  lemma VecStaysPut(t: State)
    requires !t.phase.CopyPoints?
    ensures Advanced(t).stores.liveVec == if t.phase.Recreate? then Some(map[]) else t.stores.liveVec
  {
  }

  /** A step of another root's rebuild takes a key away only by emptying the collection. */
  lemma OtherLeavesVec(owner: Owner, t: State, root: string, k: string)
    requires Going(owner, t) && Going(owner, Advanced(t)) && owner(k) == Some(root) && t.w.root != root
    ensures At(Advanced(t).stores.liveVec, k) == if t.phase.Recreate? then None else At(t.stores.liveVec, k)
  {
    if t.phase.CopyPoints? {
      ForeignCopy(owner, t, root, k);
      ForeignCopy(owner, Advanced(t), root, k);
    } else {
      VecStaysPut(t);
    }
  }

  lemma OtherLeavesGraph(owner: Owner, t: State, root: string, k: string)
    requires Going(owner, t) && owner(k) == Some(root) && t.w.root != root
    ensures At(Advanced(t).stores.liveGraph, k) == if t.phase.DeleteLive? then None else At(t.stores.liveGraph, k)
  {
    assert k !in GraphOf(t.w);
  }

  lemma OtherLeavesRow(t: State, root: string)
    requires t.w.root != root
    ensures root in Advanced(t).stores.checkpoints <==> root in t.stores.checkpoints
  {
  }

  /** A step of the root's own rebuild that has a row after it has just set it, or has
      not touched the live stores yet. */
  lemma OwnAdvance(t: State, recorded: Option<Recorded>)
    requires InPhase(t) && RowGood(t, t.w.root, recorded) && t.w.root in Advanced(t).stores.checkpoints
    ensures if Records(t, Of(Advance), t.w.root) then IsIndexOf(Advanced(t).stores, t.w)
      else t.w.root in t.stores.checkpoints && Advanced(t).stores.liveVec == t.stores.liveVec
           && Advanced(t).stores.liveGraph == t.stores.liveGraph && !t.phase.Recreate? && !t.phase.DeleteLive?
  {
  }

  lemma AdvanceKeepsVecGood(owner: Owner, t: State, root: string, k: string, recorded: Option<Recorded>, lost: bool)
    requires Going(owner, t) && Going(owner, Advanced(t)) && owner(k) == Some(root)
    requires RowGood(t, root, recorded) && VecGood(t, root, k, recorded, lost)
    ensures
      var step := Of(Advance);
      VecGood(Advanced(t), root, k, RecordedAfter(t, step, root, recorded), VecLostAfter(t, step, root, k, lost))
  {
    if t.w.root != root {
      OtherLeavesVec(owner, t, root, k);
      OtherLeavesRow(t, root);
    } else if root in Advanced(t).stores.checkpoints {
      OwnAdvance(t, recorded);
    }
  }

  lemma AdvanceKeepsGraphGood(owner: Owner, t: State, root: string, k: string, recorded: Option<Recorded>, lost: bool)
    requires Going(owner, t) && owner(k) == Some(root)
    requires RowGood(t, root, recorded) && GraphGood(t, root, k, recorded, lost)
    ensures
      var step := Of(Advance);
      GraphGood(Advanced(t), root, k, RecordedAfter(t, step, root, recorded), GraphLostAfter(t, step, root, k, lost))
  {
    if t.w.root != root {
      OtherLeavesGraph(owner, t, root, k);
      OtherLeavesRow(t, root);
    } else if root in Advanced(t).stores.checkpoints {
      OwnAdvance(t, recorded);
    }
  }

  lemma IncrementKeepsVecGood(owner: Owner, t: State, step: Step, root: string, k: string, recorded: Option<Recorded>,
                              lost: bool)
    requires step.Increment? && OwnStep(owner, step) && owner(k) == Some(root)
    requires VecGood(t, root, k, recorded, lost)
    ensures VecGood(NextStep(t, step), root, k, RecordedAfter(t, step, root, recorded),
                    VecLostAfter(t, step, root, k, lost))
  {
  }

  lemma IncrementKeepsGraphGood(owner: Owner, t: State, step: Step, root: string, k: string, recorded: Option<Recorded>,
                                lost: bool)
    requires step.Increment? && OwnStep(owner, step) && owner(k) == Some(root)
    requires GraphGood(t, root, k, recorded, lost)
    ensures GraphGood(NextStep(t, step), root, k, RecordedAfter(t, step, root, recorded),
                      GraphLostAfter(t, step, root, k, lost))
  {
  }

  ghost predicate KeyGood(owner: Owner, s: State, steps: seq<Step>, root: string, k: string) {
    var t, recorded := RunSteps(s, steps), RecordedFor(s, steps, root);
    && Going(owner, t) && RowGood(t, root, recorded)
    && VecGood(t, root, k, recorded, VecLost(s, steps, root, k)) &&
      GraphGood(t, root, k, recorded, GraphLost(s, steps, root, k))
  }

  lemma StepKeepsKeyGood(owner: Owner, t: State, step: Step, root: string, k: string, recorded: Option<Recorded>,
                         vecLost: bool, graphLost: bool)
    requires Going(owner, t) && OwnStep(owner, step) && owner(k) == Some(root) && RowGood(t, root, recorded)
    requires VecGood(t, root, k, recorded, vecLost) && GraphGood(t, root, k, recorded, graphLost)
    ensures
      var t', recorded' := NextStep(t, step), RecordedAfter(t, step, root, recorded);
      && VecGood(t', root, k, recorded', VecLostAfter(t, step, root, k, vecLost))
      && GraphGood(t', root, k, recorded', GraphLostAfter(t, step, root, k, graphLost))
  {
    if step.Increment? {
      IncrementKeepsVecGood(owner, t, step, root, k, recorded, vecLost);
      IncrementKeepsGraphGood(owner, t, step, root, k, recorded, graphLost);
    } else if step.e.Advance? {
      StepGoes(owner, t, step);
      AdvanceKeepsVecGood(owner, t, root, k, recorded, vecLost);
      AdvanceKeepsGraphGood(owner, t, root, k, recorded, graphLost);
    }
  }

  lemma {:induction false} RunKeepsKeyGood(owner: Owner, s: State, steps: seq<Step>, root: string, k: string)
    requires s.phase.Idle? && root !in s.stores.checkpoints && OwnWorld(owner, s.w) && OwnSteps(owner, steps)
    requires owner(k) == Some(root)
    ensures KeyGood(owner, s, steps, root, k)
  {
    if steps != [] {
      var init, step := steps[..|steps| - 1], steps[|steps| - 1];
      RunKeepsKeyGood(owner, s, init, root, k);
      var t, recorded := RunSteps(s, init), RecordedFor(s, init, root);
      StepGoes(owner, t, step);
      StepKeepsRowGood(t, step, root, recorded);
      StepKeepsKeyGood(owner, t, step, root, k, recorded, VecLost(s, init, root, k), GraphLost(s, init, root, k));
    }
  }

  lemma {:induction false} RunKeepsRow(s: State, steps: seq<Step>, root: string)
    requires s.phase.Idle? && root !in s.stores.checkpoints
    ensures RowGood(RunSteps(s, steps), root, RecordedFor(s, steps, root))
  {
    if steps != [] {
      var init := steps[..|steps| - 1];
      RunKeepsRow(s, init, root);
      StepKeepsRowGood(RunSteps(s, init), steps[|steps| - 1], root, RecordedFor(s, init, root));
    }
  }

  // ---------------------------------------------------------------- when a row is right

  /** The live stores hold of the root what its row stands for. */
  ghost predicate RightFor(owner: Owner, st: Stores, root: string, recorded: Recorded) {
    forall k :: owner(k) == Some(root) ==>
      At(st.liveVec, k) == At(Some(recorded.vec), k) && At(st.liveGraph, k) == At(Some(recorded.graph), k)
  }

  /** Over any rebuilds of any roots, stopped anywhere, and any incremental ingests
      between them: a recorded root's row names the commit of its last ingest, and it is
      right exactly when nothing of what that ingest left was lost since. */
  lemma RowRightIff(owner: Owner, s: State, steps: seq<Step>, root: string)
    requires s.phase.Idle? && root !in s.stores.checkpoints && OwnWorld(owner, s.w) && OwnSteps(owner, steps)
    requires root in RunSteps(s, steps).stores.checkpoints
    ensures
      var st, recorded := RunSteps(s, steps).stores, RecordedFor(s, steps, root);
      && recorded.Some? && recorded.value.sha == st.checkpoints[root]
      && (RightFor(owner, st, root, recorded.value) <==>
           forall k :: owner(k) == Some(root) ==>
             && (k in recorded.value.vec ==> !VecLost(s, steps, root, k))
             && (k in recorded.value.graph ==> !GraphLost(s, steps, root, k)))
  {
    RunKeepsRow(s, steps, root);
    forall k | owner(k) == Some(root)
      ensures KeyGood(owner, s, steps, root, k)
    {
      RunKeepsKeyGood(owner, s, steps, root, k);
    }
  }

  /** Failures end the process, and all rebuilds are of one root. */
  ghost predicate OneRootSteps(steps: seq<Step>, root: string) {
    forall i :: 0 <= i < |steps| && steps[i].Of? ==>
      !steps[i].e.Fail? && (steps[i].e.Start? ==> steps[i].e.w.root == root)
  }

  /** Then nothing is ever lost. */
  lemma {:induction false} OneRootLosesNothing(s: State, steps: seq<Step>, root: string, k: string)
    requires s.phase.Idle? && s.w.root == root && !s.vecRouted && !s.graphRouted && OneRootSteps(steps, root)
    ensures
      var t := RunSteps(s, steps);
      && t.w.root == root && (t.vecRouted <==> VecShadowed(t.phase)) && (t.graphRouted <==> GraphShadowed(t.phase))
    ensures !VecLost(s, steps, root, k) && !GraphLost(s, steps, root, k)
  {
    if steps != [] {
      OneRootLosesNothing(s, steps[..|steps| - 1], root, k);
    }
  }

  /** So with rebuilds of one root only, interleaved with its incremental ingests, and
      crashes anywhere, its row is always right. */
  lemma OneRootIsRight(owner: Owner, s: State, steps: seq<Step>, root: string)
    requires s.phase.Idle? && root !in s.stores.checkpoints && OwnWorld(owner, s.w) && OwnSteps(owner, steps)
    requires s.w.root == root && !s.vecRouted && !s.graphRouted && OneRootSteps(steps, root)
    requires root in RunSteps(s, steps).stores.checkpoints
    ensures
      var st, recorded := RunSteps(s, steps).stores, RecordedFor(s, steps, root);
      recorded.Some? && recorded.value.sha == st.checkpoints[root] && RightFor(owner, st, root, recorded.value)
  {
    RowRightIff(owner, s, steps, root);
    forall k {
      OneRootLosesNothing(s, steps, root, k);
    }
  }

  // ---------------------------------------------------------------- it does go wrong

  /** A rebuild that ends with an exception after it has made its shadow collection: the
      process goes on, and the root's next incremental ingest records a commit whose
      points the live collection does not have. */
  lemma MisroutedIncrementLeavesWrongRow(owner: Owner, s: State, w: World, root: string, sha: string, gone: set<string>,
                                         points: Content, rows: Content, k: string, before: Recorded)
    requires s.phase.Idle? && root in s.stores.checkpoints
    requires k in points && k in gone && owner(k) == Some(root)
    ensures
      var failed, step := Next(Advanced(Advanced(Next(s, Start(w)))), Fail), Increment(root, sha, gone, points, rows);
      var st, recorded := NextStep(failed, step).stores, RecordedAfter(failed, step, root, Some(before));
      && root in st.checkpoints && st.checkpoints[root] == sha
      && recorded.Some? && recorded.value.sha == sha && !RightFor(owner, st, root, recorded.value)
  {
    var failed, step := Next(Advanced(Advanced(Next(s, Start(w)))), Fail), Increment(root, sha, gone, points, rows);
    assert Runs(failed, step) && failed.vecRouted;
    assert At(NextStep(failed, step).stores.liveVec, k) == None;
    assert At(Some(before.vec - gone + points), k) == Some(points[k]);
  }

  /** A project root without files. */
  function Hollow(root: string): World {
    World(root, None, [], [], (c: Content) => c)
  }

  function HollowRun(w: World): seq<Event> {
    [Start(w), Advance, Advance, Advance, Advance, Advance, ScrollAll([]), Advance, Crash]
  }

  lemma HollowSteps(s: State, root: string)
    requires s.phase.Idle?
    ensures
      var w := Hollow(root);
      var t := Advanced(Next(Advanced(Advanced(Advanced(Advanced(Advanced(Next(s, Start(w))))))), ScrollAll([])));
      t.stores.liveVec == Some(map[]) && t.stores.checkpoints == s.stores.checkpoints - {root}
  {
    var w := Hollow(root);
    var t1 := Advanced(Advanced(Advanced(Advanced(Next(s, Start(w))))));
    assert t1.phase == Walk(0, {}) && t1.w == w && t1.stores.shadowVec == Some(map[]);
    assert All(w) == {};
    assert Advanced(t1).phase == Scroll;
  }

  /** A crash in another root's rebuild leaves this root's row in place over an index
      that no longer holds its points. */
  lemma CrashedOtherRootLeavesWrongRow(owner: Owner, s: State, mine: Recorded, root: string, other: string, k: string)
    requires s.phase.Idle? && other != root && root in s.stores.checkpoints && owner(k) == Some(root) && k in mine.vec
    ensures
      var t := Run(s, HollowRun(Hollow(other)));
      && root in t.stores.checkpoints && t.stores.checkpoints[root] == s.stores.checkpoints[root]
      && !RightFor(owner, t.stores, root, mine)
  {
    HollowUnrolled(s, Hollow(other));
    HollowSteps(s, other);
    assert At(Run(s, HollowRun(Hollow(other))).stores.liveVec, k) == None;
  }

  lemma HollowUnrolled(s: State, w: World)
    ensures Run(s, HollowRun(w)) ==
      Next(Advanced(Next(Advanced(Advanced(Advanced(Advanced(Advanced(Next(s, Start(w))))))), ScrollAll([]))), Crash)
  {
    var five := [Advance, Advance, Advance, Advance, Advance];
    RunFive(Next(s, Start(w)));
    RunFront(s, Start(w), five);
    var a := [Start(w)] + five;
    RunOn(s, a, ScrollAll([]));
    RunOn(s, a + [ScrollAll([])], Advance);
    RunOn(s, a + [ScrollAll([])] + [Advance], Crash);
    assert HollowRun(w) == a + [ScrollAll([])] + [Advance] + [Crash];
  }
}
