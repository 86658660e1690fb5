/** Which tombstones a vacuum takes: by their stamps, and by the steps that made them. */
module Vacuuming {
  import opened Wrappers
  import opened Extraction
  import opened SymbolKeys
  import opened TemporalGraph
  import opened GraphIngest
  import opened GraphRefinement
  import opened TimeTravel

  // ---------------------------------------------------------------- by the stamps

  /** What is kept is kept as it is; an edge is dropped for its own tombstone or with an end. */
  ghost predicate DropsExactly(g: Graph, after: Graph, nodesGone: iset<NodeId>, ownTombstone: iset<EdgeId>) {
    && (forall id :: id in after.nodes <==> id in g.nodes && id !in nodesGone)
    && (forall id :: id in after.nodes ==> after.nodes[id] == g.nodes[id])
    && (forall e :: e in after.edges <==>
          e in g.edges && e !in ownTombstone && e.src !in nodesGone && e.dst !in nodesGone)
    && (forall e :: e in after.edges ==> after.edges[e] == g.edges[e])
  }

  /** By age: files, symbols and edges that were invalidated at the cutoff or before. */
  lemma VacuumByAge(g: Graph, cutoff: int)
    ensures DropsExactly(g, Vacuum(g, NotAfter(cutoff)),
              iset id: NodeId | id in g.nodes && (id.tag == File || id.tag == Symbol)
                && g.nodes[id].life.invalidSha != None
                && g.nodes[id].life.invalidAt.Some? && g.nodes[id].life.invalidAt.value <= cutoff,
              iset e: EdgeId | e in g.edges && g.edges[e].life.invalidSha != None
                && g.edges[e].life.invalidAt.Some? && g.edges[e].life.invalidAt.value <= cutoff)
  {
  }

  /** By ordinal: those invalidated at a commit up to the given one. */
  lemma VacuumByOrdinal(g: Graph, ord: int)
    ensures DropsExactly(g, Vacuum(g, BeforeOrd(ord)),
              iset id: NodeId | id in g.nodes && (id.tag == File || id.tag == Symbol)
                && g.nodes[id].life.invalidSha != None
                && g.nodes[id].life.invalidOrd.Some? && g.nodes[id].life.invalidOrd.value <= ord,
              iset e: EdgeId | e in g.edges && g.edges[e].life.invalidSha != None
                && g.edges[e].life.invalidOrd.Some? && g.edges[e].life.invalidOrd.value <= ord)
  {
  }

  /** All: no tombstoned file, symbol or edge is left. */
  lemma VacuumOfAll(g: Graph)
    ensures DropsExactly(g, Vacuum(g, DropAll),
              iset id: NodeId | id in g.nodes && (id.tag == File || id.tag == Symbol) &&
                g.nodes[id].life.invalidSha != None,
              iset e: EdgeId | e in g.edges && g.edges[e].life.invalidSha != None)
  {
  }

  // ---------------------------------------------------------------- by the steps

  /** The vacuum reaches back to a deletion at that commit and that time. */
  predicate ReachesBack(policy: Policy, h: Head, now: int) {
    match policy
    case DropAll => true
    case BeforeOrd(ord) => h.ord.Some? && h.ord.value <= ord
    case NotAfter(cutoff) => now <= cutoff
  }

  predicate WorksOn(step: Step, path: string) {
    (step.Reingest? && step.ex.path == path) || (step.Delete? && step.path == path)
  }

  /** The steps leave the file alone, and no vacuum among them reaches back to its deletion. */
  ghost predicate Spares(steps: seq<Step>, h: Head, now: int) {
    forall i :: 0 <= i < |steps| ==> !(steps[i].Collect? && ReachesBack(steps[i].policy, h, now))
  }

  ghost predicate LeavesAlone(steps: seq<Step>, path: string) {
    forall i :: 0 <= i < |steps| ==> !WorksOn(steps[i], path)
  }

  /** The node carries the stamps of a deletion. */
  predicate BuriedAt(g: Graph, id: NodeId, h: Head, now: int) {
    id in g.nodes && g.nodes[id].life.invalidSha == Some(h.sha)
    && g.nodes[id].life.invalidOrd == h.ord && g.nodes[id].life.invalidAt == Some(now)
  }

  lemma VacuumReaches(g: Graph, policy: Policy, id: NodeId, h: Head, now: int)
    requires BuriedAt(g, id, h, now) && (id.tag == File || id.tag == Symbol)
    ensures if ReachesBack(policy, h, now) then id !in Vacuum(g, policy).nodes
      else BuriedAt(Vacuum(g, policy), id, h, now)
  {
  }

  lemma VacuumMakesNothing(g: Graph, policy: Policy, id: NodeId)
    requires id !in g.nodes
    ensures id !in Vacuum(g, policy).nodes
  {
  }

  /** Writing another file does not concern the file's node. */
  lemma OtherFileStays(g: Graph, step: Step, path: string)
    requires !WorksOn(step, path) && !step.Collect?
    ensures Lookup(Apply(g, step).nodes, FileNode(path)) == Lookup(g.nodes, FileNode(path))
  {
    if step.Reingest? {
      var g1 := DeleteFile(g, step.ex.path, Some(step.head), step.now);
      UpsertedFile(g1, step.ex, Some(step.head));
      RowsOfFile(step.ex, path);
      UntouchedItem(Lookup(g1.nodes, FileNode(path)), NodeRowsOf(step.ex), FileNode(path), Some(step.head));
    }
  }

  lemma RunSnoc(steps: seq<Step>, step: Step)
    ensures Run(steps + [step]) == Apply(Run(steps), step)
  {
    assert (steps + [step])[..|steps|] == steps;
  }

  predicate ReachedBy(step: Step, h: Head, now: int) {
    step.Collect? && ReachesBack(step.policy, h, now)
  }

  lemma SparesSnoc(steps: seq<Step>, step: Step, h: Head, now: int)
    ensures Spares(steps + [step], h, now) <==> Spares(steps, h, now) && !ReachedBy(step, h, now)
  {
    var all := steps + [step];
    assert all[|steps|] == step;
    assert forall i :: 0 <= i < |steps| ==> all[i] == steps[i];
  }

  lemma BuriedStep(g: Graph, step: Step, path: string, h: Head, now: int)
    requires !WorksOn(step, path) && BuriedAt(g, FileNode(path), h, now)
    ensures if ReachedBy(step, h, now) then FileNode(path) !in Apply(g, step).nodes
      else BuriedAt(Apply(g, step), FileNode(path), h, now)
  {
    if step.Collect? {
      VacuumReaches(g, step.policy, FileNode(path), h, now);
    } else {
      OtherFileStays(g, step, path);
    }
  }

  lemma AbsentStep(g: Graph, step: Step, path: string)
    requires !WorksOn(step, path) && FileNode(path) !in g.nodes
    ensures FileNode(path) !in Apply(g, step).nodes
  {
    if step.Collect? {
      VacuumMakesNothing(g, step.policy, FileNode(path));
    } else {
      OtherFileStays(g, step, path);
    }
  }

  lemma Extends<T>(a: seq<T>, b: seq<T>, k: nat)
    requires k < |b|
    ensures a + b[..k + 1] == (a + b[..k]) + [b[k]]
  {
  }

  lemma RunOn(before: seq<Step>, later: seq<Step>, k: nat)
    requires k < |later|
    ensures Run(before + later[..k + 1]) == Apply(Run(before + later[..k]), later[k])
  {
    Extends(before, later, k);
    RunSnoc(before + later[..k], later[k]);
  }

  lemma {:induction false} Stays(holds: nat -> bool, m: nat, n: nat)
    requires m <= n && holds(m) && forall k :: m <= k < n && holds(k) ==> holds(k + 1)
    ensures holds(n)
    decreases n - m
  {
    if m < n {
      Stays(holds, m + 1, n);
    }
  }

  lemma SparedStep(before: seq<Step>, path: string, h: Head, now: int, later: seq<Step>, k: nat)
    requires LeavesAlone(later, path) && Spares(later, h, now) && k < |later|
    requires BuriedAt(Run(before + later[..k]), FileNode(path), h, now)
    ensures BuriedAt(Run(before + later[..k + 1]), FileNode(path), h, now)
  {
    FateStep(before, path, h, now, later, k);
  }

  lemma SparedFate(before: seq<Step>, path: string, h: Head, now: int, later: seq<Step>)
    requires BuriedAt(Run(before), FileNode(path), h, now) && LeavesAlone(later, path) && Spares(later, h, now)
    ensures BuriedAt(Run(before + later), FileNode(path), h, now)
  {
    var there := (k: nat) => k <= |later| && BuriedAt(Run(before + later[..k]), FileNode(path), h, now);
    forall k | 0 <= k < |later| && there(k)
      ensures there(k + 1)
    {
      SparedStep(before, path, h, now, later, k);
    }
    assert before + later[..0] == before && before + later[..|later|] == before + later;
    Stays(there, 0, |later|);
  }

  lemma OneOfOn(before: seq<Step>, path: string, h: Head, now: int, later: seq<Step>, k: nat)
    requires k < |later| && !WorksOn(later[k], path) && OneOf(Run(before + later[..k]), path, h, now)
    ensures OneOf(Run(before + later[..k + 1]), path, h, now)
  {
    FateStep(before, path, h, now, later, k);
  }

  lemma BuriedOrGone(before: seq<Step>, path: string, h: Head, now: int, later: seq<Step>)
    requires BuriedAt(Run(before), FileNode(path), h, now) && LeavesAlone(later, path)
    ensures FileNode(path) !in Run(before + later).nodes || BuriedAt(Run(before + later), FileNode(path), h, now)
  {
    var either := (k: nat) => k <= |later| && OneOf(Run(before + later[..k]), path, h, now);
    forall k | 0 <= k < |later| && either(k)
      ensures either(k + 1)
    {
      OneOfOn(before, path, h, now, later, k);
    }
    assert before + later[..0] == before && before + later[..|later|] == before + later;
    Stays(either, 0, |later|);
  }

  predicate OneOf(g: Graph, path: string, h: Head, now: int) {
    FileNode(path) !in g.nodes || BuriedAt(g, FileNode(path), h, now)
  }

  lemma ReachedFate(before: seq<Step>, path: string, h: Head, now: int, later: seq<Step>, i: nat)
    requires BuriedAt(Run(before), FileNode(path), h, now) && LeavesAlone(later, path)
    requires i < |later| && ReachedBy(later[i], h, now)
    ensures FileNode(path) !in Run(before + later).nodes
  {
    BuriedOrGone(before, path, h, now, later[..i]);
    FateStep(before, path, h, now, later, i);
    Rejoined(before, later, i + 1);
    NeverMade(before + later[..i + 1], path, later[i + 1..]);
  }

  lemma Rejoined<T>(a: seq<T>, b: seq<T>, k: nat)
    requires k <= |b|
    ensures (a + b[..k]) + b[k..] == a + b
  {
  }

  lemma BuriedFileFate(before: seq<Step>, path: string, h: Head, now: int, later: seq<Step>)
    requires BuriedAt(Run(before), FileNode(path), h, now) && LeavesAlone(later, path)
    ensures if Spares(later, h, now) then BuriedAt(Run(before + later), FileNode(path), h, now)
      else FileNode(path) !in Run(before + later).nodes
  {
    if Spares(later, h, now) {
      SparedFate(before, path, h, now, later);
    } else {
      var i :| 0 <= i < |later| && later[i].Collect? && ReachesBack(later[i].policy, h, now);
      ReachedFate(before, path, h, now, later, i);
    }
  }

  lemma FateStep(before: seq<Step>, path: string, h: Head, now: int, later: seq<Step>, k: nat)
    requires k < |later| && !WorksOn(later[k], path)
    ensures BuriedAt(Run(before + later[..k]), FileNode(path), h, now) ==>
      if ReachedBy(later[k], h, now) then FileNode(path) !in Run(before + later[..k + 1]).nodes
      else BuriedAt(Run(before + later[..k + 1]), FileNode(path), h, now)
    ensures FileNode(path) !in Run(before + later[..k]).nodes ==> FileNode(path) !in Run(before + later[..k + 1]).nodes
  {
    RunOn(before, later, k);
    if BuriedAt(Run(before + later[..k]), FileNode(path), h, now) {
      BuriedStep(Run(before + later[..k]), later[k], path, h, now);
    } else if FileNode(path) !in Run(before + later[..k]).nodes {
      AbsentStep(Run(before + later[..k]), later[k], path);
    }
  }

  /** A deleted file that is not worked on again is still in the graph exactly if it was
      there and no vacuum since has reached back to the deletion. */
  lemma DeletedFileStaysIff(before: seq<Step>, path: string, h: Head, now: int, later: seq<Step>)
    requires LeavesAlone(later, path)
    ensures FileNode(path) in Run(before + [Delete(path, h, now)] + later).nodes <==>
      FileNode(path) in Run(before).nodes && Spares(later, h, now)
  {
    var deleted := before + [Delete(path, h, now)];
    RunSnoc(before, Delete(path, h, now));
    if FileNode(path) in Run(before).nodes {
      assert BuriedAt(Run(deleted), FileNode(path), h, now);
      BuriedFileFate(deleted, path, h, now, later);
    } else {
      NeverMade(deleted, path, later);
    }
  }

  lemma AbsentOn(before: seq<Step>, path: string, later: seq<Step>, k: nat)
    requires k < |later| && !WorksOn(later[k], path) && FileNode(path) !in Run(before + later[..k]).nodes
    ensures FileNode(path) !in Run(before + later[..k + 1]).nodes
  {
    RunOn(before, later, k);
    AbsentStep(Run(before + later[..k]), later[k], path);
  }

  lemma NeverMade(before: seq<Step>, path: string, later: seq<Step>)
    requires FileNode(path) !in Run(before).nodes && LeavesAlone(later, path)
    ensures FileNode(path) !in Run(before + later).nodes
  {
    var absent := (k: nat) => k <= |later| && FileNode(path) !in Run(before + later[..k]).nodes;
    forall k | 0 <= k < |later| && absent(k)
      ensures absent(k + 1)
    {
      AbsentOn(before, path, later, k);
    }
    assert before + later[..0] == before && before + later[..|later|] == before + later;
    Stays(absent, 0, |later|);
  }

  // ---------------------------------------------------------------- the symbols that went with it

  lemma {:induction false} LifeFate(life: Option<Life>, later: seq<Step>, key: string, h: Head, now: int)
    requires LeavesAlone(later, Owner(key))
    requires life.Some? ==>
      life.value.invalidSha == Some(h.sha) && life.value.invalidOrd == h.ord && life.value.invalidAt == Some(now)
    ensures LifeAfter(life, later, key) == if Spares(later, h, now) then life else None
  {
    if later != [] {
      var n := |later| - 1;
      LifeFate(life, later[..n], key, h, now);
      assert later == later[..n] + [later[n]];
      SparesSnoc(later[..n], later[n], h, now);
      assert !WorksOn(later[n], Owner(key));
    }
  }

  /** The same for each symbol of the file: deleted with it, or missing from what the file
      was reingested with. */
  lemma DroppedSymbolStaysIff(before: seq<Step>, step: Step, key: string, h: Head, now: int, later: seq<Step>)
    requires FileScoped(key) && GoodRun(before + [step] + later) && LeavesAlone(later, Owner(key))
    requires
      || step == Delete(Owner(key), h, now)
      || (step.Reingest? && step.ex.path == Owner(key) && step.head == h && step.now == now && !Declares(step.ex, key))
    ensures SymbolNode(key) in Run(before + [step] + later).nodes <==>
      SymbolNode(key) in Run(before).nodes && Spares(later, h, now)
  {
    var steps := before + [step] + later;
    assert steps == before + ([step] + later);
    assert forall i :: 0 <= i < |before| ==> before[i] == steps[i];
    LifeOfRun(steps, key);
    LifeOfRun(before, key);
    LifeAfterAppend(None, before + [step], later, key);
    assert (before + [step])[..|before|] == before;
    LifeFate(LifeAfter(None, before + [step], key), later, key, h, now);
  }
}
