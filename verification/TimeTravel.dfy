/** What `at_sha` says about the past, over whole runs. */
module TimeTravel {
  import opened Wrappers
  import opened Extraction
  import opened SymbolKeys
  import opened TemporalGraph
  import opened GraphIngest
  import opened GraphRefinement

  // ---------------------------------------------------------------- one symbol's life

  function LifeIn(g: Graph, key: string): Option<Life> {
    LifeOf(Lookup(g.nodes, SymbolNode(key)))
  }

  function Entombed(life: Option<Life>, h: Head, now: int): Option<Life> {
    if life.Some? then Some(Buried(life.value, h, now)) else None
  }

  /** How one step changes the stamps of one file-scoped symbol. */
  function Next(life: Option<Life>, step: Step, key: string): Option<Life> {
    match step
    case Reingest(ex, h, now) =>
      if ex.path != Owner(key) then life
      else
        var buried := Entombed(life, h, now);
        if Declares(ex, key) then Some(Touch(buried, Some(h))) else buried
    case Delete(path, h, now) =>
      if path != Owner(key) then life else Entombed(life, h, now)
    case Collect(policy) =>
      if life.Some? && Collected(life.value, policy) then None else life
    case SweepLayers(_, _) => life
  }

  function LifeAfter(life: Option<Life>, steps: seq<Step>, key: string): Option<Life> {
    if steps == [] then life
    else Next(LifeAfter(life, steps[..|steps| - 1], key), steps[|steps| - 1], key)
  }

  predicate SameDeath(a: Life, b: Life) {
    a.invalidSha == b.invalidSha && a.invalidOrd == b.invalidOrd && a.invalidAt == b.invalidAt
  }

  /** A symbol node keeps its DEFINES edge, and the two die and are collected together;
      a dead file has taken its symbols with it. */
  ghost predicate Bound(g: Graph, key: string) {
    SymbolNode(key) in g.nodes ==>
      var e, f := DefinesEdge(Owner(key), key), FileNode(Owner(key));
      && e in g.edges && f in g.nodes
      && SameDeath(g.edges[e].life, g.nodes[SymbolNode(key)].life)
      && (!g.nodes[f].life.Live() ==> SameDeath(g.nodes[f].life, g.nodes[SymbolNode(key)].life))
  }

  lemma DeleteMoves(g: Graph, last: History, path: string, h: Head, now: int, key: string)
    requires Refines(g, last) && FileScoped(key) && Bound(g, key)
    ensures
      var g' := DeleteFile(g, path, Some(h), now);
      && Bound(g', key)
      && LifeIn(g', key) == (if path == Owner(key) then Entombed(LifeIn(g, key), h, now) else LifeIn(g, key))
  {
    if DefinesEdge(path, key) in g.edges {
      assert path == Owner(key);
    }
  }

  lemma WriteMoves(g: Graph, last: History, ex: ExtractedFile, h: Head, key: string)
    requires Refines(g, last) && GoodPath(ex.path) && FileScoped(key) && Bound(g, key)
    requires ex.path == Owner(key) && SymbolNode(key) in g.nodes ==> !LiveNode(g, SymbolNode(key))
    ensures
      var g' := UpsertFile(g, ex, Some(h));
      && Bound(g', key)
      && LifeIn(g', key) == (if Declares(ex, key) then Some(Touch(LifeIn(g, key), Some(h))) else LifeIn(g, key))
      && (Declares(ex, key) ==> ex.path == Owner(key))
  {
    var g', e, f := UpsertFile(g, ex, Some(h)), DefinesEdge(Owner(key), key), FileNode(Owner(key));
    WrittenSymbol(g, ex, h, key);
    UpsertedFile(g, ex, Some(h));
    RowsOfDefines(ex, Owner(key), key);
    RowsOfFile(ex, Owner(key));
    assert Lookup(g'.edges, e) == ItemAfter(Lookup(g.edges, e), EdgeRowsOf(ex), e, Some(h));
    assert Lookup(g'.nodes, f) == ItemAfter(Lookup(g.nodes, f), NodeRowsOf(ex), f, Some(h));
    if ex.path == Owner(key) {
      TouchedItem(Lookup(g.nodes, f), NodeRowsOf(ex), f, Some(h));
    } else {
      UntouchedItem(Lookup(g.nodes, f), NodeRowsOf(ex), f, Some(h));
    }
    if Declares(ex, key) {
      OwnerOfSymbolKey(ex.path, Declaration(ex, key));
      TouchedItem(Lookup(g.edges, e), EdgeRowsOf(ex), e, Some(h));
    } else {
      UntouchedItem(Lookup(g.edges, e), EdgeRowsOf(ex), e, Some(h));
    }
  }

  lemma VacuumMoves(g: Graph, policy: Policy, key: string)
    requires FileScoped(key) && Bound(g, key)
    ensures Bound(Vacuum(g, policy), key)
    ensures LifeIn(Vacuum(g, policy), key) == Next(LifeIn(g, key), Collect(policy), key)
  {
  }

  lemma StepMoves(g: Graph, last: History, step: Step, key: string)
    requires Refines(g, last) && GoodStep(step) && FileScoped(key) && Bound(g, key)
    ensures Bound(Apply(g, step), key)
    ensures LifeIn(Apply(g, step), key) == Next(LifeIn(g, key), step, key)
  {
    match step
    case Reingest(ex, h, now) =>
      DeleteMoves(g, last, ex.path, h, now, key);
      DeleteKeeps(g, last, ex.path, h, now);
      WriteMoves(DeleteFile(g, ex.path, Some(h), now), last - {ex.path}, ex, h, key);
    case Delete(path, h, now) => DeleteMoves(g, last, path, h, now, key);
    case Collect(policy) => VacuumMoves(g, policy, key);
    case SweepLayers(h, now) =>
  }

  /** The whole graph, seen at one file-scoped symbol, is this small automaton. */
  lemma {:induction false} LifeOfRun(steps: seq<Step>, key: string)
    requires GoodRun(steps) && FileScoped(key)
    ensures LifeIn(Run(steps), key) == LifeAfter(None, steps, key)
    ensures Bound(Run(steps), key)
  {
    if steps != [] {
      var n := |steps| - 1;
      LifeOfRun(steps[..n], key);
      RunRefines(steps[..n]);
      StepMoves(Run(steps[..n]), HistoryOf(steps[..n]), steps[n], key);
    }
  }

  // ---------------------------------------------------------------- ordinals

  /** The commit that a step runs at. */
  function HeadOf(step: Step): Option<Head> {
    match step
    case Reingest(_, h, _) => Some(h)
    case Delete(_, h, _) => Some(h)
    case SweepLayers(h, _) => Some(h)
    case Collect(_) => None
  }

  predicate StampedUpTo(step: Step, x: int) {
    HeadOf(step).Some? ==> HeadOf(step).value.ord.Some? && HeadOf(step).value.ord.value <= x
  }

  predicate StampedAfter(step: Step, x: int) {
    HeadOf(step).Some? ==> HeadOf(step).value.ord.Some? && HeadOf(step).value.ord.value > x
  }

  /** Vacuums are by ordinal, with a cutoff no later than `x`. */
  predicate CollectsUpTo(step: Step, x: int) {
    step.Collect? ==> step.policy.BeforeOrd? && step.policy.ord <= x
  }

  /** `steps` is a run whose first `n` steps happened at or before ordinal `x` and the others after it. */
  ghost predicate SplitAt(steps: seq<Step>, n: nat, x: int) {
    && n <= |steps|
    && (forall i :: 0 <= i < n ==> StampedUpTo(steps[i], x))
    && (forall i :: n <= i < |steps| ==> StampedAfter(steps[i], x))
    && (forall i :: 0 <= i < |steps| ==> CollectsUpTo(steps[i], x))
  }

  predicate HasOrd(step: Step) {
    HeadOf(step).Some? ==> HeadOf(step).value.ord.Some?
  }

  /** Ordinals never decrease along the run. */
  ghost predicate Ordered(steps: seq<Step>) {
    && (forall i :: 0 <= i < |steps| ==> HasOrd(steps[i]))
    && (forall i, j :: 0 <= i < j < |steps| && HeadOf(steps[i]).Some? && HeadOf(steps[j]).Some? ==>
          HeadOf(steps[i]).value.ord.value <= HeadOf(steps[j]).value.ord.value)
  }

  /** Just after the last step at or before ordinal `x`. */
  function PositionOf(steps: seq<Step>, x: int): (n: nat)
    ensures n <= |steps|
  {
    if steps == [] then 0
    else
      var h := HeadOf(steps[|steps| - 1]);
      if h.Some? && h.value.ord.Some? && h.value.ord.value <= x then |steps|
      else PositionOf(steps[..|steps| - 1], x)
  }

  lemma {:induction false} OrderedSplits(steps: seq<Step>, x: int)
    requires Ordered(steps) && forall i :: 0 <= i < |steps| ==> CollectsUpTo(steps[i], x)
    ensures SplitAt(steps, PositionOf(steps, x), x)
  {
    if steps != [] {
      var m := |steps| - 1;
      var h := HeadOf(steps[m]);
      if !(h.Some? && h.value.ord.value <= x) {
        OrderedSplits(steps[..m], x);
        assert forall i :: 0 <= i < m ==> steps[..m][i] == steps[i];
      }
    }
  }

  /** A stamp from a step at or before `x` is at or before `x`. */
  ghost predicate OldStamps(life: Option<Life>, x: int) {
    life.Some? ==>
      && life.value.firstOrd.Some? && life.value.firstOrd.value <= x
      && (!life.value.Live() ==> life.value.invalidOrd.Some? && life.value.invalidOrd.value <= x)
      && (life.value.Live() ==> life.value.invalidOrd.None?)
  }

  lemma {:induction false} StampsSoFar(steps: seq<Step>, x: int, key: string)
    requires forall i :: 0 <= i < |steps| ==> StampedUpTo(steps[i], x)
    ensures OldStamps(LifeAfter(None, steps, key), x)
  {
    if steps != [] {
      StampsSoFar(steps[..|steps| - 1], x, key);
    }
  }

  /** A later step works on the symbol before a vacuum has removed its tombstone. */
  predicate Revisited(life: Life, later: seq<Step>, key: string) {
    if later == [] then false
    else
      match later[0]
      case Reingest(ex, _, _) => ex.path == Owner(key) || Revisited(life, later[1..], key)
      case Delete(path, _, _) => path == Owner(key) || Revisited(life, later[1..], key)
      case Collect(policy) => !Collected(life, policy) && Revisited(life, later[1..], key)
      case SweepLayers(_, _) => Revisited(life, later[1..], key)
  }

  lemma {:induction false} LifeAfterFirst(life: Option<Life>, steps: seq<Step>, key: string)
    requires steps != []
    ensures LifeAfter(life, steps, key) == LifeAfter(Next(life, steps[0], key), steps[1..], key)
  {
    var n := |steps| - 1;
    if n > 0 {
      LifeAfterFirst(life, steps[..n], key);
      assert steps[..n][1..] == steps[1..][..n - 1];
      assert steps[1..][n - 1] == steps[n];
    }
  }

  ghost predicate Later(steps: seq<Step>, x: int) {
    forall i :: 0 <= i < |steps| ==> StampedAfter(steps[i], x) && CollectsUpTo(steps[i], x)
  }

  /** First seen by `x`, and not known to be dead at `x`. */
  predicate Remembered(life: Option<Life>, x: int) {
    life.Some? && AliveAt(life.value, x)
  }

  /** Later steps cannot make the past forget a symbol. */
  lemma {:induction false} PastIsKept(life: Option<Life>, steps: seq<Step>, x: int, key: string)
    requires Later(steps, x)
    requires Remembered(life, x) && (life.value.Live() <==> life.value.invalidOrd.None?)
    ensures Remembered(LifeAfter(life, steps, key), x)
    decreases |steps|
  {
    if steps != [] {
      LifeAfterFirst(life, steps, key);
      PastIsKept(Next(life, steps[0], key), steps[1..], x, key);
    }
  }

  /** A symbol first seen after `x` is not reported at `x`. */
  lemma {:induction false} FutureStaysOut(life: Option<Life>, steps: seq<Step>, x: int, key: string)
    requires Later(steps, x)
    requires life.Some? ==> life.value.firstOrd.Some? && life.value.firstOrd.value > x
    ensures !Remembered(LifeAfter(life, steps, key), x)
    decreases |steps|
  {
    if steps != [] {
      LifeAfterFirst(life, steps, key);
      FutureStaysOut(Next(life, steps[0], key), steps[1..], x, key);
    }
  }

  /** A tombstone of the past is reported again exactly when it is worked on later. */
  lemma {:induction false} TombstoneFate(life: Life, steps: seq<Step>, x: int, key: string)
    requires Later(steps, x) && OldStamps(Some(life), x) && !life.Live()
    ensures Remembered(LifeAfter(Some(life), steps, key), x) <==> Revisited(life, steps, key)
    decreases |steps|
  {
    if steps != [] {
      LifeAfterFirst(Some(life), steps, key);
      var next := Next(Some(life), steps[0], key);
      if next == None {
        FutureStaysOut(None, steps[1..], x, key);
      } else if next == Some(life) {
        TombstoneFate(life, steps[1..], x, key);
      } else {
        PastIsKept(next, steps[1..], x, key);
      }
    }
  }

  predicate ReportedAt(g: Graph, key: string, x: int) {
    SymbolNode(key) in AtSha(g, Symbol, x)
  }

  /** `at_sha(x)` reports a life that was at `past` after the last step up to `x`. */
  predicate ReportedLater(past: Option<Life>, later: seq<Step>, key: string) {
    past.Some? && (past.value.Live() || Revisited(past.value, later, key))
  }

  lemma ReportedExactly(steps: seq<Step>, x: int, key: string)
    requires Ordered(steps) && forall i :: 0 <= i < |steps| ==> CollectsUpTo(steps[i], x)
    ensures
      var n := PositionOf(steps, x);
      Remembered(LifeAfter(None, steps, key), x) <==> ReportedLater(LifeAfter(None, steps[..n], key), steps[n..], key)
  {
    var n := PositionOf(steps, x);
    OrderedSplits(steps, x);
    StampsSoFar(steps[..n], x, key);
    var life := LifeAfter(None, steps[..n], key);
    LifeAfterAppend(None, steps[..n], steps[n..], key);
    assert steps[..n] + steps[n..] == steps;
    if life == None {
      FutureStaysOut(None, steps[n..], x, key);
    } else if life.value.Live() {
      PastIsKept(life, steps[n..], x, key);
    } else {
      TombstoneFate(life.value, steps[n..], x, key);
    }
  }

  lemma ReportedAtIsRemembered(g: Graph, key: string, x: int)
    ensures ReportedAt(g, key, x) <==> Remembered(LifeIn(g, key), x)
  {
  }

  /** Exactly which file-scoped symbols `at_sha(x)` reports after a whole run: those
      alive after the last step at or before `x`, and the tombstones of that moment
      that a later step restamped or revived before a vacuum removed them. */
  lemma AtShaExactly(steps: seq<Step>, x: int, key: string)
    requires GoodRun(steps) && FileScoped(key) && Ordered(steps)
    requires forall i :: 0 <= i < |steps| ==> CollectsUpTo(steps[i], x)
    ensures
      var n := PositionOf(steps, x);
      ReportedAt(Run(steps), key, x) <==> ReportedLater(LifeIn(Run(steps[..n]), key), steps[n..], key)
  {
    LifeOfRun(steps, key);
    LifeOfRun(steps[..PositionOf(steps, x)], key);
    ReportedExactly(steps, x, key);
    ReportedAtIsRemembered(Run(steps), key, x);
  }

  lemma {:induction false} LifeAfterAppend(life: Option<Life>, a: seq<Step>, b: seq<Step>, key: string)
    ensures LifeAfter(life, a + b, key) == LifeAfter(LifeAfter(life, a, key), b, key)
    decreases |b|
  {
    if b == [] {
      assert a + b == a;
    } else {
      LifeAfterAppend(life, a, b[..|b| - 1], key);
      assert (a + b)[..|a + b| - 1] == a + b[..|b| - 1];
    }
  }

  /** Time travel never loses a symbol. */
  lemma AtShaLosesNothing(steps: seq<Step>, x: int, key: string)
    requires GoodRun(steps) && FileScoped(key) && Ordered(steps)
    requires forall i :: 0 <= i < |steps| ==> CollectsUpTo(steps[i], x)
    requires LiveNode(Run(steps[..PositionOf(steps, x)]), SymbolNode(key))
    ensures ReportedAt(Run(steps), key, x)
  {
    AtShaExactly(steps, x, key);
  }

  /** A symbol is reported at `x` exactly when the history of that moment has it,
      if nothing worked on its file again. */
  lemma AtShaIsHistory(steps: seq<Step>, x: int, key: string)
    requires GoodRun(steps) && FileScoped(key) && Ordered(steps)
    requires forall i :: 0 <= i < |steps| ==> CollectsUpTo(steps[i], x)
    requires forall i :: PositionOf(steps, x) <= i < |steps| ==>
      !(steps[i].Reingest? && steps[i].ex.path == Owner(key)) && !(steps[i].Delete? && steps[i].path == Owner(key))
    ensures ReportedAt(Run(steps), key, x) <==> Keeps(HistoryOf(steps[..PositionOf(steps, x)]), key)
  {
    var n := PositionOf(steps, x);
    AtShaExactly(steps, x, key);
    RunRefines(steps[..n]);
    var past := Run(steps[..n]);
    if LifeIn(past, key).Some? {
      NeverRevisited(LifeIn(past, key).value, steps[n..], key);
    }
    assert LiveNode(past, SymbolNode(key)) <==> Keeps(HistoryOf(steps[..n]), key);
  }

  lemma {:induction false} NeverRevisited(life: Life, later: seq<Step>, key: string)
    requires forall i :: 0 <= i < |later| ==>
      !(later[i].Reingest? && later[i].ex.path == Owner(key)) && !(later[i].Delete? && later[i].path == Owner(key))
    ensures !Revisited(life, later, key)
  {
    if later != [] {
      assert forall i :: 0 <= i < |later[1..]| ==> later[1..][i] == later[i + 1];
      NeverRevisited(life, later[1..], key);
    }
  }

  /** Vacuuming by ordinal changes no answer at or after the cutoff, for any label. */
  lemma VacuumKeepsTheView(g: Graph, b: int, tag: Label, x: int)
    requires b <= x
    ensures AtSha(Vacuum(g, BeforeOrd(b)), tag, x) == AtSha(g, tag, x)
  {
  }

  /** Any vacuum keeps the answer at `x` exactly when it collects no node reported there. */
  lemma VacuumChangesTheView(g: Graph, policy: Policy, tag: Label, x: int)
    ensures AtSha(Vacuum(g, policy), tag, x) == AtSha(g, tag, x) <==>
      forall id :: id in AtSha(g, tag, x) ==> !NodeCollected(g, id, policy)
  {
    var kept := AtSha(Vacuum(g, policy), tag, x);
    forall id
      ensures id in kept <==> id in AtSha(g, tag, x) && !NodeCollected(g, id, policy)
    {
    }
  }

  // ---------------------------------------------------------------- what the stamps of a run say

  /** The step writes the symbol. */
  predicate Confirms(step: Step, key: string) {
    step.Reingest? && step.ex.path == Owner(key) && Declares(step.ex, key)
  }

  /** The step buries the symbol, if only to write it again. */
  predicate WorksOnFile(step: Step, key: string) {
    (step.Reingest? && step.ex.path == Owner(key)) || (step.Delete? && step.path == Owner(key))
  }

  ghost predicate NoVacuum(steps: seq<Step>) {
    forall i :: 0 <= i < |steps| ==> !steps[i].Collect?
  }

  lemma {:induction false} NeverSeen(steps: seq<Step>, key: string)
    requires forall i :: 0 <= i < |steps| ==> !Confirms(steps[i], key)
    ensures LifeAfter(None, steps, key).None?
  {
    if steps != [] {
      NeverSeen(steps[..|steps| - 1], key);
    }
  }

  lemma {:induction false} FirstSeen(steps: seq<Step>, key: string, i: nat)
    requires NoVacuum(steps) && i < |steps| && Confirms(steps[i], key)
    requires forall j :: 0 <= j < i ==> !Confirms(steps[j], key)
    ensures
      var life := LifeAfter(None, steps, key);
      && life.Some? && life.value.firstSha == Some(steps[i].head.sha)
      && (steps[i].head.ord.Some? ==> life.value.firstOrd == steps[i].head.ord)
  {
    var n := |steps| - 1;
    if i == n {
      NeverSeen(steps[..n], key);
    } else {
      FirstSeen(steps[..n], key, i);
    }
  }

  lemma {:induction false} LastSeen(steps: seq<Step>, key: string, j: nat)
    requires NoVacuum(steps) && j < |steps| && Confirms(steps[j], key)
    requires forall i :: j < i < |steps| ==> !Confirms(steps[i], key)
    ensures
      var life := LifeAfter(None, steps, key);
      life.Some? && life.value.lastSha == Some(steps[j].head.sha) && life.value.lastOrd == steps[j].head.ord
  {
    if j < |steps| - 1 {
      LastSeen(steps[..|steps| - 1], key, j);
    }
  }

  lemma {:induction false} LastWorkedOn(steps: seq<Step>, key: string, k: nat)
    requires NoVacuum(steps) && k < |steps| && WorksOnFile(steps[k], key)
    requires forall i :: k < i < |steps| ==> !WorksOnFile(steps[i], key)
    requires exists i :: 0 <= i <= k && Confirms(steps[i], key)
    ensures
      var life, step := LifeAfter(None, steps, key), steps[k];
      && life.Some?
      && life.value.invalidSha == (if Confirms(step, key) then None else Some(step.head.sha))
      && life.value.invalidOrd == (if Confirms(step, key) then None else step.head.ord)
      && life.value.invalidAt == (if Confirms(step, key) then None else Some(step.now))
  {
    var n := |steps| - 1;
    if k < n {
      var i :| 0 <= i <= k && Confirms(steps[i], key);
      assert steps[..n][i] == steps[i];
      LastWorkedOn(steps[..n], key, k);
    } else if !Confirms(steps[k], key) {
      var i :| 0 <= i < k && Confirms(steps[i], key);
      assert steps[..n][i] == steps[i];
      SeenStays(steps[..n], key, i);
    }
  }

  lemma {:induction false} SeenStays(steps: seq<Step>, key: string, i: nat)
    requires NoVacuum(steps) && i < |steps| && Confirms(steps[i], key)
    ensures LifeAfter(None, steps, key).Some?
  {
    if i < |steps| - 1 {
      SeenStays(steps[..|steps| - 1], key, i);
    }
  }

  /** From a moment at which the graph has no node for a symbol, and until the next vacuum, its stamps are those of the
      run: first seen at the first step that declares it, last seen at the last one, and dead, with commit, ordinal
      and time, from the last step that worked on its file without declaring it. */
  lemma StampsOfRun(before: seq<Step>, later: seq<Step>, key: string, i: nat, j: nat, k: nat)
    requires GoodRun(before + later) && FileScoped(key) && LifeIn(Run(before), key).None? && NoVacuum(later)
    requires i <= j <= k < |later| && Confirms(later[i], key) && Confirms(later[j], key) && WorksOnFile(later[k], key)
    requires forall m :: 0 <= m < i ==> !Confirms(later[m], key)
    requires forall m :: j < m < |later| ==> !Confirms(later[m], key)
    requires forall m :: k < m < |later| ==> !WorksOnFile(later[m], key)
    ensures
      var life := LifeIn(Run(before + later), key);
      && life.Some?
      && life.value.firstSha == Some(later[i].head.sha)
      && (later[i].head.ord.Some? ==> life.value.firstOrd == later[i].head.ord)
      && life.value.lastSha == Some(later[j].head.sha) && life.value.lastOrd == later[j].head.ord
      && life.value.invalidSha == (if j == k then None else Some(later[k].head.sha))
      && life.value.invalidOrd == (if j == k then None else later[k].head.ord)
      && life.value.invalidAt == (if j == k then None else Some(later[k].now))
  {
    assert forall m :: 0 <= m < |before| ==> before[m] == (before + later)[m];
    LifeOfRun(before, key);
    LifeOfRun(before + later, key);
    LifeAfterAppend(None, before, later, key);
    FirstSeen(later, key, i);
    LastSeen(later, key, j);
    LastWorkedOn(later, key, k);
  }
}
