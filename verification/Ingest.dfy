/** Incremental against full ingest: when applying a delta gives the index that a
    full walk would build. */
module Ingest {
  import opened Wrappers
  import opened Extraction
  import opened SymbolKeys
  import opened GitDelta
  import N = GitNames
  import T = TemporalGraph
  import G = GraphIngest
  import R = GraphRefinement

  type History = R.History

  /** What the extractor makes of a path and its content. */
  type Extractor = (string, string) -> Option<ExtractedFile>

  ghost predicate Proper(extract: Extractor) {
    forall p, c :: extract(p, c).Some? ==> extract(p, c).value.path == p
  }

  /** What extraction gives for a path right now: nothing if it is no file. */
  function Extracted(disk: Tree, extract: Extractor, p: string): Option<ExtractedFile> {
    if p in disk then extract(p, disk[p]) else None
  }

  /** What a full walk indexes: every eligible file that can be extracted. */
  ghost function Full(disk: Tree, extract: Extractor, eligible: string -> bool): History {
    map p | p in disk && eligible(p) && extract(p, disk[p]).Some? :: extract(p, disk[p]).value
  }

  datatype Stats = Stats(files: nat, symbols: nat, chunks: nat, deleted: nat, skipped: nat)

  /** One chunk per symbol, or one for the whole file. */
  function Counted(st: Stats, found: Option<ExtractedFile>): Stats {
    match found
    case None => st.(skipped := st.skipped + 1)
    case Some(ex) =>
      st.(files := st.files + 1, symbols := st.symbols + |ex.symbols|,
          chunks := st.chunks + if |ex.symbols| == 0 then 1 else |ex.symbols|)
  }

  function CountedAll(st: Stats, disk: Tree, extract: Extractor, paths: seq<string>): Stats {
    if paths == [] then st
    else Counted(CountedAll(st, disk, extract, paths[..|paths| - 1]), Extracted(disk, extract, paths[|paths| - 1]))
  }

  /** How many of the paths are such. */
  function HowMany(paths: seq<string>, such: string -> bool): nat {
    if paths == [] then 0
    else HowMany(paths[..|paths| - 1], such) + if such(paths[|paths| - 1]) then 1 else 0
  }

  /** How many symbols the files at the paths have. */
  function SymbolsAt(disk: Tree, extract: Extractor, paths: seq<string>): nat {
    if paths == [] then 0
    else
      var found := Extracted(disk, extract, paths[|paths| - 1]);
      SymbolsAt(disk, extract, paths[..|paths| - 1]) + if found.Some? then |found.value.symbols| else 0
  }

  /** The counters: a file for every path with an extraction and a skip for every other; a chunk for every symbol, and
      one for every file without symbols. */
  lemma {:induction false} StatsAre(st: Stats, disk: Tree, extract: Extractor, paths: seq<string>)
    ensures
      var after := CountedAll(st, disk, extract, paths);
      var bare := HowMany(paths, p =>
        p in disk && extract(p, disk[p]).Some? && extract(p, disk[p]).value.symbols == []);
      && after.files == st.files + HowMany(paths, p => p in disk && extract(p, disk[p]).Some?)
      && after.skipped == st.skipped + HowMany(paths, p => p in disk ==> extract(p, disk[p]).None?)
      && after.symbols == st.symbols + SymbolsAt(disk, extract, paths)
      && after.chunks == st.chunks + SymbolsAt(disk, extract, paths) + bare
      && after.deleted == st.deleted
      && after.files + after.skipped == st.files + st.skipped + |paths|
  {
    if paths != [] {
      StatsAre(st, disk, extract, paths[..|paths| - 1]);
    }
  }

  // ---------------------------------------------------------------- the delta on the history

  function Dropped(h: History, paths: seq<string>): History {
    if paths == [] then h else Dropped(h, paths[..|paths| - 1]) - {paths[|paths| - 1]}
  }

  function Refreshed(h: History, disk: Tree, extract: Extractor, p: string): History {
    match Extracted(disk, extract, p)
    case None => h
    case Some(ex) => h[ex.path := ex]
  }

  function Written(h: History, disk: Tree, extract: Extractor, paths: seq<string>): History {
    if paths == [] then h
    else Refreshed(Written(h, disk, extract, paths[..|paths| - 1]), disk, extract, paths[|paths| - 1])
  }

  function AfterDelta(h: History, d: Delta, disk: Tree, extract: Extractor): History {
    Written(Dropped(h, d.deleted), disk, extract, Reingests(d))
  }

  function At(h: History, p: string): Option<ExtractedFile> {
    if p in h then Some(h[p]) else None
  }

  lemma {:induction false} DroppedAt(h: History, paths: seq<string>, p: string)
    ensures At(Dropped(h, paths), p) == if p in paths then None else At(h, p)
  {
    if paths != [] {
      DroppedAt(h, paths[..|paths| - 1], p);
    }
  }

  lemma {:induction false} WrittenAt(h: History, disk: Tree, extract: Extractor, paths: seq<string>, p: string)
    requires Proper(extract)
    ensures At(Written(h, disk, extract, paths), p) ==
      if p in paths && Extracted(disk, extract, p).Some? then Extracted(disk, extract, p) else At(h, p)
  {
    if paths != [] {
      WrittenAt(h, disk, extract, paths[..|paths| - 1], p);
    }
  }

  /** Path by path: a reingested file is as it is now, even if it is also listed as
      deleted; any other deleted path is gone; the rest is untouched. */
  lemma DeltaAt(h: History, d: Delta, disk: Tree, extract: Extractor, p: string)
    requires Proper(extract)
    ensures At(AfterDelta(h, d, disk, extract), p) ==
      if (p in d.changed || p in d.dirty) && Extracted(disk, extract, p).Some? then Extracted(disk, extract, p)
      else if p in d.deleted then None
      else At(h, p)
  {
    G.DistinctKeepsAll(d.changed + d.dirty);
    DroppedAt(h, d.deleted, p);
    WrittenAt(Dropped(h, d.deleted), disk, extract, Reingests(d), p);
  }

  /** A delta that crashed half-way is repaired by applying it again. */
  lemma RedoRepairs(h: History, d: Delta, disk: Tree, extract: Extractor, i: nat, j: nat)
    requires Proper(extract) && i <= |d.deleted| && j <= |Reingests(d)| && (j > 0 ==> i == |d.deleted|)
    ensures
      var crashed := Written(Dropped(h, d.deleted[..i]), disk, extract, Reingests(d)[..j]);
      AfterDelta(crashed, d, disk, extract) == AfterDelta(h, d, disk, extract)
  {
    var crashed := Written(Dropped(h, d.deleted[..i]), disk, extract, Reingests(d)[..j]);
    var again, once := AfterDelta(crashed, d, disk, extract), AfterDelta(h, d, disk, extract);
    forall p
      ensures At(again, p) == At(once, p)
    {
      DeltaAt(crashed, d, disk, extract, p);
      DeltaAt(h, d, disk, extract, p);
      DroppedAt(h, d.deleted[..i], p);
      WrittenAt(Dropped(h, d.deleted[..i]), disk, extract, Reingests(d)[..j], p);
      G.DistinctKeepsAll(d.changed + d.dirty);
      PrefixMembers(d.deleted, i, p);
      PrefixMembers(Reingests(d), j, p);
    }
    SameHistory(again, once);
  }

  lemma PrefixMembers(paths: seq<string>, i: nat, p: string)
    requires i <= |paths|
    ensures p in paths[..i] ==> p in paths
  {
  }

  lemma SameHistory(a: History, b: History)
    requires forall p :: At(a, p) == At(b, p)
    ensures a == b
  {
    forall p
      ensures p in a <==> p in b
      ensures p in a && p in b ==> a[p] == b[p]
    {
      assert At(a, p) == At(b, p);
    }
  }

  // ---------------------------------------------------------------- incremental equals full

  /** A worktree together with the extractor and the ignore rules of the moment. */
  datatype Setup = Setup(disk: Tree, extract: Extractor, eligible: string -> bool)

  /** What a walk finds at a path. */
  function Found(w: Setup, p: string): Option<ExtractedFile> {
    if w.eligible(p) then Extracted(w.disk, w.extract, p) else None
  }

  ghost function FullOf(w: Setup): History {
    Full(w.disk, w.extract, w.eligible)
  }

  function AfterDeltaAt(h: History, d: Delta, now: Setup): History {
    AfterDelta(h, d, now.disk, now.extract)
  }

  predicate Renewed(d: Delta, now: Setup, p: string) {
    (p in d.changed || p in d.dirty) && Extracted(now.disk, now.extract, p).Some?
  }

  /** A touched file that the walk would skip: it is indexed all the same. */
  predicate Smuggled(d: Delta, now: Setup, p: string) {
    Renewed(d, now, p) && !now.eligible(p)
  }

  /** A file that is deleted although the walk would find it. */
  predicate Lost(d: Delta, now: Setup, p: string) {
    p in d.deleted && !Renewed(d, now, p) && Found(now, p).Some?
  }

  /** A path at which a walk finds something else than before, and that the delta
      neither deletes nor renews. */
  predicate Overlooked(d: Delta, was: Setup, now: Setup, p: string) {
    p !in d.deleted && !Renewed(d, now, p) && Found(was, p) != Found(now, p)
  }

  predicate InTrouble(d: Delta, was: Setup, now: Setup, p: string) {
    Smuggled(d, now, p) || Lost(d, now, p) || Overlooked(d, was, now, p)
  }

  lemma FullAt(disk: Tree, extract: Extractor, eligible: string -> bool, p: string)
    ensures At(Full(disk, extract, eligible), p) == if eligible(p) then Extracted(disk, extract, p) else None
  {
  }

  lemma PathAgreesIff(d: Delta, was: Setup, now: Setup, p: string)
    requires Proper(now.extract)
    ensures At(AfterDeltaAt(FullOf(was), d, now), p) == At(FullOf(now), p) <==> !InTrouble(d, was, now, p)
  {
    DeltaAt(FullOf(was), d, now.disk, now.extract, p);
    FullAt(was.disk, was.extract, was.eligible, p);
    FullAt(now.disk, now.extract, now.eligible, p);
  }

  /** If the index was that of a full walk, then and by the rules of then, any delta
      gives what a full walk gives now exactly when no path is in one of three troubles. */
  lemma IncrementalIsFullIff(d: Delta, was: Setup, now: Setup)
    requires Proper(now.extract)
    ensures AfterDeltaAt(FullOf(was), d, now) == FullOf(now) <==> forall p :: !InTrouble(d, was, now, p)
  {
    var incremental, full := AfterDeltaAt(FullOf(was), d, now), FullOf(now);
    forall p
      ensures At(incremental, p) == At(full, p) <==> !InTrouble(d, was, now, p)
    {
      PathAgreesIff(d, was, now, p);
    }
    if forall p :: At(incremental, p) == At(full, p) {
      SameHistory(incremental, full);
    }
  }

  ghost predicate SameRules(was: Setup, now: Setup) {
    (forall p, c :: was.extract(p, c) == now.extract(p, c)) && forall p :: was.eligible(p) == now.eligible(p)
  }

  /** A touched file that was indexed and can no longer be extracted: it stays. */
  predicate Stale(d: Delta, was: Setup, now: Setup, p: string) {
    && p in now.disk && Extracted(now.disk, now.extract, p).None? && p !in d.deleted
    && Found(was, p).Some?
  }

  /** Where the delta covers every difference and the rules are the same, only indexed
      files that can no longer be extracted are overlooked. */
  lemma CoveredMeansStale(d: Delta, was: Setup, now: Setup, p: string)
    requires Covers(d, was.disk, now.disk) && SameRules(was, now)
    ensures Overlooked(d, was, now, p) <==> Stale(d, was, now, p)
  {
    if Content(was.disk, p) == Content(now.disk, p) {
      assert Found(was, p) == Found(now, p);
    }
  }

  /** So a covering delta leads to the full index exactly when no touched file is
      ineligible, no indexed one stops being extractable, and no present one is deleted. */
  lemma CoveredIsFullIff(d: Delta, was: Setup, now: Setup)
    requires Proper(now.extract) && Covers(d, was.disk, now.disk) && SameRules(was, now)
    ensures AfterDeltaAt(FullOf(was), d, now) == FullOf(now) <==>
      forall p :: !Smuggled(d, now, p) && !Lost(d, now, p) && !Stale(d, was, now, p)
  {
    forall p {
      CoveredMeansStale(d, was, now, p);
    }
    IncrementalIsFullIff(d, was, now);
    assert forall p :: InTrouble(d, was, now, p) <==> Smuggled(d, now, p) || Lost(d, now, p) || Stale(d, was, now, p);
  }

  // ---------------------------------------------------------------- from git's reports

  /** What git reports at one ingest, the commit it runs at, and the worktree and rules. */
  datatype Round = Round(lines: seq<Line>, status: seq<Entry>, head: Tree, at: Setup)

  function ToldTo(octal: N.Octal, r: Round): Delta {
    Told(octal, r.lines, r.status, r.at.disk.Keys)
  }

  predicate WrongOn(reingested: bool, deleted: bool, was: Setup, now: Setup, p: string) {
    if reingested && Extracted(now.disk, now.extract, p).Some? then !now.eligible(p)
    else if deleted then Found(now, p).Some?
    else Found(was, p) != Found(now, p)
  }

  /** The same troubles, read off git's reports: an ineligible file is brought in, a
      present one taken out, or one that has changed is left. */
  ghost predicate Misled(octal: N.Octal, r: Round, was: Setup, base: Tree, p: string) {
    WrongOn(ToldToReingest(octal, r.lines, r.status, base, r.head, p),
            ToldToDelete(octal, r.lines, r.status, base, r.head, p),
      was, r.at, p)
  }

  lemma WrongOnIff(d: Delta, was: Setup, now: Setup, p: string)
    ensures WrongOn(p in d.changed || p in d.dirty, p in d.deleted, was, now, p) <==> InTrouble(d, was, now, p)
  {
  }

  /** What is told about reingesting matters only for files that are there. */
  lemma OnlyPresentMatter(a: bool, b: bool, deleted: bool, was: Setup, now: Setup, p: string)
    requires p in now.disk ==> a == b
    ensures WrongOn(a, deleted, was, now, p) == WrongOn(b, deleted, was, now, p)
  {
  }

  ghost predicate Reports(octal: N.Octal, r: Round, base: Tree) {
    GitReports(octal, r.lines, r.status, base, r.head, r.at.disk)
  }

  lemma ReportsRead(octal: N.Octal, r: Round, base: Tree, p: string)
    requires Reports(octal, r, base)
    ensures
      var d := ToldTo(octal, r);
      && (p in r.at.disk ==> (p in d.changed || p in d.dirty <==>
                              ToldToReingest(octal, r.lines, r.status, base, r.head, p)))
      && (p in d.deleted <==> ToldToDelete(octal, r.lines, r.status, base, r.head, p))
  {
    DiffTells(r.lines, base, r.head, p);
    ReingestedIff(octal, r.lines, r.status, r.at.disk.Keys, p);
    DeletedIff(octal, r.lines, r.status, r.at.disk.Keys, p);
  }

  lemma MisledIff(octal: N.Octal, r: Round, was: Setup, base: Tree, p: string)
    requires Reports(octal, r, base)
    ensures Misled(octal, r, was, base, p) <==> InTrouble(ToldTo(octal, r), was, r.at, p)
  {
    var d := ToldTo(octal, r);
    WrongOnIff(d, was, r.at, p);
    ReportsRead(octal, r, base, p);
    OnlyPresentMatter(p in d.changed || p in d.dirty, ToldToReingest(octal, r.lines, r.status, base, r.head, p),
      p in d.deleted, was, r.at, p);
  }

  /** From the worktree that was indexed last, whatever commit is recorded: the incremental
      ingest is a full one exactly when git's reports mislead about no path. */
  lemma GitIncrementalIsFullIff(octal: N.Octal, r: Round, was: Setup, base: Tree)
    requires Proper(r.at.extract) && Reports(octal, r, base)
    ensures AfterDeltaAt(FullOf(was), ToldTo(octal, r), r.at) == FullOf(r.at) <==>
      forall p :: !Misled(octal, r, was, base, p)
  {
    forall p
      ensures Misled(octal, r, was, base, p) <==> InTrouble(ToldTo(octal, r), was, r.at, p)
    {
      MisledIff(octal, r, was, base, p);
    }
    IncrementalIsFullIff(ToldTo(octal, r), was, r.at);
  }

  /** The path is told if it differs, stays extractable and eligible if it is told to be
      there, and is not told to be gone only. */
  ghost predicate WellTold(octal: N.Octal, r: Round, was: Setup, base: Tree, p: string) {
    && (Content(was.disk, p) != Content(r.at.disk, p) ==>
        Reported(octal, r.lines, r.status, base, r.head, r.at.disk, p))
    && (p in r.at.disk && ToldToReingest(octal, r.lines, r.status, base, r.head, p) ==>
          r.at.eligible(p) && (Extracted(was.disk, was.extract, p).Some? ==>
                               Extracted(r.at.disk, r.at.extract, p).Some?))
    && (p in r.at.disk && ToldToDelete(octal, r.lines, r.status, base, r.head, p) ==>
          ToldToReingest(octal, r.lines, r.status, base, r.head, p))
  }

  lemma WellToldIsRight(octal: N.Octal, r: Round, was: Setup, base: Tree, p: string)
    requires SameRules(was, r.at) && WellTold(octal, r, was, base, p)
    ensures !Misled(octal, r, was, base, p)
  {
    if Content(was.disk, p) == Content(r.at.disk, p) {
      assert Found(was, p) == Found(r.at, p);
    }
  }

  /** In particular if the rules are the same and every path is well told: differences
      are reported, nothing ineligible is touched, indexed files stay extractable, and no
      file on disk has a D column or was copied or recreated without being reported. */
  lemma GitIncrementalIsFull(octal: N.Octal, r: Round, was: Setup, base: Tree)
    requires Proper(r.at.extract) && Reports(octal, r, base) && SameRules(was, r.at)
    requires forall p :: WellTold(octal, r, was, base, p)
    ensures AfterDeltaAt(FullOf(was), ToldTo(octal, r), r.at) == FullOf(r.at)
  {
    forall p {
      WellToldIsRight(octal, r, was, base, p);
    }
    GitIncrementalIsFullIff(octal, r, was, base);
  }

  // ---------------------------------------------------------------- one ingest after another

  /** What the last of some ingests saw, and the commit that it recorded. */
  function SetupAfter(first: Round, rounds: seq<Round>): Setup {
    if rounds == [] then first.at else rounds[|rounds| - 1].at
  }

  function HeadAfter(first: Round, rounds: seq<Round>): Tree {
    if rounds == [] then first.head else rounds[|rounds| - 1].head
  }

  /** A full ingest and then incremental ones, each from the commit that the one before it recorded. */
  ghost function IndexAfter(octal: N.Octal, first: Round, rounds: seq<Round>): History {
    if rounds == [] then FullOf(first.at)
    else
      var r := rounds[|rounds| - 1];
      AfterDeltaAt(IndexAfter(octal, first, rounds[..|rounds| - 1]), ToldTo(octal, r), r.at)
  }

  /** Round `k` misleads about nothing, given what the one before it indexed and recorded. */
  ghost predicate Sound(octal: N.Octal, first: Round, rounds: seq<Round>, k: nat)
    requires k < |rounds|
  {
    forall p :: !Misled(octal, rounds[k], SetupAfter(first, rounds[..k]), HeadAfter(first, rounds[..k]), p)
  }

  ghost predicate AllReport(octal: N.Octal, first: Round, rounds: seq<Round>) {
    forall k :: 0 <= k < |rounds| ==>
      Proper(rounds[k].at.extract) && Reports(octal, rounds[k], HeadAfter(first, rounds[..k]))
  }

  ghost predicate UpToDate(octal: N.Octal, first: Round, rounds: seq<Round>) {
    IndexAfter(octal, first, rounds) == FullOf(SetupAfter(first, rounds))
  }

  lemma NextIsUpToDateIff(octal: N.Octal, first: Round, rounds: seq<Round>, k: nat)
    requires AllReport(octal, first, rounds) && k < |rounds| && UpToDate(octal, first, rounds[..k])
    ensures UpToDate(octal, first, rounds[..k + 1]) <==> Sound(octal, first, rounds, k)
  {
    assert rounds[..k + 1][..k] == rounds[..k];
    GitIncrementalIsFullIff(octal, rounds[k], SetupAfter(first, rounds[..k]), HeadAfter(first, rounds[..k]));
  }

  lemma {:induction false} StepByStep(right: nat -> bool, sound: nat -> bool, n: nat)
    requires right(0) && forall k :: 0 <= k < n && right(k) ==> (right(k + 1) <==> sound(k))
    ensures (forall k :: 0 <= k <= n ==> right(k)) <==> (forall k :: 0 <= k < n ==> sound(k))
  {
    if n > 0 {
      StepByStep(right, sound, n - 1);
      if forall k :: 0 <= k <= n - 1 ==> right(k) {
        assert right(n - 1);
        assert right(n - 1 + 1) <==> sound(n - 1);
      }
    }
  }

  /** Over any number of ingests, whatever happens to files and rules between them, the
      index is that of a full walk after every one of them exactly when none of them is
      misled; nothing has to be clean or committed. */
  lemma AlwaysUpToDateIff(octal: N.Octal, first: Round, rounds: seq<Round>)
    requires AllReport(octal, first, rounds)
    ensures (forall k :: 0 <= k <= |rounds| ==> UpToDate(octal, first, rounds[..k]))
      <==> (forall k :: 0 <= k < |rounds| ==> Sound(octal, first, rounds, k))
  {
    ghost var right := (k: nat) => k <= |rounds| && UpToDate(octal, first, rounds[..k]);
    ghost var sound := (k: nat) => k < |rounds| && Sound(octal, first, rounds, k);
    assert right(0) by {
      assert rounds[..0] == [];
    }
    forall k | 0 <= k < |rounds| && right(k)
      ensures right(k + 1) <==> sound(k)
    {
      NextIsUpToDateIff(octal, first, rounds, k);
    }
    StepByStep(right, sound, |rounds|);
    assert forall k :: 0 <= k <= |rounds| ==> (right(k) <==> UpToDate(octal, first, rounds[..k]));
    assert forall k :: 0 <= k < |rounds| ==> (sound(k) <==> Sound(octal, first, rounds, k));
  }

  /** Two ingests at one commit of which git reports nothing: the second leaves whatever
      a walk would find differently. */
  lemma SilenceIsMissed(octal: N.Octal, head: Tree, was: Setup, now: Setup, p: string)
    requires N.Proper(octal) && Proper(now.extract) && now.disk == head && Found(was, p) != Found(now, p)
    ensures
      var first, second := Round([], [], head, was), Round([], [], head, now);
      AllReport(octal, first, [second]) && !UpToDate(octal, first, [second])
  {
    var first, second := Round([], [], head, was), Round([], [], head, now);
    assert [second][..0] == [] && [second][..1] == [second];
    assert UpToDate(octal, first, [second][..0]);
    assert Misled(octal, second, was, head, p);
    NextIsUpToDateIff(octal, first, [second], 0);
  }

  /** A file that was dirty when it was indexed and is then reverted to the recorded
      commit appears in no report and stays as it was. */
  lemma RevertedStaysStale(octal: N.Octal, p: string, text: string, dirty: string, extract: Extractor,
                           eligible: string -> bool)
    requires N.Proper(octal) && Proper(extract) && eligible(p) && extract(p, text) != extract(p, dirty)
    ensures
      var was, now := Setup(Only(p, dirty), extract, eligible), Setup(Only(p, text), extract, eligible);
      var first, reverted := Round([], [], Only(p, text), was), Round([], [], Only(p, text), now);
      AllReport(octal, first, [reverted]) && !UpToDate(octal, first, [reverted])
  {
    SilenceIsMissed(octal, Only(p, text), Setup(Only(p, dirty), extract, eligible),
                    Setup(Only(p, text), extract, eligible), p);
  }

  /** Nor does a change of the ignore rules: a file that they newly exclude stays, and one
      that they newly admit is not brought in. */
  lemma NewRulesAreMissed(octal: N.Octal, p: string, text: string, extract: Extractor, before: string -> bool,
                          after: string -> bool)
    requires N.Proper(octal) && Proper(extract) && extract(p, text).Some? && before(p) != after(p)
    ensures
      var was, now := Setup(Only(p, text), extract, before), Setup(Only(p, text), extract, after);
      var first, second := Round([], [], Only(p, text), was), Round([], [], Only(p, text), now);
      AllReport(octal, first, [second]) && !UpToDate(octal, first, [second])
  {
    SilenceIsMissed(octal, Only(p, text), Setup(Only(p, text), extract, before), Setup(Only(p, text), extract, after),
                    p);
  }

  // ---------------------------------------------------------------- on the graph

  ghost predicate AllGood(paths: seq<string>) {
    forall i :: 0 <= i < |paths| ==> GoodPath(paths[i])
  }

  /** Deletes, then reingests. A dry run counts the same and writes nothing. */
  method IngestDelta(graph: T.FalkorStore, d: Delta, disk: Tree, extract: Extractor, head: T.Head, now: int,
                     dryRun: bool, ghost h: History)
    returns (stats: Stats)
    requires Proper(extract) && AllGood(d.deleted) && AllGood(Reingests(d)) && R.Refines(graph.G(), h)
    modifies graph
    ensures stats == CountedAll(Stats(0, 0, 0, |d.deleted|, 0), disk, extract, Reingests(d))
    ensures dryRun ==> graph.G() == old(graph.G())
    ensures !dryRun ==> R.Refines(graph.G(), AfterDelta(h, d, disk, extract))
  {
    stats := Stats(0, 0, 0, 0, 0);
    for i := 0 to |d.deleted|
      invariant stats == Stats(0, 0, 0, i, 0)
      invariant dryRun ==> graph.G() == old(graph.G())
      invariant !dryRun ==> R.Refines(graph.G(), Dropped(h, d.deleted[..i]))
    {
      assert d.deleted[..i + 1][..i] == d.deleted[..i];
      stats := stats.(deleted := stats.deleted + 1);
      if !dryRun {
        R.DeleteKeeps(graph.G(), Dropped(h, d.deleted[..i]), d.deleted[i], head, now);
        graph.Delete(d.deleted[i], Some(head), now);
      }
    }
    assert d.deleted[..|d.deleted|] == d.deleted;
    var reingest := ReingestPaths(d);
    stats := ReingestAll(graph, reingest, disk, extract, head, now, dryRun, Dropped(h, d.deleted), stats);
  }

  method ReingestAll(graph: T.FalkorStore, paths: seq<string>, disk: Tree, extract: Extractor, head: T.Head, now: int,
                     dryRun: bool, ghost h: History, stats0: Stats)
    returns (stats: Stats)
    requires Proper(extract) && AllGood(paths)
    requires !dryRun ==> R.Refines(graph.G(), h)
    modifies graph
    ensures stats == CountedAll(stats0, disk, extract, paths)
    ensures dryRun ==> graph.G() == old(graph.G())
    ensures !dryRun ==> R.Refines(graph.G(), Written(h, disk, extract, paths))
  {
    stats := stats0;
    for i := 0 to |paths|
      invariant stats == CountedAll(stats0, disk, extract, paths[..i])
      invariant dryRun ==> graph.G() == old(graph.G())
      invariant !dryRun ==> R.Refines(graph.G(), Written(h, disk, extract, paths[..i]))
    {
      assert paths[..i + 1][..i] == paths[..i];
      var p := paths[i];
      if p !in disk {
        stats := stats.(skipped := stats.skipped + 1);
        continue;
      }
      var ex := extract(p, disk[p]);
      if !dryRun {
        if ex.Some? {
          R.ReingestKeeps(graph.G(), Written(h, disk, extract, paths[..i]), ex.value, head, now);
        }
        G.ReingestFile(graph, ex, Some(head), now);
      }
      stats := Counted(stats, ex);
    }
    assert paths[..|paths|] == paths;
  }

  /** What the walk has indexed after the first paths. */
  ghost predicate Walked(h: History, paths: seq<string>, disk: Tree, extract: Extractor, eligible: string -> bool) {
    forall p :: At(h, p) == if p in paths && eligible(p) then Extracted(disk, extract, p) else None
  }

  lemma WalkOn(h: History, paths: seq<string>, i: nat, disk: Tree, extract: Extractor, eligible: string -> bool)
    requires i < |paths| && Proper(extract) && Walked(h, paths[..i], disk, extract, eligible)
    ensures
      var p := paths[i];
      Walked(if eligible(p) then Refreshed(h, disk, extract, p) else h, paths[..i + 1], disk, extract, eligible)
  {
    var p := paths[i];
    var next := if eligible(p) then Refreshed(h, disk, extract, p) else h;
    forall q
      ensures At(next, q) == if q in paths[..i + 1] && eligible(q) then Extracted(disk, extract, q) else None
    {
      assert q in paths[..i + 1] <==> q in paths[..i] || q == p;
      assert At(h, q) == if q in paths[..i] && eligible(q) then Extracted(disk, extract, q) else None;
    }
  }

  lemma EmptyRefines()
    ensures R.Refines(T.EMPTY, map[])
  {
    R.RunRefines([]);
  }

  lemma WalkedAll(h: History, paths: seq<string>, disk: Tree, extract: Extractor, eligible: string -> bool)
    requires Walked(h, paths, disk, extract, eligible) && forall p :: p in paths <==> p in disk
    ensures h == Full(disk, extract, eligible)
  {
    forall p
      ensures At(h, p) == At(Full(disk, extract, eligible), p)
    {
      FullAt(disk, extract, eligible, p);
    }
    SameHistory(h, Full(disk, extract, eligible));
  }

  method UpsertFound(graph: T.FalkorStore, ex: ExtractedFile, head: T.Head, ghost h: History)
    requires GoodPath(ex.path) && ex.path !in h && R.Refines(graph.G(), h)
    modifies graph
    ensures R.Refines(graph.G(), h[ex.path := ex])
  {
    R.WriteKeeps(graph.G(), h, ex, head);
    G.UpsertGraph(graph, ex, Some(head));
  }

  /** A walk over every path of the disk into an empty graph builds the full index. */
  method IngestWalk(graph: T.FalkorStore, paths: seq<string>, disk: Tree, extract: Extractor, eligible: string -> bool,
                    head: T.Head)
    returns (files: nat)
    requires Proper(extract) && AllGood(paths) && graph.G() == T.EMPTY
    requires forall p :: p in paths <==> p in disk
    requires forall i, j :: 0 <= i < j < |paths| ==> paths[i] != paths[j]
    modifies graph
    ensures R.Refines(graph.G(), Full(disk, extract, eligible))
    ensures files == |Full(disk, extract, eligible)|
  {
    ghost var h: History := map[];
    files := 0;
    EmptyRefines();
    for i := 0 to |paths|
      invariant R.Refines(graph.G(), h) && files == |h|
      invariant Walked(h, paths[..i], disk, extract, eligible)
    {
      var p := paths[i];
      WalkOn(h, paths, i, disk, extract, eligible);
      assert p !in paths[..i] && At(h, p) == None && p in disk;
      if eligible(p) {
        var ex := extract(p, disk[p]);
        if ex.Some? {
          UpsertFound(graph, ex.value, head, h);
          h := h[p := ex.value];
          files := files + 1;
        }
      }
    }
    assert paths[..|paths|] == paths;
    WalkedAll(h, paths, disk, extract, eligible);
  }
}
