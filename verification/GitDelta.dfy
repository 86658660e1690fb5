/** Which paths a git-incremental ingest deletes and reingests. */
module GitDelta {
  import opened Wrappers
  import GraphIngest
  import opened TextOps
  import opened GitNames

  /** Path -> content, as a commit or the worktree holds it. */
  type Tree = map<string, string>

  /** One tab-separated line of `git diff --name-status`: status letter and paths. */
  datatype Line = Line(code: char, paths: seq<string>)

  /** One line of `git status --porcelain`: both status columns and what follows them. */
  datatype StatusLine = StatusLine(x: char, y: char, rest: string)

  datatype Delta = Delta(changed: seq<string>, deleted: seq<string>, dirty: seq<string>)

  function Content(t: Tree, path: string): Option<string> {
    if path in t then Some(t[path]) else None
  }

  // ---------------------------------------------------------------- line by line

  function ChangedBy(l: Line): seq<string> {
    if l.code in {'R', 'C'} && |l.paths| >= 2 then [l.paths[1]]
    else if l.code in {'A', 'M', 'T'} && |l.paths| >= 1 then [l.paths[0]]
    else []
  }

  function DeletedBy(l: Line): seq<string> {
    if l.code in {'R', 'C'} && |l.paths| >= 2 then [l.paths[0]]
    else if l.code == 'D' && |l.paths| >= 1 then [l.paths[0]]
    else []
  }

  predicate Ignored(l: StatusLine) {
    l.x == '!' && l.y == '!'
  }

  predicate Gone(l: StatusLine) {
    l.x == 'D' || l.y == 'D'
  }

  function DirtyBy(files: set<string>): StatusLine -> seq<string> {
    (l: StatusLine) => if l.rest == "" || Ignored(l) || Gone(l) || ReadRest(l.rest) !in files then []
      else [ReadRest(l.rest)]
  }

  /** Lines with an arrow are skipped, whatever happened to the old path. */
  function GoneBy(l: StatusLine): seq<string> {
    if l.rest == "" || Ignored(l) || Contains(Arrow(), l.rest) || !Gone(l) then [] else [l.rest]
  }

  function Gathered<L>(f: L -> seq<string>, lines: seq<L>): seq<string> {
    if lines == [] then [] else Gathered(f, lines[..|lines| - 1]) + f(lines[|lines| - 1])
  }

  lemma {:induction false} GatheredHas<L>(f: L -> seq<string>, lines: seq<L>, p: string)
    ensures p in Gathered(f, lines) <==> exists i :: 0 <= i < |lines| && p in f(lines[i])
  {
    if lines != [] {
      GatheredHas(f, lines[..|lines| - 1], p);
    }
  }

  lemma GatheredOne<L>(f: L -> seq<string>, line: L)
    ensures Gathered(f, [line]) == f(line)
  {
    assert [line][..0] == [];
    assert Gathered(f, [line][..0]) == [];
  }

  method Diff(lines: seq<Line>) returns (d: Delta)
    ensures d == Delta(Gathered(ChangedBy, lines), Gathered(DeletedBy, lines), [])
  {
    var changed, deleted := [], [];
    for i := 0 to |lines|
      invariant changed == Gathered(ChangedBy, lines[..i]) && deleted == Gathered(DeletedBy, lines[..i])
    {
      assert lines[..i + 1][..i] == lines[..i];
      var l := lines[i];
      if l.code in {'R', 'C'} && |l.paths| >= 2 {
        deleted := deleted + [l.paths[0]];
        changed := changed + [l.paths[1]];
      } else if l.code == 'D' && |l.paths| >= 1 {
        deleted := deleted + [l.paths[0]];
      } else if l.code in {'A', 'M', 'T'} && |l.paths| >= 1 {
        changed := changed + [l.paths[0]];
      }
    }
    assert lines[..|lines|] == lines;
    d := Delta(changed, deleted, []);
  }

  method DirtyFiles(lines: seq<StatusLine>, files: set<string>) returns (paths: seq<string>)
    ensures paths == Gathered(DirtyBy(files), lines)
  {
    paths := [];
    for i := 0 to |lines|
      invariant paths == Gathered(DirtyBy(files), lines[..i])
    {
      assert lines[..i + 1][..i] == lines[..i];
      if lines[i].rest != "" && !Ignored(lines[i]) && !Gone(lines[i]) {
        var path := ReadRest(lines[i].rest);
        if path in files {
          paths := paths + [path];
        }
      }
    }
    assert lines[..|lines|] == lines;
  }

  method DirtyDeletedFiles(lines: seq<StatusLine>) returns (paths: seq<string>)
    ensures paths == Gathered(GoneBy, lines)
  {
    paths := [];
    for i := 0 to |lines|
      invariant paths == Gathered(GoneBy, lines[..i])
    {
      assert lines[..i + 1][..i] == lines[..i];
      if lines[i].rest != "" && !Ignored(lines[i]) && !Contains(Arrow(), lines[i].rest) && Gone(lines[i]) {
        paths := paths + [lines[i].rest];
      }
    }
    assert lines[..|lines|] == lines;
  }

  function DeltaOf(lines: seq<Line>, status: seq<StatusLine>, files: set<string>): Delta {
    Delta(Gathered(ChangedBy, lines), Gathered(DeletedBy, lines) + Gathered(GoneBy, status),
          Gathered(DirtyBy(files), status))
  }

  method ChangedSince(lines: seq<Line>, status: seq<StatusLine>, files: set<string>,
                      includeDirty: bool) returns (d: Delta)
    ensures d == if includeDirty then DeltaOf(lines, status, files)
      else Delta(Gathered(ChangedBy, lines), Gathered(DeletedBy, lines), [])
  {
    d := Diff(lines);
    if includeDirty {
      var dirty := DirtyFiles(status, files);
      var gone := DirtyDeletedFiles(status);
      d := d.(dirty := d.dirty + dirty, deleted := d.deleted + gone);
    }
  }

  /** Changed and dirty paths, each once, in order of first appearance. */
  function Reingests(d: Delta): seq<string> {
    GraphIngest.Distinct(d.changed + d.dirty)
  }

  method ReingestPaths(d: Delta) returns (paths: seq<string>)
    ensures paths == Reingests(d)
  {
    paths := GraphIngest.CollectDistinct(d.changed + d.dirty);
  }

  // ---------------------------------------------------------------- what git reports

  /** What a status line is about, before it is printed; for a staged rename, also the
      path before it. */
  datatype Entry = Entry(x: char, y: char, path: string, renamedFrom: Option<string>)

  function StatusText(octal: Octal): Entry -> StatusLine {
    (e: Entry) => StatusLine(e.x, e.y, Rest(octal, e.path, e.renamedFrom))
  }

  function DiffText(octal: Octal): Line -> Line {
    (l: Line) => Line(l.code, Shown(octal, l.paths))
  }

  function Shown(octal: Octal, paths: seq<string>): (r: seq<string>)
    ensures |r| == |paths|
  {
    seq(|paths|, i requires 0 <= i < |paths| => DiffShown(octal, paths[i]))
  }

  function Printed<A, B>(f: A -> B, items: seq<A>): (r: seq<B>)
    ensures |r| == |items|
  {
    seq(|items|, i requires 0 <= i < |items| => f(items[i]))
  }

  /** The delta that the program computes from what git prints. */
  function Told(octal: Octal, lines: seq<Line>, status: seq<Entry>, files: set<string>): Delta {
    DeltaOf(Printed(DiffText(octal), lines), Printed(StatusText(octal), status), files)
  }

  /** The line says that the path is there: added, modified, of another type, or the new name of a rename or copy. */
  predicate Arrives(l: Line, p: string) {
    match l.code
    case 'A' => l.paths != [] && p == l.paths[0]
    case 'M' => l.paths != [] && p == l.paths[0]
    case 'T' => l.paths != [] && p == l.paths[0]
    case 'R' => |l.paths| >= 2 && p == l.paths[1]
    case 'C' => |l.paths| >= 2 && p == l.paths[1]
    case _ => false
  }

  /** The line is taken to say that the path is gone: deleted, or the old name of a rename or copy. */
  predicate Departs(l: Line, p: string) {
    match l.code
    case 'D' => l.paths != [] && p == l.paths[0]
    case 'R' => |l.paths| >= 2 && p == l.paths[0]
    case 'C' => |l.paths| >= 2 && p == l.paths[0]
    case _ => false
  }

  predicate ChangedIn(lines: seq<Line>, p: string) {
    exists i :: 0 <= i < |lines| && Arrives(lines[i], p)
  }

  predicate DeletedIn(lines: seq<Line>, p: string) {
    exists i :: 0 <= i < |lines| && Departs(lines[i], p)
  }

  predicate CopiedFrom(lines: seq<Line>, p: string) {
    exists i :: 0 <= i < |lines| && lines[i].code == 'C' && |lines[i].paths| >= 2 && lines[i].paths[0] == p
  }

  lemma LineSays(l: Line, p: string)
    ensures p in ChangedBy(l) <==> Arrives(l, p)
    ensures p in DeletedBy(l) <==> Departs(l, p)
  {
  }

  predicate IgnoredEntry(e: Entry) {
    e.x == '!' && e.y == '!'
  }

  predicate GoneEntry(e: Entry) {
    e.x == 'D' || e.y == 'D'
  }

  /** A line without a D column brings the path to the reader's eyes. */
  predicate SeenIn(octal: Octal, status: seq<Entry>, p: string) {
    exists i :: 0 <= i < |status| && status[i].path == p && !IgnoredEntry(status[i]) && !GoneEntry(status[i])
      && Readable(octal, p, status[i].renamedFrom)
  }

  /** A line of its own with a D column does. */
  predicate GoneIn(octal: Octal, status: seq<Entry>, p: string) {
    exists i :: 0 <= i < |status| && status[i].path == p && !IgnoredEntry(status[i]) && GoneEntry(status[i])
      && status[i].renamedFrom.None? && Readable(octal, p, None)
  }

  predicate RenamedAway(status: seq<Entry>, p: string) {
    exists i :: 0 <= i < |status| && status[i].renamedFrom == Some(p)
  }

  ghost predicate NamesGiven(status: seq<Entry>) {
    forall i :: 0 <= i < |status| ==> status[i].path != ""
  }

  // ---------------------------------------------------------------- exactly what the reader learns

  lemma ShownLine(octal: Octal, l: Line)
    ensures ChangedBy(DiffText(octal)(l)) == Shown(octal, ChangedBy(l))
    ensures DeletedBy(DiffText(octal)(l)) == Shown(octal, DeletedBy(l))
  {
  }

  lemma LineReads(octal: Octal, l: Line, p: string)
    ensures p in ChangedBy(DiffText(octal)(l)) <==> exists q :: Arrives(l, q) && DiffShown(octal, q) == p
    ensures p in DeletedBy(DiffText(octal)(l)) <==> exists q :: Departs(l, q) && DiffShown(octal, q) == p
  {
    ShownLine(octal, l);
    ShownHas(octal, ChangedBy(l), p);
    ShownHas(octal, DeletedBy(l), p);
    forall q {
      LineSays(l, q);
    }
  }

  lemma DiffReads(octal: Octal, lines: seq<Line>, p: string)
    ensures
      var printed := Printed(DiffText(octal), lines);
      && (p in Gathered(ChangedBy, printed) <==>
          exists i, q :: 0 <= i < |lines| && Arrives(lines[i], q) && DiffShown(octal, q) == p)
      && (p in Gathered(DeletedBy, printed) <==>
          exists i, q :: 0 <= i < |lines| && Departs(lines[i], q) && DiffShown(octal, q) == p)
  {
    var printed := Printed(DiffText(octal), lines);
    GatheredHas(ChangedBy, printed, p);
    GatheredHas(DeletedBy, printed, p);
    forall i | 0 <= i < |lines|
      ensures p in ChangedBy(printed[i]) <==> exists q :: Arrives(lines[i], q) && DiffShown(octal, q) == p
      ensures p in DeletedBy(printed[i]) <==> exists q :: Departs(lines[i], q) && DiffShown(octal, q) == p
    {
      LineReads(octal, lines[i], p);
    }
  }

  lemma ShownHas(octal: Octal, paths: seq<string>, p: string)
    ensures p in Shown(octal, paths) <==> exists q :: q in paths && DiffShown(octal, q) == p
  {
    if q :| q in paths && DiffShown(octal, q) == p {
      var i :| 0 <= i < |paths| && paths[i] == q;
      assert Shown(octal, paths)[i] == p;
    }
  }

  /** The printed entry makes the reader look at `p`. */
  predicate ReadsAs(octal: Octal, e: Entry, p: string) {
    !IgnoredEntry(e) && !GoneEntry(e) && ReadRest(Rest(octal, e.path, e.renamedFrom)) == p
  }

  predicate GoneAs(octal: Octal, e: Entry, p: string) {
    !IgnoredEntry(e) && GoneEntry(e) && Rest(octal, e.path, e.renamedFrom) == p && !Contains(Arrow(), p)
  }

  lemma StatusReads(octal: Octal, status: seq<Entry>, files: set<string>, p: string)
    requires Proper(octal) && NamesGiven(status)
    ensures
      var printed := Printed(StatusText(octal), status);
      && (p in Gathered(DirtyBy(files), printed) <==>
          p in files && exists i :: 0 <= i < |status| && ReadsAs(octal, status[i], p))
      && (p in Gathered(GoneBy, printed) <==> exists i :: 0 <= i < |status| && GoneAs(octal, status[i], p))
  {
    var printed := Printed(StatusText(octal), status);
    GatheredHas(DirtyBy(files), printed, p);
    GatheredHas(GoneBy, printed, p);
    forall i | 0 <= i < |status|
      ensures printed[i] == StatusText(octal)(status[i]) && printed[i].rest != ""
    {
      ShownEnds(octal, status[i].path);
    }
  }

  /** A path is reingested when a diff line or a status line of its own brings it. */
  lemma ReingestedIf(octal: Octal, lines: seq<Line>, status: seq<Entry>, files: set<string>, p: string)
    requires Proper(octal) && NamesGiven(status)
    requires (Bare(p) && ChangedIn(lines, p)) || (p in files && SeenIn(octal, status, p))
    ensures p in Told(octal, lines, status, files).changed || p in Told(octal, lines, status, files).dirty
  {
    DiffReads(octal, lines, p);
    StatusReads(octal, status, files, p);
    if Bare(p) && ChangedIn(lines, p) {
      var i :| 0 <= i < |lines| && Arrives(lines[i], p);
      assert DiffShown(octal, p) == p;
    }
    if p in files && SeenIn(octal, status, p) {
      var i :| 0 <= i < |status| && status[i].path == p && !IgnoredEntry(status[i]) && !GoneEntry(status[i])
        && Readable(octal, p, status[i].renamedFrom);
      ReadsBackIff(octal, p, status[i].renamedFrom);
      assert ReadsAs(octal, status[i], p);
    }
  }

  /** Another path's line, as it is printed and read, names this path. */
  ghost predicate MistakenForChanged(octal: Octal, lines: seq<Line>, p: string) {
    exists i, q :: 0 <= i < |lines| && Arrives(lines[i], q) && q != p && DiffShown(octal, q) == p
  }

  ghost predicate MistakenForDeleted(octal: Octal, lines: seq<Line>, p: string) {
    exists i, q :: 0 <= i < |lines| && Departs(lines[i], q) && q != p && DiffShown(octal, q) == p
  }

  predicate MistakenForSeen(octal: Octal, status: seq<Entry>, p: string) {
    exists i :: 0 <= i < |status| && status[i].path != p && ReadsAs(octal, status[i], p)
  }

  predicate MistakenForGone(octal: Octal, status: seq<Entry>, p: string) {
    exists i :: 0 <= i < |status| && status[i].path != p && GoneAs(octal, status[i], p)
  }

  /** And only then, unless another path's line is taken for it. */
  lemma ReingestedIff(octal: Octal, lines: seq<Line>, status: seq<Entry>, files: set<string>, p: string)
    requires Proper(octal) && NamesGiven(status)
    ensures p in Told(octal, lines, status, files).changed || p in Told(octal, lines, status, files).dirty <==>
      || (Bare(p) && ChangedIn(lines, p)) || MistakenForChanged(octal, lines, p)
      || (p in files && (SeenIn(octal, status, p) || MistakenForSeen(octal, status, p)))
  {
    if (Bare(p) && ChangedIn(lines, p)) || (p in files && SeenIn(octal, status, p)) {
      ReingestedIf(octal, lines, status, files, p);
    }
    DiffReads(octal, lines, p);
    StatusReads(octal, status, files, p);
    ShownHeads(octal, p);
    forall i | 0 <= i < |status| && ReadsAs(octal, status[i], p)
      ensures SeenIn(octal, status, p) || MistakenForSeen(octal, status, p)
    {
      ReadsBackIff(octal, status[i].path, status[i].renamedFrom);
    }
  }

  lemma DeletedIff(octal: Octal, lines: seq<Line>, status: seq<Entry>, files: set<string>, p: string)
    requires Proper(octal) && NamesGiven(status)
    ensures p in Told(octal, lines, status, files).deleted <==>
      || (Bare(p) && DeletedIn(lines, p)) || MistakenForDeleted(octal, lines, p)
      || GoneIn(octal, status, p) || MistakenForGone(octal, status, p)
  {
    DiffReads(octal, lines, p);
    StatusReads(octal, status, files, p);
    ShownHeads(octal, p);
    GoneIff(octal, status, p);
    if Bare(p) && DeletedIn(lines, p) {
      var i :| 0 <= i < |lines| && Departs(lines[i], p);
      assert DiffShown(octal, p) == p;
    }
  }

  lemma GoneIff(octal: Octal, status: seq<Entry>, p: string)
    requires Proper(octal) && NamesGiven(status)
    ensures (exists i :: 0 <= i < |status| && GoneAs(octal, status[i], p)) <==>
      GoneIn(octal, status, p) || MistakenForGone(octal, status, p)
  {
    forall i | 0 <= i < |status| && GoneAs(octal, status[i], p) && status[i].path == p
      ensures GoneIn(octal, status, p)
    {
      NoArrowNoRename(octal, status[i]);
      ReadsBackIff(octal, p, status[i].renamedFrom);
    }
    if GoneIn(octal, status, p) {
      var i :| 0 <= i < |status| && status[i].path == p && !IgnoredEntry(status[i]) && GoneEntry(status[i])
        && status[i].renamedFrom.None? && Readable(octal, p, None);
      assert GoneAs(octal, status[i], p);
    }
  }

  /** The printed name holds an arrow; of a rename, the old one. */
  predicate HasArrow(octal: Octal, e: Entry) {
    Contains(Arrow(), StatusShown(octal, if e.renamedFrom.Some? then e.renamedFrom.value else e.path))
  }

  /** Without such an arrow the reader sees the path as it is printed. */
  lemma ReadsAsShown(octal: Octal, e: Entry)
    requires Proper(octal) && e.path != "" && !HasArrow(octal, e)
    ensures ReadRest(Rest(octal, e.path, e.renamedFrom)) == StatusShown(octal, e.path)
  {
    if e.renamedFrom.Some? {
      RenameReads(octal, e.path, e.renamedFrom.value);
    }
  }

  lemma MistakenIsQuoted(octal: Octal, e: Entry, p: string)
    requires Proper(octal) && e.path != "" && e.path != p && !HasArrow(octal, e)
    requires ReadsAs(octal, e, p) || GoneAs(octal, e, p)
    ensures p != "" && p[0] == '"'
  {
    ReadsAsShown(octal, e);
    if GoneAs(octal, e, p) {
      NoArrowNoRename(octal, e);
    }
  }

  /** Only a name that starts with a quote, or one that some line holds behind an arrow
      of its own, is ever mistaken. */
  lemma MistakesNeedOddNames(octal: Octal, lines: seq<Line>, status: seq<Entry>, p: string)
    requires Proper(octal) && NamesGiven(status)
    requires MistakenForChanged(octal, lines, p) || MistakenForDeleted(octal, lines, p)
      || MistakenForSeen(octal, status, p) || MistakenForGone(octal, status, p)
    ensures (p != "" && p[0] == '"') || exists i :: 0 <= i < |status| && HasArrow(octal, status[i])
  {
    forall i | 0 <= i < |status| && status[i].path != p && !HasArrow(octal, status[i])
      && (ReadsAs(octal, status[i], p) || GoneAs(octal, status[i], p))
      ensures p != "" && p[0] == '"'
    {
      MistakenIsQuoted(octal, status[i], p);
    }
  }

  lemma NoArrowNoRename(octal: Octal, e: Entry)
    requires !Contains(Arrow(), Rest(octal, e.path, e.renamedFrom))
    ensures e.renamedFrom.None?
    ensures ReadRest(Rest(octal, e.path, e.renamedFrom)) == Rest(octal, e.path, e.renamedFrom)
  {
    if e.renamedFrom.Some? {
      RenameHasArrow(octal, e.path, e.renamedFrom.value);
    }
  }

  lemma RenameHasArrow(octal: Octal, p: string, was: string)
    ensures Contains(Arrow(), Rest(octal, p, Some(was)))
  {
    var tail := [' '] + StatusShown(octal, p);
    ArrowChars();
    AtFront(Arrow(), tail);
    IndexSeparated(Arrow(), StatusShown(octal, was), ' ', Arrow() + tail);
    assert Rest(octal, p, Some(was)) == StatusShown(octal, was) + [' '] + (Arrow() + tail);
  }

  // ---------------------------------------------------------------- two commits and a worktree

  /** The path is in the later commit and differs from the earlier one. */
  predicate CommittedChange(base: Tree, head: Tree, p: string) {
    p in head && Content(base, p) != Content(head, p)
  }

  predicate CommittedRemoval(base: Tree, head: Tree, p: string) {
    p in base && p !in head
  }

  /** What a diff line claims, by its letter. */
  predicate TrueLine(l: Line, base: Tree, head: Tree) {
    match l.code
    case 'A' => |l.paths| == 1 && CommittedChange(base, head, l.paths[0])
    case 'M' => |l.paths| == 1 && CommittedChange(base, head, l.paths[0])
    case 'T' => |l.paths| == 1 && CommittedChange(base, head, l.paths[0])
    case 'D' => |l.paths| == 1 && CommittedRemoval(base, head, l.paths[0])
    case 'R' =>
      |l.paths| == 2 && CommittedRemoval(base, head, l.paths[0]) && CommittedChange(base, head, l.paths[1])
    case 'C' => |l.paths| == 2 && l.paths[0] in base && CommittedChange(base, head, l.paths[1])
    case _ => true
  }

  /** The path is the only one of such a line, or its new one. */
  predicate ToldChanged(l: Line, p: string) {
    || (l.code in {'A', 'M', 'T'} && l.paths == [p])
    || (l.code in {'R', 'C'} && |l.paths| == 2 && l.paths[1] == p)
  }

  predicate ToldRemoved(l: Line, p: string) {
    (l.code == 'D' && l.paths == [p]) || (l.code == 'R' && |l.paths| == 2 && l.paths[0] == p)
  }

  /** Path -> content and mode. What the lines of the diff claim is true, and every
      change and every removal between the two commits has a line. */
  ghost predicate DiffReport(lines: seq<Line>, base: Tree, head: Tree) {
    && (forall i :: 0 <= i < |lines| ==> TrueLine(lines[i], base, head))
    && (forall p :: CommittedChange(base, head, p) ==> exists i :: 0 <= i < |lines| && ToldChanged(lines[i], p))
    && (forall p :: CommittedRemoval(base, head, p) ==> exists i :: 0 <= i < |lines| && ToldRemoved(lines[i], p))
  }

  /** So the lines name as changed what changed, and as deleted what went and what was copied. */
  lemma DiffTells(lines: seq<Line>, base: Tree, head: Tree, p: string)
    requires DiffReport(lines, base, head)
    ensures ChangedIn(lines, p) <==> CommittedChange(base, head, p)
    ensures DeletedIn(lines, p) <==> CommittedRemoval(base, head, p) || CopiedFrom(lines, p)
  {
    if ChangedIn(lines, p) {
      var i :| 0 <= i < |lines| && Arrives(lines[i], p);
      assert TrueLine(lines[i], base, head);
    }
    if DeletedIn(lines, p) {
      var i :| 0 <= i < |lines| && Departs(lines[i], p);
      assert TrueLine(lines[i], base, head);
    }
    if CommittedChange(base, head, p) {
      var i :| 0 <= i < |lines| && ToldChanged(lines[i], p);
      assert Arrives(lines[i], p);
    }
    if CommittedRemoval(base, head, p) {
      var i :| 0 <= i < |lines| && ToldRemoved(lines[i], p);
      assert Departs(lines[i], p);
    }
    if CopiedFrom(lines, p) {
      var i :| 0 <= i < |lines| && lines[i].code == 'C' && |lines[i].paths| >= 2 && lines[i].paths[0] == p;
      assert Departs(lines[i], p);
    }
  }

  predicate OwnGone(status: seq<Entry>, p: string) {
    exists i :: 0 <= i < |status| && status[i].path == p && !IgnoredEntry(status[i]) && GoneEntry(status[i]) &&
      status[i].renamedFrom.None?
  }

  predicate Mentioned(status: seq<Entry>, p: string) {
    exists i :: 0 <= i < |status| && status[i].path == p && !IgnoredEntry(status[i])
  }

  /** The status mentions every path of the worktree that differs from the commit, with
      whatever columns; a vanished one has a line with a D column or was renamed away. */
  ghost predicate StatusReport(status: seq<Entry>, head: Tree, disk: Tree) {
    && NamesGiven(status)
    && (forall p :: p in disk && Content(head, p) != Content(disk, p) ==> Mentioned(status, p))
    && (forall p :: p in head && p !in disk ==> OwnGone(status, p) || RenamedAway(status, p))
  }

  /** The delta deals with the path: it reingests it if it is there, and deletes it if not. */
  predicate Handled(d: Delta, disk: Tree, p: string) {
    if p in disk then p in d.changed || p in d.dirty else p in d.deleted
  }

  /** Every path whose content is not the indexed one is dealt with. */
  ghost predicate Covers(d: Delta, was: Tree, disk: Tree) {
    forall p :: Content(was, p) != Content(disk, p) ==> Handled(d, disk, p)
  }

  /** A committed change under a name that the diff leaves bare, a status line without
      a D column and with a readable name, or the misread line of another path. */
  ghost predicate ToldToReingest(octal: Octal, lines: seq<Line>, status: seq<Entry>, base: Tree, head: Tree,
                                 p: string) {
    || (Bare(p) && CommittedChange(base, head, p)) || SeenIn(octal, status, p)
    || MistakenForChanged(octal, lines, p) || MistakenForSeen(octal, status, p)
  }

  /** A committed removal, or a copy, under a bare name, a readable status line of the
      path's own with a D column, or the misread line of another path. */
  ghost predicate ToldToDelete(octal: Octal, lines: seq<Line>, status: seq<Entry>, base: Tree, head: Tree, p: string) {
    || (Bare(p) && (CommittedRemoval(base, head, p) || CopiedFrom(lines, p))) || GoneIn(octal, status, p)
    || MistakenForDeleted(octal, lines, p) || MistakenForGone(octal, status, p)
  }

  /** Git's reports bring the path to the reader. */
  ghost predicate Reported(octal: Octal, lines: seq<Line>, status: seq<Entry>, base: Tree, head: Tree, disk: Tree,
                           p: string) {
    if p in disk then ToldToReingest(octal, lines, status, base, head, p)
    else ToldToDelete(octal, lines, status, base, head, p)
  }

  /** What the theorems assume of git. */
  ghost predicate GitReports(octal: Octal, lines: seq<Line>, status: seq<Entry>, base: Tree, head: Tree, disk: Tree) {
    Proper(octal) && DiffReport(lines, base, head) && StatusReport(status, head, disk)
  }

  lemma HandledIff(octal: Octal, lines: seq<Line>, status: seq<Entry>, base: Tree, head: Tree, disk: Tree, p: string)
    requires GitReports(octal, lines, status, base, head, disk)
    ensures Handled(Told(octal, lines, status, disk.Keys), disk, p) <==>
      Reported(octal, lines, status, base, head, disk, p)
  {
    DiffTells(lines, base, head, p);
    ReingestedIff(octal, lines, status, disk.Keys, p);
    DeletedIff(octal, lines, status, disk.Keys, p);
  }

  /** Whatever was indexed: the delta covers every difference to the worktree exactly
      when git's reports bring every such path to the reader. */
  lemma CoversIff(octal: Octal, lines: seq<Line>, status: seq<Entry>, was: Tree, base: Tree, head: Tree, disk: Tree)
    requires GitReports(octal, lines, status, base, head, disk)
    ensures Covers(Told(octal, lines, status, disk.Keys), was, disk) <==>
      forall p :: Content(was, p) != Content(disk, p) ==> Reported(octal, lines, status, base, head, disk, p)
  {
    forall p | Content(was, p) != Content(disk, p)
      ensures Handled(Told(octal, lines, status, disk.Keys), disk, p) <==>
        Reported(octal, lines, status, base, head, disk, p)
    {
      HandledIff(octal, lines, status, base, head, disk, p);
    }
  }

  /** Every status line of the path has a D column or an unreadable name. */
  predicate Blind(octal: Octal, status: seq<Entry>, p: string) {
    forall i :: 0 <= i < |status| && status[i].path == p && !IgnoredEntry(status[i]) ==>
      GoneEntry(status[i]) || !Readable(octal, p, status[i].renamedFrom)
  }

  /** Another path's line is taken for what this one needs. */
  ghost predicate Mistaken(octal: Octal, lines: seq<Line>, status: seq<Entry>, disk: Tree, p: string) {
    if p in disk then MistakenForChanged(octal, lines, p) || MistakenForSeen(octal, status, p)
    else MistakenForDeleted(octal, lines, p) || MistakenForGone(octal, status, p)
  }

  /** Which differences to the recorded commit stay unreported, if no other name is
      mistaken for theirs: a committed one under a quoted name, an uncommitted one with
      nothing but D columns or unreadable names, and a removal under an unreadable name
      or behind a staged rename. */
  lemma UnreportedIff(octal: Octal, lines: seq<Line>, status: seq<Entry>, base: Tree, head: Tree, disk: Tree, p: string)
    requires GitReports(octal, lines, status, base, head, disk) && Content(base, p) != Content(disk, p)
    ensures !Reported(octal, lines, status, base, head, disk, p) <==>
      && !Mistaken(octal, lines, status, disk, p)
      && if p in disk then
           if CommittedChange(base, head, p) then !Bare(p) else Mentioned(status, p) && Blind(octal, status, p)
         else if p !in head then !Bare(p)
         else !(Bare(p) && CopiedFrom(lines, p)) && (!Readable(octal, p, None) ||
                                                     (RenamedAway(status, p) && !OwnGone(status, p)))
  {
    if SeenIn(octal, status, p) || GoneIn(octal, status, p) {
      assert BareInStatus(p);
    }
    if p in disk && !CommittedChange(base, head, p) {
      assert Content(head, p) != Content(disk, p);
    }
  }

  /** A path that is back at the recorded content, after an ingest has indexed another,
      is reported by nothing. */
  lemma GoneBackIsUnreported(octal: Octal, lines: seq<Line>, status: seq<Entry>, base: Tree, head: Tree, disk: Tree,
                             p: string)
    requires Content(base, p) == Content(head, p) == Content(disk, p)
    requires !Mentioned(status, p) && !CopiedFrom(lines, p) && !Mistaken(octal, lines, status, disk, p)
    ensures !Reported(octal, lines, status, base, head, disk, p)
  {
  }

  /** Which paths are deleted although they exist and are not reingested: sources of
      copies, removals since recreated, and paths with a D column, as in a conflict of
      a change with a deletion, where no other line brings them back. */
  lemma DeletedButPresent(octal: Octal, lines: seq<Line>, status: seq<Entry>, base: Tree, head: Tree, disk: Tree,
                          p: string)
    requires GitReports(octal, lines, status, base, head, disk) && p in disk
    ensures
      var d := Told(octal, lines, status, disk.Keys);
      p in d.deleted && p !in d.changed && p !in d.dirty <==>
        ToldToDelete(octal, lines, status, base, head, p) && !ToldToReingest(octal, lines, status, base, head, p)
  {
    DiffTells(lines, base, head, p);
    ReingestedIff(octal, lines, status, disk.Keys, p);
    DeletedIff(octal, lines, status, disk.Keys, p);
  }

  // ---------------------------------------------------------------- one committed change

  function Only(p: string, text: string): Tree {
    map[p := text]
  }

  /** One diff line and no status line. */
  lemma OneLine(octal: Octal, l: Line, files: set<string>)
    ensures Told(octal, [l], [], files) ==
      Delta(Shown(octal, ChangedBy(l)), Shown(octal, DeletedBy(l)), [])
  {
    assert Printed(DiffText(octal), [l]) == [DiffText(octal)(l)];
    assert Printed(StatusText(octal), []) == [];
    ShownLine(octal, l);
    GatheredOne(ChangedBy, DiffText(octal)(l));
    GatheredOne(DeletedBy, DiffText(octal)(l));
  }

  lemma BareAsIs(octal: Octal, p: string)
    requires Bare(p)
    ensures Shown(octal, [p]) == [p] && Shown(octal, []) == []
  {
  }

  /** A renamed file: the new name is reingested and the old one deleted. */
  lemma RenameIsFollowed(octal: Octal, was: string, name: string, text: string)
    requires Proper(octal) && Bare(was) && Bare(name) && was != name
    ensures
      var base, head, lines := Only(was, text), Only(name, text), [Line('R', [was, name])];
      GitReports(octal, lines, [], base, head, head) && Told(octal, lines, [], head.Keys) == Delta([name], [was], [])
  {
    var base, head, l := Only(was, text), Only(name, text), Line('R', [was, name]);
    assert [l][0] == l && TrueLine(l, base, head) && ToldChanged([l][0], name) && ToldRemoved([l][0], was);
    OneLine(octal, l, head.Keys);
    BareAsIs(octal, was);
    BareAsIs(octal, name);
  }

  /** A copied file: the new name is reingested, and the source is deleted although it stays. */
  lemma CopyDropsItsSource(octal: Octal, source: string, name: string, text: string)
    requires Proper(octal) && Bare(source) && Bare(name) && source != name
    ensures
      var base, head, lines := Only(source, text), Only(source, text)[name := text], [Line('C', [source, name])];
      GitReports(octal, lines, [], base, head, head) && Told(octal, lines, [], head.Keys) == Delta([name], [source], [])
  {
    var base, head, l := Only(source, text), Only(source, text)[name := text], Line('C', [source, name]);
    assert [l][0] == l && TrueLine(l, base, head) && ToldChanged([l][0], name);
    OneLine(octal, l, head.Keys);
    BareAsIs(octal, source);
    BareAsIs(octal, name);
  }

  /** An added file is reingested. */
  lemma AdditionIsFollowed(octal: Octal, p: string, text: string)
    requires Proper(octal) && Bare(p)
    ensures
      var base: Tree, head, lines := map[], Only(p, text), [Line('A', [p])];
      GitReports(octal, lines, [], base, head, head) && Told(octal, lines, [], head.Keys) == Delta([p], [], [])
  {
    var base: Tree, head, l := map[], Only(p, text), Line('A', [p]);
    assert [l][0] == l && TrueLine(l, base, head) && ToldChanged([l][0], p);
    OneLine(octal, l, head.Keys);
    BareAsIs(octal, p);
  }

  lemma ModificationIsReported(code: char, p: string, was: string, now: string)
    requires was != now && (code == 'M' || code == 'T')
    ensures DiffReport([Line(code, [p])], Only(p, was), Only(p, now))
  {
    var base, head, l := Only(p, was), Only(p, now), Line(code, [p]);
    assert TrueLine(l, base, head) && ToldChanged([l][0], p);
  }

  /** So is one that was modified, or that became a link or an executable. */
  lemma ModificationIsFollowed(octal: Octal, code: char, p: string, was: string, now: string)
    requires Proper(octal) && Bare(p) && was != now && (code == 'M' || code == 'T')
    ensures
      var base, head, lines := Only(p, was), Only(p, now), [Line(code, [p])];
      GitReports(octal, lines, [], base, head, head) && Told(octal, lines, [], head.Keys) == Delta([p], [], [])
  {
    var head, l := Only(p, now), Line(code, [p]);
    ModificationIsReported(code, p, was, now);
    OneLine(octal, l, head.Keys);
    BareAsIs(octal, p);
  }

  /** A removed file is deleted. */
  lemma RemovalIsFollowed(octal: Octal, p: string, text: string)
    requires Proper(octal) && Bare(p)
    ensures
      var base, head: Tree, lines := Only(p, text), map[], [Line('D', [p])];
      GitReports(octal, lines, [], base, head, head) && Told(octal, lines, [], head.Keys) == Delta([], [p], [])
  {
    var base, head: Tree, l := Only(p, text), map[], Line('D', [p]);
    assert [l][0] == l && TrueLine(l, base, head) && ToldRemoved([l][0], p);
    OneLine(octal, l, head.Keys);
    BareAsIs(octal, p);
  }

  // ---------------------------------------------------------------- inputs at which it fails

  /** One status line and no diff line. */
  lemma OneEntry(octal: Octal, e: Entry, files: set<string>)
    ensures Told(octal, [], [e], files) == Delta([], GoneBy(StatusText(octal)(e)), DirtyBy(files)(StatusText(octal)(e)))
  {
    assert Printed(StatusText(octal), [e]) == [StatusText(octal)(e)];
    assert Printed(DiffText(octal), []) == [];
    GatheredOne(GoneBy, StatusText(octal)(e));
    GatheredOne(DirtyBy(files), StatusText(octal)(e));
    assert [] + GoneBy(StatusText(octal)(e)) == GoneBy(StatusText(octal)(e));
  }

  /** We changed a file that the other side of a merge deleted: it is on disk, as it is
      in the commit, and the delta deletes it. */
  lemma DeletedByThem(octal: Octal, p: string, text: string)
    requires Proper(octal) && p != "" && Readable(octal, p, None)
    ensures
      var tree, status := Only(p, text), [Entry('U', 'D', p, None)];
      GitReports(octal, [], status, tree, tree, tree) && Told(octal, [], status, tree.Keys) == Delta([], [p], [])
  {
    var tree, e := Only(p, text), Entry('U', 'D', p, None);
    OneEntry(octal, e, tree.Keys);
  }

  /** We deleted a file that the other side changed: their version is on disk, and the
      delta does not reingest it. */
  lemma DeletedByUs(octal: Octal, p: string, ours: string, theirs: string)
    requires Proper(octal) && p != "" && Readable(octal, p, None) && ours != theirs
    ensures
      var base, head: Tree, disk := Only(p, ours), map[], Only(p, theirs);
      var lines, status := [Line('D', [p])], [Entry('D', 'U', p, None)];
      GitReports(octal, lines, status, base, head, disk) && !Covers(Told(octal, lines, status, disk.Keys), base, disk)
  {
    var base, head: Tree, disk := Only(p, ours), map[], Only(p, theirs);
    var line, e := Line('D', [p]), Entry('D', 'U', p, None);
    var lines, status := [line], [e];
    assert lines[0] == line && status[0] == e && status[0].path == p;
    assert DeletedBy(line) == [p] && ChangedBy(line) == [] && ToldRemoved(lines[0], p);
    assert Mentioned(status, p);
    assert Printed(StatusText(octal), status) == [StatusText(octal)(e)];
    assert Printed(DiffText(octal), lines) == [DiffText(octal)(line)];
    GatheredOne(DirtyBy(disk.Keys), StatusText(octal)(e));
    GatheredOne(ChangedBy, DiffText(octal)(line));
    assert Content(base, p) != Content(disk, p) && p in disk;
  }

  /** A new file whose name holds a blank, a quote, an arrow or anything beyond ASCII is
      not read back from the status. */
  lemma UnreadableNameIsMissed(octal: Octal, p: string, text: string)
    requires Proper(octal) && p != "" && !Readable(octal, p, None)
    ensures
      var none: Tree, disk, status := map[], Only(p, text), [Entry('?', '?', p, None)];
      GitReports(octal, [], status, none, none, disk) && !Covers(Told(octal, [], status, disk.Keys), none, disk)
  {
    var none: Tree, disk, e := map[], Only(p, text), Entry('?', '?', p, None);
    var status := [e];
    OneEntry(octal, e, disk.Keys);
    ReadsBackIff(octal, p, None);
    assert status[0] == e && Mentioned(status, p);
    assert Content(none, p) != Content(disk, p);
  }

  /** A committed change under a name that the diff quotes is not read back either. */
  lemma QuotedChangeIsMissed(octal: Octal, p: string, was: string, now: string)
    requires Proper(octal) && p != "" && !Bare(p) && was != now
    ensures
      var base, head, lines := Only(p, was), Only(p, now), [Line('M', [p])];
      GitReports(octal, lines, [], base, head, head) && !Covers(Told(octal, lines, [], head.Keys), base, head)
  {
    var base, head, line := Only(p, was), Only(p, now), Line('M', [p]);
    var lines := [line];
    assert lines[0] == line && ChangedBy(line) == [p] && DeletedBy(line) == [];
    assert ToldChanged(lines[0], p);
    ShownHeads(octal, p);
    assert Printed(DiffText(octal), lines) == [DiffText(octal)(line)];
    ShownLine(octal, line);
    GatheredOne(ChangedBy, DiffText(octal)(line));
    assert Printed(StatusText(octal), []) == [];
    assert Shown(octal, [p]) == [DiffShown(octal, p)];
    assert Content(base, p) != Content(head, p);
  }

  /** One staged rename is enough: the old path is gone from the worktree, no commit
      has changed, and the delta leaves it in the index. */
  lemma StagedRenameIsMissed(octal: Octal, was: string, name: string, text: string)
    requires Proper(octal) && was != name && was != "" && name != ""
    ensures
      var base, disk, status := Only(was, text), Only(name, text), [Entry('R', ' ', name, Some(was))];
      GitReports(octal, [], status, base, base, disk) && !Covers(Told(octal, [], status, disk.Keys), base, disk)
  {
    var base, disk, e := Only(was, text), Only(name, text), Entry('R', ' ', name, Some(was));
    var status := [e];
    OneEntry(octal, e, disk.Keys);
    assert status[0] == e && RenamedAway(status, was) && Mentioned(status, name);
    assert GoneBy(StatusText(octal)(e)) == [];
    assert Content(base, was) != Content(disk, was);
  }
}
