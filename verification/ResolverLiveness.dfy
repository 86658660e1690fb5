/** What tombstones do to the resolver: its load query does not ask whether a definition is still alive. */
module ResolverLiveness {
  import opened Wrappers
  import opened Extraction
  import opened SymbolKeys
  import opened Resolver
  import opened ResolverOrder
  import T = TemporalGraph
  import G = GraphIngest
  import R = GraphRefinement

  // ---------------------------------------------------------------- the load query on the temporal graph

  /** `MATCH (f:File)-[:DEFINES]->(s:Symbol) WHERE s.unresolved IS NULL`. */
  predicate Loaded(g: T.Graph, e: T.EdgeId) {
    && e in g.edges && e.etype == T.Defines && e.src.tag == T.File && e.dst.tag == T.Symbol
    && e.src in g.nodes && e.dst in g.nodes && T.UnresolvedP !in g.nodes[e.dst].props
  }

  /** A missing name is no text, like the empty one; the pipeline always writes a start. */
  function RowOf(g: T.Graph, e: T.EdgeId): Def
    requires Loaded(g, e)
  {
    var s := g.nodes[e.dst];
    Def(e.src.key, match T.Prop(s, T.NameP) case Some(Text(name)) => name case _ => "",
        e.dst.key,
        match T.Prop(s, T.ParamsP) case Some(Number(n)) => Some(n) case _ => None,
        match T.Prop(s, T.NamespaceP) case Some(Text(n)) => (if n == "" then None else Some(n)) case _ => None,
        match T.Prop(s, T.StartP) case Some(Number(n)) => (if n < 0 then 0 else n) case _ => 0)
  }

  function EdgeOf(d: Def): T.EdgeId {
    T.DefinesEdge(d.file, d.key)
  }

  /** The rows of the query: one for each edge, ordered by start. */
  ghost predicate Loads(rows: seq<Def>, g: T.Graph) {
    && Ordered(rows)
    && (forall d :: d in rows ==> Loaded(g, EdgeOf(d)) && d == RowOf(g, EdgeOf(d)))
    && (forall e :: Loaded(g, e) ==> RowOf(g, e) in rows)
    && (forall i, j :: 0 <= i < j < |rows| ==> rows[i] != rows[j])
  }

  /** What `definitions` asks for and the load query does not. */
  function Alive(g: T.Graph): Def -> bool {
    (d: Def) => R.LiveNode(g, T.FileNode(d.file)) && R.LiveNode(g, T.SymbolNode(d.key))
  }

  /** The rows that the query would return if it asked. */
  function Living(rows: seq<Def>, g: T.Graph): seq<Def> {
    Select(rows, Alive(g))
  }

  /** The row says what the declaration says; where the declaration gives no namespace or no parameters, the row may
      hold an earlier one's. */
  predicate DeclaredRow(d: Def, s: Sym) {
    && d.name == s.name && d.start == s.startLine
    && (s.namespace.GetOr("") != "" ==> d.namespace == s.namespace)
    && (s.paramCount.Some? ==> d.params == Some(s.paramCount.value as int))
  }

  /** After every run of stamped steps, the living file-scoped rows are the symbols of the
      last extractions, with what the deciding declaration says. */
  lemma LivingAreCurrent(steps: seq<R.Step>, rows: seq<Def>, path: string, key: string)
    requires R.GoodRun(steps) && Loads(rows, R.Run(steps)) && FileScoped(key)
    ensures
      var last := R.HistoryOf(steps);
      && ((exists d :: d in Living(rows, R.Run(steps)) && d.file == path && d.key == key) <==>
          path == Owner(key) && R.Keeps(last, key))
      && (forall d :: d in Living(rows, R.Run(steps)) && d.file == path && d.key == key ==>
           DeclaredRow(d, R.Declaration(last[path], key)))
  {
    var g, last := R.Run(steps), R.HistoryOf(steps);
    R.RunRefines(steps);
    SelectSound(rows, Alive(g));
    forall d | d in Living(rows, g) && d.file == path && d.key == key
      ensures path == Owner(key) && R.Keeps(last, key)
      ensures DeclaredRow(d, R.Declaration(last[path], key))
    {
      LivingIsKept(g, last, d);
    }
    if path == Owner(key) && R.Keeps(last, key) {
      KeptIsLoaded(g, last, path, key);
      var d := RowOf(g, T.DefinesEdge(path, key));
      assert d in rows && Alive(g)(d);
    }
  }

  lemma LivingIsKept(g: T.Graph, last: R.History, d: Def)
    requires R.Refines(g, last) && FileScoped(d.key) && Loaded(g, EdgeOf(d)) && d == RowOf(g, EdgeOf(d)) && Alive(g)(d)
    ensures d.file == Owner(d.key) && R.Keeps(last, d.key)
    ensures DeclaredRow(d, R.Declaration(last[d.file], d.key))
  {
    assert R.SymbolAgrees(g, last, d.key);
    assert T.DefinesEdge(d.file, d.key) in g.edges;
  }

  lemma KeptIsLoaded(g: T.Graph, last: R.History, path: string, key: string)
    requires R.Refines(g, last) && FileScoped(key) && path == Owner(key) && R.Keeps(last, key)
    ensures Loaded(g, T.DefinesEdge(path, key)) && R.LiveNode(g, T.FileNode(path)) && R.LiveNode(g, T.SymbolNode(key))
  {
    assert R.SymbolAgrees(g, last, key);
    assert R.LiveEdge(g, T.DefinesEdge(path, key));
    assert R.LiveNode(g, T.FileNode(path));
  }

  // ---------------------------------------------------------------- where tombstones do not matter

  lemma {:induction false} SelectCommutes(rows: seq<Def>, f: Def -> bool, g: Def -> bool)
    ensures Select(Select(rows, f), g) == Select(Select(rows, g), f)
  {
    if rows != [] {
      var init, d := rows[..|rows| - 1], rows[|rows| - 1];
      SelectCommutes(init, f, g);
      SelectSnoc(Select(init, f), d, g);
      SelectSnoc(Select(init, g), d, f);
    }
  }

  lemma {:induction false} SelectAll(rows: seq<Def>, keep: Def -> bool)
    requires forall d :: d in rows ==> keep(d)
    ensures Select(rows, keep) == rows
  {
    if rows != [] {
      SelectAll(rows[..|rows| - 1], keep);
      assert rows[|rows| - 1] in rows;
    }
  }

  /** No tombstone of that name. */
  ghost predicate NameAlive(rows: seq<Def>, keep: Def -> bool, name: string) {
    forall d :: d in rows && d.name == name ==> keep(d)
  }

  lemma SameCandidates(rows: seq<Def>, keep: Def -> bool, name: string)
    requires NameAlive(rows, keep, name)
    ensures Candidates(Select(rows, keep), name) == Candidates(rows, name)
    ensures forall file :: Defines(Select(rows, keep), file, name) <==> Defines(rows, file, name)
  {
    SelectCommutes(rows, keep, Named(name));
    SelectSound(rows, Named(name));
    SelectAll(Candidates(rows, name), keep);
    SelectSound(rows, keep);
    forall file
      ensures Defines(Select(rows, keep), file, name) <==> Defines(rows, file, name)
    {
      DefinesIff(rows, file, name);
      DefinesIff(Select(rows, keep), file, name);
    }
  }

  lemma DefinesIff(rows: seq<Def>, file: string, name: string)
    ensures Defines(rows, file, name) <==> exists d :: d in rows && d.file == file && d.name == name
  {
    if d :| d in rows && d.file == file && d.name == name {
      var i :| 0 <= i < |rows| && rows[i] == d;
    }
  }

  /** The tombstones that an edge could notice: of its name, of its receiver's, in its own
      file with a namespace, and files that only tombstones still put into the project. */
  ghost predicate Unnoticed(rows: seq<Def>, keep: Def -> bool, e: Edge, name: string) {
    && NameAlive(rows, keep, name)
    && (e.receiver.Some? ==> NameAlive(rows, keep, e.receiver.value))
    && (forall d :: d in rows && d.file == e.file && d.namespace.Some? ==> keep(d))
    && ProjectFiles(Select(rows, keep)) == ProjectFiles(rows)
  }

  lemma {:induction false} SameImported(rows: seq<Def>, keep: Def -> bool, s: Snapshot, file: string,
                                        imports: seq<Import>, name: string)
    requires NameAlive(rows, keep, name) && ProjectFiles(Select(rows, keep)) == ProjectFiles(rows)
    ensures ImportedFrom(Select(rows, keep), s, file, imports, name) == ImportedFrom(rows, s, file, imports, name)
  {
    SameCandidates(rows, keep, name);
    if imports != [] {
      SameImported(rows, keep, s, file, imports[..|imports| - 1], name);
    }
  }

  lemma SameOwnNamespace(rows: seq<Def>, keep: Def -> bool, file: string)
    requires forall d :: d in rows && d.file == file && d.namespace.Some? ==> keep(d)
    ensures OwnNamespace(Select(rows, keep), file) == OwnNamespace(rows, file)
  {
    var here, kept := Select(rows, InFile(file)), Select(Select(rows, keep), InFile(file));
    SelectSound(rows, InFile(file));
    SelectSound(rows, keep);
    SelectSound(Select(rows, keep), InFile(file));
    forall n
      ensures n in Namespaces(here) <==> n in Namespaces(kept)
    {
      SpaceIff(here, n);
      SpaceIff(kept, n);
    }
    assert Namespaces(here) == Namespaces(kept);
  }

  lemma SpaceIff(rows: seq<Def>, n: string)
    ensures n in Namespaces(rows) <==> exists d :: d in rows && d.namespace == Some(n)
  {
    if d :| d in rows && d.namespace == Some(n) {
      var i :| 0 <= i < |rows| && rows[i] == d;
      assert rows[i].namespace.value in Namespaces(rows);
    }
  }

  lemma SameByNamespace(rows: seq<Def>, keep: Def -> bool, s: Snapshot, e: Edge, name: string)
    requires Unnoticed(rows, keep, e, name)
    ensures ByNamespace(Select(rows, keep), s, e, name) == ByNamespace(rows, s, e, name)
  {
    SameCandidates(rows, keep, name);
    SameOwnNamespace(rows, keep, e.file);
  }

  lemma SameNarrowed(rows: seq<Def>, keep: Def -> bool, name: string, receiver: string)
    requires NameAlive(rows, keep, name) && NameAlive(rows, keep, receiver)
    ensures Select(Candidates(Select(rows, keep), name), InTypesOf(Select(rows, keep), receiver))
      == Select(Candidates(rows, name), InTypesOf(rows, receiver))
  {
    SameCandidates(rows, keep, name);
    SameCandidates(rows, keep, receiver);
    SelectSame(Candidates(rows, name), InTypesOf(rows, receiver), InTypesOf(Select(rows, keep), receiver));
  }

  lemma SameByReceiver(rows: seq<Def>, keep: Def -> bool, s: Snapshot, e: Edge, name: string)
    requires Unnoticed(rows, keep, e, name)
    ensures ByReceiver(Select(rows, keep), s, e, name) == ByReceiver(rows, s, e, name)
  {
    SameByNamespace(rows, keep, s, e, name);
    if e.receiver.Some? {
      SameNarrowed(rows, keep, name, e.receiver.value);
    }
  }

  /** An edge that notices no tombstone is resolved as if there were none. */
  lemma TombstonesUnnoticed(rows: seq<Def>, keep: Def -> bool, s: Snapshot, e: Edge)
    requires NameOf(s, e).Some? ==> Unnoticed(rows, keep, e, NameOf(s, e).value)
    ensures Resolve(Select(rows, keep), s, e) == Resolve(rows, s, e)
  {
    if NameOf(s, e).Some? {
      var name := NameOf(s, e).value;
      SameCandidates(rows, keep, name);
      SameImported(rows, keep, s, e.file, ImportsOf(s, e.file), name);
      SameByReceiver(rows, keep, s, e, name);
    }
  }

  // ---------------------------------------------------------------- exactly where they do

  lemma {:induction false} SelectFirst(rows: seq<Def>, keep: Def -> bool)
    requires rows != [] && keep(rows[0])
    ensures Select(rows, keep) != [] && Select(rows, keep)[0] == rows[0]
  {
    if |rows| > 1 {
      SelectFirst(rows[..|rows| - 1], keep);
    }
  }

  lemma LivingContenders(rows: seq<Def>, keep: Def -> bool, file: string, name: string, arity: int)
    requires Contenders(rows, file, name, arity) != [] && keep(Contenders(rows, file, name, arity)[0])
    ensures Contenders(Select(rows, keep), file, name, arity) != []
    ensures Contenders(Select(rows, keep), file, name, arity)[0] == Contenders(rows, file, name, arity)[0]
  {
    var here := Select(Candidates(rows, name), InFile(file));
    SelectCommutes(rows, keep, Named(name));
    SelectCommutes(Candidates(rows, name), keep, InFile(file));
    SelectCommutes(here, keep, WithArity(arity));
    if arity >= 0 && Select(here, WithArity(arity)) != [] {
      SelectFirst(Select(here, WithArity(arity)), keep);
    } else {
      SelectFirst(here, keep);
    }
  }

  lemma LaterTiers(rows: seq<Def>, s: Snapshot, e: Edge, name: string)
    ensures ByImports(rows, s, e, name).tier != SameFile
  {
  }

  /** One row for each file and key. */
  ghost predicate OneRowEach(rows: seq<Def>) {
    forall c, d :: c in rows && d in rows && c.file == d.file && c.key == d.key ==> c == d
  }

  lemma LoadedOnce(rows: seq<Def>, g: T.Graph)
    requires Loads(rows, g)
    ensures OneRowEach(rows)
  {
    forall c, d | c in rows && d in rows && c.file == d.file && c.key == d.key
      ensures c == d
    {
      assert EdgeOf(c) == EdgeOf(d);
    }
  }

  /** In the same-file tier tombstones are harmless exactly when the row that comes first
      is alive: otherwise the edge is resolved to a tombstone. */
  lemma SameFileIff(rows: seq<Def>, keep: Def -> bool, s: Snapshot, e: Edge)
    requires OneRowEach(rows) && NameOf(s, e).Some? && Defines(rows, e.file, NameOf(s, e).value)
    ensures
      var list := Contenders(rows, e.file, NameOf(s, e).value, e.arity);
      && list != [] && Resolve(rows, s, e) == Resolved(SameFile, list[0].key, High)
      && (Resolve(Select(rows, keep), s, e) == Resolve(rows, s, e) <==> keep(list[0]))
  {
    var name, living := NameOf(s, e).value, Select(rows, keep);
    var list := Contenders(rows, e.file, name, e.arity);
    FirstContender(rows, e.file, name, e.arity);
    SelectSound(rows, keep);
    assert list[0] in list;
    if keep(list[0]) {
      DefinesIff(living, e.file, name);
      LivingContenders(rows, keep, e.file, name, e.arity);
      FirstContender(living, e.file, name, e.arity);
    } else if Defines(living, e.file, name) {
      FirstContender(living, e.file, name, e.arity);
      assert Contenders(living, e.file, name, e.arity)[0] in Contenders(living, e.file, name, e.arity);
    } else {
      LaterTiers(living, s, e, name);
    }
  }

  /** An edge that only the whole project can decide: nothing of the name in its file, no
      imports, receiver, namespace or arity. */
  ghost predicate Plain(rows: seq<Def>, s: Snapshot, e: Edge, name: string) {
    && !Defines(rows, e.file, name) && ImportsOf(s, e.file) == [] && e.receiver.None? && e.arity < 0
    && forall d :: d in rows && d.file == e.file ==> d.namespace.None?
  }

  lemma PlainByProject(rows: seq<Def>, s: Snapshot, e: Edge, name: string)
    requires NameOf(s, e) == Some(name) && Plain(rows, s, e, name)
    ensures Resolve(rows, s, e) == ByProject(rows, s, e, name)
  {
    var here := Select(rows, InFile(e.file));
    SelectSound(rows, InFile(e.file));
    assert forall i :: 0 <= i < |here| ==> here[i] in here;
    assert Namespaces(here) == {};
    SelectNone(Candidates(rows, name), ImportedNamespace(s, e.file));
  }

  lemma PlainWithout(rows: seq<Def>, keep: Def -> bool, s: Snapshot, e: Edge, name: string)
    requires Plain(rows, s, e, name)
    ensures Plain(Select(rows, keep), s, e, name)
  {
    SelectSound(rows, keep);
    DefinesIff(rows, e.file, name);
    DefinesIff(Select(rows, keep), e.file, name);
  }

  lemma {:induction false} SelectFewer(rows: seq<Def>, keep: Def -> bool)
    ensures |Select(rows, keep)| <= |rows|
    ensures |Select(rows, keep)| == |rows| <==> forall d :: d in rows ==> keep(d)
  {
    if rows != [] {
      var init, last := rows[..|rows| - 1], rows[|rows| - 1];
      SelectFewer(init, keep);
      assert rows == init + [last];
    }
  }

  /** For such an edge tombstones of its name are harmless exactly when two living
      definitions make it ambiguous anyway: they turn the only definition into one of
      several, and a removed one into a target. */
  lemma PlainIff(rows: seq<Def>, keep: Def -> bool, s: Snapshot, e: Edge, name: string)
    requires NameOf(s, e) == Some(name) && Plain(rows, s, e, name)
    ensures Resolve(Select(rows, keep), s, e) == Resolve(rows, s, e) <==>
      NameAlive(rows, keep, name) || |Candidates(Select(rows, keep), name)| >= 2
  {
    var living := Select(rows, keep);
    PlainWithout(rows, keep, s, e, name);
    PlainByProject(rows, s, e, name);
    PlainByProject(living, s, e, name);
    SelectCommutes(rows, keep, Named(name));
    SelectSound(rows, Named(name));
    SelectFewer(Candidates(rows, name), keep);
    if NameAlive(rows, keep, name) {
      SelectAll(Candidates(rows, name), keep);
    }
  }

  // ---------------------------------------------------------------- over runs of the graph

  /** A loaded file-scoped row is alive exactly when its file still declares the symbol. */
  lemma AliveIffKept(steps: seq<R.Step>, rows: seq<Def>, d: Def)
    requires R.GoodRun(steps) && Loads(rows, R.Run(steps)) && d in rows && FileScoped(d.key)
    ensures Alive(R.Run(steps))(d) <==> R.Keeps(R.HistoryOf(steps), d.key)
  {
    LivingAreCurrent(steps, rows, d.file, d.key);
    SelectSound(rows, Alive(R.Run(steps)));
    R.RunRefines(steps);
    LoadedOnce(rows, R.Run(steps));
    assert T.DefinesEdge(d.file, d.key) in R.Run(steps).edges;
  }

  /** After every run: a same-file resolution is what it would be over the last
      extractions exactly when the symbol of the first row is still declared. */
  lemma SameFileOverRunsIff(steps: seq<R.Step>, rows: seq<Def>, s: Snapshot, e: Edge)
    requires R.GoodRun(steps) && Loads(rows, R.Run(steps))
    requires NameOf(s, e).Some? && Defines(rows, e.file, NameOf(s, e).value)
    ensures
      var list := Contenders(rows, e.file, NameOf(s, e).value, e.arity);
      && list != [] && Resolve(rows, s, e) == Resolved(SameFile, list[0].key, High)
      && (FileScoped(list[0].key) ==>
           (Resolve(Living(rows, R.Run(steps)), s, e) == Resolve(rows, s, e) <==>
            R.Keeps(R.HistoryOf(steps), list[0].key)))
  {
    LoadedOnce(rows, R.Run(steps));
    SameFileIff(rows, Alive(R.Run(steps)), s, e);
    var list := Contenders(rows, e.file, NameOf(s, e).value, e.arity);
    FirstContender(rows, e.file, NameOf(s, e).value, e.arity);
    assert list[0] in list;
    if FileScoped(list[0].key) {
      AliveIffKept(steps, rows, list[0]);
    }
  }

  /** After every run: an edge that notices no tombstone is resolved as over the last
      extractions, to a symbol that its file still declares. */
  lemma UnnoticedIsCurrent(steps: seq<R.Step>, rows: seq<Def>, s: Snapshot, e: Edge)
    requires R.GoodRun(steps) && Loads(rows, R.Run(steps)) && NameOf(s, e).Some?
    requires Unnoticed(rows, Alive(R.Run(steps)), e, NameOf(s, e).value)
    ensures
      var o := Resolve(rows, s, e);
      && o == Resolve(Living(rows, R.Run(steps)), s, e)
      && (o.target.Some? && o.target.value.InProject? && FileScoped(o.target.value.key) ==>
           R.Keeps(R.HistoryOf(steps), o.target.value.key))
  {
    var living, o := Living(rows, R.Run(steps)), Resolve(rows, s, e);
    TombstonesUnnoticed(rows, Alive(R.Run(steps)), s, e);
    if o.target.Some? && o.target.value.InProject? && FileScoped(o.target.value.key) {
      ResolutionIsGrounded(living, s, e);
      var i :| 0 <= i < |living| && living[i].key == o.target.value.key && living[i].name == NameOf(s, e).value;
      assert living[i] in living;
      LivingAreCurrent(steps, rows, living[i].file, living[i].key);
    }
  }

  // ---------------------------------------------------------------- a definition that moves

  /** A file with one symbol. */
  function OneSymbol(path: string, sym: Sym): ExtractedFile {
    ExtractedFile(path, "python", false, [sym], [], [], [], [])
  }

  /** The same file ingested twice, the symbol further down the second time. */
  function MovedRun(path: string, before: Sym, after: Sym, h1: T.Head, h2: T.Head, now1: int, now2: int): seq<R.Step> {
    [R.Reingest(OneSymbol(path, before), h1, now1), R.Reingest(OneSymbol(path, after), h2, now2)]
  }

  predicate Moves(path: string, before: Sym, after: Sym) {
    GoodPath(path) && !Shared(before) && !Shared(after) && before.name == after.name &&
      before.startLine < after.startLine
  }

  lemma OneDeclared(path: string, sym: Sym, key: string)
    ensures R.Declares(OneSymbol(path, sym), key) <==> key == SymbolKey(path, sym)
    ensures key == SymbolKey(path, sym) ==> R.Declaration(OneSymbol(path, sym), key) == sym
  {
    if key == SymbolKey(path, sym) {
      assert OneSymbol(path, sym).symbols[0] == sym;
    }
  }

  lemma MovedKeys(path: string, before: Sym, after: Sym)
    requires Moves(path, before, after)
    ensures SymbolKey(path, before) != SymbolKey(path, after)
    ensures FileScoped(SymbolKey(path, before)) && FileScoped(SymbolKey(path, after))
    ensures Owner(SymbolKey(path, before)) == path && Owner(SymbolKey(path, after)) == path
  {
    if SymbolKey(path, before) == SymbolKey(path, after) {
      KeyInjective(path, before.name, before.startLine, path, after.name, after.startLine);
    }
    OwnerOfSymbolKey(path, before);
    OwnerOfSymbolKey(path, after);
  }

  lemma RunOfTwo(a: R.Step, b: R.Step)
    ensures R.Run([a, b]) == R.Apply(R.Apply(T.EMPTY, a), b)
    ensures R.Run([a]) == R.Apply(T.EMPTY, a)
  {
    assert [a, b][..1] == [a] && [a][..0] == [];
    assert R.Run([a]) == R.Apply(R.Run([a][..0]), a);
  }

  lemma HistoryOfTwo(a: R.Step, b: R.Step)
    ensures R.HistoryOf([a, b]) == R.Remember(R.Remember(map[], a), b)
    ensures R.HistoryOf([a]) == R.Remember(map[], a)
  {
    assert [a, b][..1] == [a] && [a][..0] == [];
    assert R.HistoryOf([a]) == R.Remember(R.HistoryOf([a][..0]), a);
  }

  /** A DEFINES edge is never forgotten, and only a declaration makes one. */
  lemma DefinesEdgesAfter(g: T.Graph, ex: ExtractedFile, h: T.Head, now: int, path: string, key: string)
    ensures
      T.DefinesEdge(path, key) in R.Apply(g, R.Reingest(ex, h, now)).edges <==>
        T.DefinesEdge(path, key) in g.edges || (path == ex.path && R.Declares(ex, key))
  {
    var deleted := T.DeleteFile(g, ex.path, Some(h), now);
    R.EdgeAfterWrite(deleted, ex, h, T.DefinesEdge(path, key));
    R.RowsOfDefines(ex, path, key);
  }

  lemma MovedEdges(path: string, before: Sym, after: Sym, h1: T.Head, h2: T.Head, now1: int, now2: int, file: string,
                   key: string)
    ensures
      var g := R.Run(MovedRun(path, before, after, h1, h2, now1, now2));
      T.DefinesEdge(file, key) in g.edges <==>
        file == path && (key == SymbolKey(path, before) || key == SymbolKey(path, after))
  {
    var ex1, ex2 := OneSymbol(path, before), OneSymbol(path, after);
    RunOfTwo(R.Reingest(ex1, h1, now1), R.Reingest(ex2, h2, now2));
    DefinesEdgesAfter(T.EMPTY, ex1, h1, now1, file, key);
    DefinesEdgesAfter(R.Apply(T.EMPTY, R.Reingest(ex1, h1, now1)), ex2, h2, now2, file, key);
    OneDeclared(path, before, key);
    OneDeclared(path, after, key);
  }

  /** What the second ingest leaves at the old key: a tombstone that is described as before. */
  lemma OldKeyAfter(g: T.Graph, ex: ExtractedFile, h: T.Head, now: int, key: string, sym: Sym)
    requires Owner(key) != "name" && !R.Declares(ex, key)
    requires T.SymbolNode(key) in g.nodes && R.Describes(g.nodes[T.SymbolNode(key)], sym)
    requires T.UnresolvedP !in g.nodes[T.SymbolNode(key)].props
    ensures
      var after := R.Apply(g, R.Reingest(ex, h, now));
      && T.SymbolNode(key) in after.nodes && R.Describes(after.nodes[T.SymbolNode(key)], sym)
      && T.UnresolvedP !in after.nodes[T.SymbolNode(key)].props
  {
    R.WrittenSymbol(T.DeleteFile(g, ex.path, Some(h), now), ex, h, key);
  }

  lemma OldNode(path: string, before: Sym, after: Sym, h1: T.Head, h2: T.Head, now1: int, now2: int)
    requires Moves(path, before, after)
    ensures
      var g, id := R.Run(MovedRun(path, before, after, h1, h2, now1, now2)), T.SymbolNode(SymbolKey(path, before));
      id in g.nodes && R.Describes(g.nodes[id], before) && T.UnresolvedP !in g.nodes[id].props
  {
    var ex1, ex2, k := OneSymbol(path, before), OneSymbol(path, after), SymbolKey(path, before);
    var s1 := R.Reingest(ex1, h1, now1);
    RunOfTwo(s1, R.Reingest(ex2, h2, now2));
    HistoryOfTwo(s1, s1);
    MovedKeys(path, before, after);
    R.RunRefines([s1]);
    OneDeclared(path, before, k);
    OneDeclared(path, after, k);
    assert R.SymbolAgrees(R.Run([s1]), map[path := ex1], k);
    OldKeyAfter(R.Run([s1]), ex2, h2, now2, k, before);
  }

  lemma KeyAgrees(steps: seq<R.Step>, key: string)
    requires R.GoodRun(steps) && FileScoped(key)
    ensures R.SymbolAgrees(R.Run(steps), R.HistoryOf(steps), key)
  {
    R.RunRefines(steps);
  }

  lemma FileAgrees(steps: seq<R.Step>, path: string)
    requires R.GoodRun(steps)
    ensures R.LiveNode(R.Run(steps), T.FileNode(path)) <==> path in R.HistoryOf(steps)
  {
    R.RunRefines(steps);
  }

  lemma SecondCounts(path: string, ex1: ExtractedFile, ex2: ExtractedFile, h1: T.Head, h2: T.Head, now1: int, now2: int)
    requires ex1.path == path && ex2.path == path
    ensures R.HistoryOf([R.Reingest(ex1, h1, now1), R.Reingest(ex2, h2, now2)]) == map[path := ex2]
  {
    HistoryOfTwo(R.Reingest(ex1, h1, now1), R.Reingest(ex2, h2, now2));
    assert map[path := ex1][path := ex2] == map[path := ex2];
  }

  lemma MovedHistory(path: string, before: Sym, after: Sym, h1: T.Head, h2: T.Head, now1: int, now2: int)
    requires Moves(path, before, after)
    ensures
      var steps := MovedRun(path, before, after, h1, h2, now1, now2);
      R.GoodRun(steps) && R.HistoryOf(steps) == map[path := OneSymbol(path, after)]
  {
    SecondCounts(path, OneSymbol(path, before), OneSymbol(path, after), h1, h2, now1, now2);
  }

  lemma OldIsDead(path: string, before: Sym, after: Sym, h1: T.Head, h2: T.Head, now1: int, now2: int)
    requires Moves(path, before, after)
    ensures !R.LiveNode(R.Run(MovedRun(path, before, after, h1, h2, now1, now2)), T.SymbolNode(SymbolKey(path, before)))
  {
    MovedKeys(path, before, after);
    MovedHistory(path, before, after, h1, h2, now1, now2);
    KeyAgrees(MovedRun(path, before, after, h1, h2, now1, now2), SymbolKey(path, before));
    OneDeclared(path, after, SymbolKey(path, before));
  }

  lemma NewIsAlive(path: string, before: Sym, after: Sym, h1: T.Head, h2: T.Head, now1: int, now2: int)
    requires Moves(path, before, after)
    ensures
      var g, id := R.Run(MovedRun(path, before, after, h1, h2, now1, now2)), T.SymbolNode(SymbolKey(path, after));
      && R.LiveNode(g, id) && R.LiveNode(g, T.FileNode(path))
      && R.Describes(g.nodes[id], after) && T.UnresolvedP !in g.nodes[id].props
  {
    MovedKeys(path, before, after);
    MovedHistory(path, before, after, h1, h2, now1, now2);
    KeyAgrees(MovedRun(path, before, after, h1, h2, now1, now2), SymbolKey(path, after));
    FileAgrees(MovedRun(path, before, after, h1, h2, now1, now2), path);
    OneDeclared(path, after, SymbolKey(path, after));
  }

  lemma OneOfBoth(rows: seq<Def>, a: Def, b: Def, i: nat, j: nat, k: nat)
    requires forall d :: d in rows ==> d == a || d == b
    requires forall x, y :: 0 <= x < y < |rows| ==> rows[x] != rows[y]
    requires i < |rows| && j < |rows| && k < |rows| && rows[i] == a && rows[j] == b
    ensures k == i || k == j
  {
    assert rows[k] in rows;
  }

  lemma TwoRows(rows: seq<Def>, a: Def, b: Def)
    requires Ordered(rows) && a in rows && b in rows && a.start < b.start
    requires forall d :: d in rows ==> d == a || d == b
    requires forall i, j :: 0 <= i < j < |rows| ==> rows[i] != rows[j]
    ensures rows == [a, b]
  {
    var i :| 0 <= i < |rows| && rows[i] == a;
    var j :| 0 <= j < |rows| && rows[j] == b;
    OneOfBoth(rows, a, b, i, j, 0);
    OneOfBoth(rows, a, b, i, j, |rows| - 1);
    OneOfBoth(rows, a, b, i, j, j - 1);
  }

  predicate RowIs(path: string, sym: Sym, d: Def) {
    d.file == path && d.key == SymbolKey(path, sym) && d.name == sym.name && d.start == sym.startLine
  }

  lemma DescribedRow(g: T.Graph, path: string, sym: Sym)
    requires Loaded(g, T.DefinesEdge(path, SymbolKey(path, sym)))
    requires R.Describes(g.nodes[T.SymbolNode(SymbolKey(path, sym))], sym)
    ensures RowIs(path, sym, RowOf(g, T.DefinesEdge(path, SymbolKey(path, sym))))
  {
  }

  lemma BothLoaded(path: string, before: Sym, after: Sym, h1: T.Head, h2: T.Head, now1: int, now2: int)
    requires Moves(path, before, after)
    ensures
      var g := R.Run(MovedRun(path, before, after, h1, h2, now1, now2));
      var e1, e2 := T.DefinesEdge(path, SymbolKey(path, before)), T.DefinesEdge(path, SymbolKey(path, after));
      && Loaded(g, e1) && RowIs(path, before, RowOf(g, e1))
      && Loaded(g, e2) && RowIs(path, after, RowOf(g, e2))
  {
    var g := R.Run(MovedRun(path, before, after, h1, h2, now1, now2));
    OldNode(path, before, after, h1, h2, now1, now2);
    NewIsAlive(path, before, after, h1, h2, now1, now2);
    MovedEdges(path, before, after, h1, h2, now1, now2, path, SymbolKey(path, before));
    MovedEdges(path, before, after, h1, h2, now1, now2, path, SymbolKey(path, after));
    DescribedRow(g, path, before);
    DescribedRow(g, path, after);
  }

  /** The query returns the tombstone first. */
  lemma MovedRows(path: string, before: Sym, after: Sym, h1: T.Head, h2: T.Head, now1: int, now2: int, rows: seq<Def>)
    requires Moves(path, before, after)
    requires Loads(rows, R.Run(MovedRun(path, before, after, h1, h2, now1, now2)))
    ensures |rows| == 2 && RowIs(path, before, rows[0]) && RowIs(path, after, rows[1])
  {
    var g := R.Run(MovedRun(path, before, after, h1, h2, now1, now2));
    var e1, e2 := T.DefinesEdge(path, SymbolKey(path, before)), T.DefinesEdge(path, SymbolKey(path, after));
    BothLoaded(path, before, after, h1, h2, now1, now2);
    forall d | d in rows
      ensures d == RowOf(g, e1) || d == RowOf(g, e2)
    {
      MovedEdges(path, before, after, h1, h2, now1, now2, d.file, d.key);
    }
    TwoRows(rows, RowOf(g, e1), RowOf(g, e2));
  }

  lemma MovedLiving(path: string, before: Sym, after: Sym, h1: T.Head, h2: T.Head, now1: int, now2: int, rows: seq<Def>)
    requires Moves(path, before, after)
    requires |rows| == 2 && RowIs(path, before, rows[0]) && RowIs(path, after, rows[1])
    ensures Living(rows, R.Run(MovedRun(path, before, after, h1, h2, now1, now2))) == [rows[1]]
  {
    OldIsDead(path, before, after, h1, h2, now1, now2);
    NewIsAlive(path, before, after, h1, h2, now1, now2);
    TwoLiving(rows, Alive(R.Run(MovedRun(path, before, after, h1, h2, now1, now2))));
  }

  lemma TwoLiving(rows: seq<Def>, keep: Def -> bool)
    requires |rows| == 2 && !keep(rows[0]) && keep(rows[1])
    ensures Select(rows, keep) == [rows[1]]
  {
    assert rows == [rows[0]] + [rows[1]] && [rows[0]][..0] == [];
    SelectSnoc([], rows[0], keep);
    SelectSnoc([rows[0]], rows[1], keep);
  }

  /** If every row is the edge's file's and of its name, the first one wins. */
  lemma FirstOfAll(rows: seq<Def>, s: Snapshot, e: Edge)
    requires rows != [] && e.arity < 0 && NameOf(s, e).Some?
    requires forall d :: d in rows ==> d.file == e.file && d.name == NameOf(s, e).value
    ensures Resolve(rows, s, e) == Resolved(SameFile, rows[0].key, High)
  {
    assert rows[0] in rows;
    SelectAll(rows, Named(NameOf(s, e).value));
    SelectAll(rows, InFile(e.file));
    assert Defines(rows, e.file, NameOf(s, e).value);
  }

  lemma FirstOfTwo(path: string, before: Sym, after: Sym, rows: seq<Def>, s: Snapshot, e: Edge)
    requires |rows| == 2 && RowIs(path, before, rows[0]) && RowIs(path, after, rows[1]) && before.name == after.name
    requires e.file == path && e.arity < 0 && NameOf(s, e) == Some(before.name)
    ensures Resolve(rows, s, e) == Resolved(SameFile, SymbolKey(path, before), High)
    ensures Resolve([rows[1]], s, e) == Resolved(SameFile, SymbolKey(path, after), High)
  {
    FirstOfAll(rows, s, e);
    FirstOfAll([rows[1]], s, e);
  }

  /** A symbol that moved down its file: from then on every reference in the file itself
      is resolved to the tombstone, and would be resolved to the symbol without it. */
  lemma MovedResolvesToTombstone(path: string, before: Sym, after: Sym, h1: T.Head, h2: T.Head, now1: int, now2: int,
                                 rows: seq<Def>, s: Snapshot, e: Edge)
    requires Moves(path, before, after)
    requires Loads(rows, R.Run(MovedRun(path, before, after, h1, h2, now1, now2)))
    requires e.file == path && e.arity < 0 && NameOf(s, e) == Some(before.name)
    ensures
      var g := R.Run(MovedRun(path, before, after, h1, h2, now1, now2));
      && Resolve(rows, s, e) == Resolved(SameFile, SymbolKey(path, before), High)
      && !R.LiveNode(g, T.SymbolNode(SymbolKey(path, before)))
      && Resolve(Living(rows, g), s, e) == Resolved(SameFile, SymbolKey(path, after), High)
  {
    MovedRows(path, before, after, h1, h2, now1, now2, rows);
    MovedLiving(path, before, after, h1, h2, now1, now2, rows);
    OldIsDead(path, before, after, h1, h2, now1, now2);
    FirstOfTwo(path, before, after, rows, s, e);
  }

  lemma OneByProject(rows: seq<Def>, s: Snapshot, e: Edge, name: string)
    requires NameOf(s, e) == Some(name) && Plain(rows, s, e, name) && rows != []
    requires forall d :: d in rows ==> d.name == name
    ensures Resolve(rows, s, e) == if |rows| == 1 then Resolved(Unique, rows[0].key, Medium) else Left(Ambiguous)
  {
    PlainByProject(rows, s, e, name);
    SelectAll(rows, Named(name));
  }

  lemma OneAmongTwo(path: string, before: Sym, after: Sym, rows: seq<Def>, s: Snapshot, e: Edge)
    requires |rows| == 2 && RowIs(path, before, rows[0]) && RowIs(path, after, rows[1]) && before.name == after.name
    requires NameOf(s, e) == Some(before.name) && Plain(rows, s, e, before.name) && Plain([rows[1]], s, e, before.name)
    ensures Resolve(rows, s, e) == Left(Ambiguous)
    ensures Resolve([rows[1]], s, e) == Resolved(Unique, SymbolKey(path, after), Medium)
  {
    OneByProject(rows, s, e, before.name);
    OneByProject([rows[1]], s, e, before.name);
  }

  /** And a plain reference from another file, which had one definition to go to, is left
      as ambiguous. */
  lemma MovedIsAmbiguous(path: string, before: Sym, after: Sym, h1: T.Head, h2: T.Head, now1: int, now2: int,
                         rows: seq<Def>, s: Snapshot, e: Edge)
    requires Moves(path, before, after)
    requires Loads(rows, R.Run(MovedRun(path, before, after, h1, h2, now1, now2)))
    requires NameOf(s, e) == Some(before.name) && Plain(rows, s, e, before.name)
    ensures
      var g := R.Run(MovedRun(path, before, after, h1, h2, now1, now2));
      && Resolve(rows, s, e) == Left(Ambiguous)
      && Resolve(Living(rows, g), s, e) == Resolved(Unique, SymbolKey(path, after), Medium)
  {
    MovedRows(path, before, after, h1, h2, now1, now2, rows);
    MovedLiving(path, before, after, h1, h2, now1, now2, rows);
    PlainWithout(rows, Alive(R.Run(MovedRun(path, before, after, h1, h2, now1, now2))), s, e, before.name);
    OneAmongTwo(path, before, after, rows, s, e);
  }
}
