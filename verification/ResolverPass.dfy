/** One resolver pass: load the index, walk all edges, count every outcome. */
module ResolverPass {
  import opened Wrappers
  import opened Resolver

  /** The dictionaries that the load step builds from the DEFINES rows. */
  datatype Index = Index(fileDefines: map<string, set<string>>, nameIndex: map<string, seq<Def>>,
                         fileNamespace: map<string, string>)

  function NamesIn(ix: Index, file: string): set<string> {
    if file in ix.fileDefines then ix.fileDefines[file] else {}
  }

  function Listed(m: map<string, seq<Def>>, name: string): seq<Def> {
    if name in m then m[name] else []
  }

  ghost predicate DefinesMatch(defines: map<string, set<string>>, rows: seq<Def>) {
    && defines.Keys == ProjectFiles(rows)
    && forall f, n :: f in defines ==> (n in defines[f] <==> Defines(rows, f, n))
  }

  ghost predicate NamesMatch(names: map<string, seq<Def>>, rows: seq<Def>) {
    forall n :: Listed(names, n) == Candidates(rows, n)
  }

  ghost predicate SpacesMatch(spaces: map<string, set<string>>, rows: seq<Def>) {
    forall f :: (if f in spaces then spaces[f] else {}) == Namespaces(Select(rows, InFile(f)))
  }

  ghost predicate IndexOf(ix: Index, rows: seq<Def>) {
    && DefinesMatch(ix.fileDefines, rows) && NamesMatch(ix.nameIndex, rows)
    && forall f :: OwnNamespace(rows, f) == if f in ix.fileNamespace then Some(ix.fileNamespace[f]) else None
  }

  lemma NamesStep(names: map<string, seq<Def>>, rows: seq<Def>, d: Def)
    requires NamesMatch(names, rows)
    ensures NamesMatch(names[d.name := Listed(names, d.name) + [d]], rows + [d])
  {
    forall n
      ensures Listed(names[d.name := Listed(names, d.name) + [d]], n) == Candidates(rows + [d], n)
    {
      assert Listed(names, n) == Candidates(rows, n);
      SelectSnoc(rows, d, Named(n));
    }
  }

  lemma DefinesStep(defines: map<string, set<string>>, rows: seq<Def>, d: Def)
    requires DefinesMatch(defines, rows)
    ensures
      var before := if d.file in defines then defines[d.file] else {};
      DefinesMatch(defines[d.file := before + {d.name}], rows + [d])
  {
    var rows' := rows + [d];
    assert forall i :: 0 <= i < |rows| ==> rows'[i] == rows[i];
    assert rows'[|rows|] == d;
    assert ProjectFiles(rows') == ProjectFiles(rows) + {d.file};
    forall f, n
      ensures Defines(rows', f, n) <==> Defines(rows, f, n) || (f == d.file && n == d.name)
    {
      if Defines(rows, f, n) {
        var i :| 0 <= i < |rows| && rows[i].file == f && rows[i].name == n;
        assert rows'[i].file == f && rows'[i].name == n;
      }
    }
    forall f, n | Defines(rows, f, n) {
      DefinesInProject(rows, f, n);
    }
  }

  lemma DefinesInProject(rows: seq<Def>, file: string, name: string)
    requires Defines(rows, file, name)
    ensures file in ProjectFiles(rows)
  {
  }

  lemma SpacesStep(spaces: map<string, set<string>>, rows: seq<Def>, d: Def)
    requires SpacesMatch(spaces, rows)
    ensures
      var before := if d.file in spaces then spaces[d.file] else {};
      SpacesMatch(if d.namespace.Some? then spaces[d.file := before + {d.namespace.value}] else spaces, rows + [d])
  {
    forall f
      ensures Namespaces(Select(rows + [d], InFile(f))) ==
        Namespaces(Select(rows, InFile(f))) + if f == d.file && d.namespace.Some? then {d.namespace.value} else {}
    {
      SelectSnoc(rows, d, InFile(f));
      var here := Select(rows, InFile(f));
      assert forall i :: 0 <= i < |here| ==> (here + [d])[i] == here[i];
      assert (here + [d])[|here|] == d;
    }
  }

  method Load(rows: seq<Def>) returns (ix: Index)
    ensures IndexOf(ix, rows)
  {
    var defines, names, spaces := map[], map[], map[];
    for i := 0 to |rows|
      invariant DefinesMatch(defines, rows[..i]) && NamesMatch(names, rows[..i]) && SpacesMatch(spaces, rows[..i])
    {
      var d := rows[i];
      assert rows[..i + 1] == rows[..i] + [d];
      DefinesStep(defines, rows[..i], d);
      NamesStep(names, rows[..i], d);
      SpacesStep(spaces, rows[..i], d);
      defines := defines[d.file := (if d.file in defines then defines[d.file] else {}) + {d.name}];
      names := names[d.name := Listed(names, d.name) + [d]];
      if d.namespace.Some? {
        spaces := spaces[d.file := (if d.file in spaces then spaces[d.file] else {}) + {d.namespace.value}];
      }
    }
    assert rows[..|rows|] == rows;
    var own := map f | f in spaces && |spaces[f]| == 1 :: Only(spaces[f]);
    forall f
      ensures OwnNamespace(rows, f) == if f in own then Some(own[f]) else None
    {
      assert (if f in spaces then spaces[f] else {}) == Namespaces(Select(rows, InFile(f)));
    }
    ix := Index(defines, names, own);
  }

  // ---------------------------------------------------------------- imports

  ghost predicate ImportsMatch(out: map<string, seq<Def>>, rows: seq<Def>, s: Snapshot, file: string,
                               imports: seq<Import>) {
    forall n :: Listed(out, n) == ImportedFrom(rows, s, file, imports, n)
  }

  /** Append the candidates of one name that lie in the target file. */
  method AddName(out0: map<string, seq<Def>>, candidates: seq<Def>, name: string, target: string)
    returns (out: map<string, seq<Def>>)
    ensures Listed(out, name) == Listed(out0, name) + Select(candidates, InFile(target))
    ensures forall m :: m != name ==> Listed(out, m) == Listed(out0, m)
  {
    out := out0;
    for i := 0 to |candidates|
      invariant Listed(out, name) == Listed(out0, name) + Select(candidates[..i], InFile(target))
      invariant forall m :: m != name ==> Listed(out, m) == Listed(out0, m)
    {
      assert candidates[..i + 1][..i] == candidates[..i];
      if candidates[i].file == target {
        out := out[name := Listed(out, name) + [candidates[i]]];
      }
    }
    assert candidates[..|candidates|] == candidates;
  }

  /** `out` extends `base` by what `add` gives for the names in `done`. */
  ghost predicate Extended(out: map<string, seq<Def>>, base: map<string, seq<Def>>, add: string -> seq<Def>,
                           done: set<string>) {
    && (forall n :: n in done ==> Listed(out, n) == Listed(base, n) + add(n))
    && (forall n :: n !in done ==> Listed(out, n) == Listed(base, n))
  }

  lemma ExtendedByName(out: map<string, seq<Def>>, next: map<string, seq<Def>>, base: map<string, seq<Def>>,
                       add: string -> seq<Def>, done: set<string>, name: string)
    requires Extended(out, base, add, done) && name !in done
    requires Listed(next, name) == Listed(out, name) + add(name)
    requires forall m :: m != name ==> Listed(next, m) == Listed(out, m)
    ensures Extended(next, base, add, done + {name})
  {
  }

  /** The definitions of a name in the target file. */
  function HeldBy(rows: seq<Def>, target: string): string -> seq<Def> {
    (n: string) => Select(Candidates(rows, n), InFile(target))
  }

  lemma ExtendedByFile(ix: Index, rows: seq<Def>, out: map<string, seq<Def>>, base: map<string, seq<Def>>,
                       target: string)
    requires IndexOf(ix, rows) && Extended(out, base, HeldBy(rows, target), NamesIn(ix, target))
    ensures forall n :: Listed(out, n) == Listed(base, n) + Select(Candidates(rows, n), InFile(target))
  {
    forall n
      ensures Listed(out, n) == Listed(base, n) + Select(Candidates(rows, n), InFile(target))
    {
      assert HeldBy(rows, target)(n) == Select(Candidates(rows, n), InFile(target));
      if Select(Candidates(rows, n), InFile(target)) != [] {
        FoundMeansNamed(ix, rows, target, n);
      }
    }
  }

  /** `add` is what the name index lists in the target file. */
  ghost predicate Adds(names: map<string, seq<Def>>, target: string, add: string -> seq<Def>) {
    forall n :: Select(Listed(names, n), InFile(target)) == add(n)
  }

  lemma HeldIsAdded(ix: Index, rows: seq<Def>, target: string)
    requires IndexOf(ix, rows)
    ensures Adds(ix.nameIndex, target, HeldBy(rows, target))
  {
    forall n
      ensures Select(Listed(ix.nameIndex, n), InFile(target)) == HeldBy(rows, target)(n)
    {
      CandidatesListed(ix, rows, n);
    }
  }

  /** Name by name, the definitions of one imported file. */
  method AddFile(ix: Index, ghost rows: seq<Def>, out0: map<string, seq<Def>>, target: string)
    returns (out: map<string, seq<Def>>)
    requires IndexOf(ix, rows)
    ensures forall n :: Listed(out, n) == Listed(out0, n) + Select(Candidates(rows, n), InFile(target))
  {
    ghost var add := HeldBy(rows, target);
    HeldIsAdded(ix, rows, target);
    out := AddNames(ix.nameIndex, out0, target, NamesIn(ix, target), add);
    ExtendedByFile(ix, rows, out, out0, target);
  }

  method AddNames(index: map<string, seq<Def>>, out0: map<string, seq<Def>>, target: string, names: set<string>,
                  ghost add: string -> seq<Def>)
    returns (out: map<string, seq<Def>>)
    requires Adds(index, target, add)
    ensures Extended(out, out0, add, names)
  {
    out := out0;
    ghost var done: set<string> := {};
    var todo := names;
    while todo != {}
      invariant done + todo == names && done * todo == {}
      invariant Extended(out, out0, add, done)
      decreases todo
    {
      var n :| n in todo;
      var next := AddName(out, Listed(index, n), n, target);
      ExtendedByName(out, next, out0, add, done, n);
      out, done, todo := next, done + {n}, todo - {n};
    }
    assert done == names;
  }

  lemma CandidatesListed(ix: Index, rows: seq<Def>, name: string)
    requires IndexOf(ix, rows)
    ensures Listed(ix.nameIndex, name) == Candidates(rows, name)
  {
  }

  lemma FoundMeansNamed(ix: Index, rows: seq<Def>, target: string, name: string)
    requires IndexOf(ix, rows) && Select(Candidates(rows, name), InFile(target)) != []
    ensures name in NamesIn(ix, target)
  {
    SelectSound(rows, Named(name));
    SelectSound(Candidates(rows, name), InFile(target));
    var d := Select(Candidates(rows, name), InFile(target))[0];
    assert d in Select(Candidates(rows, name), InFile(target));
    var i :| 0 <= i < |rows| && rows[i] == d;
    assert Defines(rows, target, name);
    InTheFile(ix, rows, target, name);
  }

  /** The file that an import leads to, if it is relative and leads anywhere. */
  function TargetOf(files: set<string>, s: Snapshot, file: string, im: Import): Option<string> {
    if im.relative then s.target(file, im.mod, files) else None
  }

  lemma ImportsStep(out: map<string, seq<Def>>, next: map<string, seq<Def>>, rows: seq<Def>, s: Snapshot, file: string,
                    imports: seq<Import>, i: nat)
    requires i < |imports| && ImportsMatch(out, rows, s, file, imports[..i])
    requires match TargetOf(ProjectFiles(rows), s, file, imports[i])
      case None => next == out
      case Some(target) => forall n :: Listed(next, n) == Listed(out, n) + Select(Candidates(rows, n), InFile(target))
    ensures ImportsMatch(next, rows, s, file, imports[..i + 1])
  {
    assert imports[..i + 1][..i] == imports[..i];
  }

  lemma FilesListed(ix: Index, rows: seq<Def>)
    requires IndexOf(ix, rows)
    ensures ix.fileDefines.Keys == ProjectFiles(rows)
  {
  }

  method ImportedSymbols(ix: Index, ghost rows: seq<Def>, s: Snapshot, file: string)
    returns (out: map<string, seq<Def>>)
    requires IndexOf(ix, rows)
    ensures ImportsMatch(out, rows, s, file, ImportsOf(s, file))
  {
    out := map[];
    var imports := ImportsOf(s, file);
    FilesListed(ix, rows);
    for i := 0 to |imports|
      invariant ImportsMatch(out, rows, s, file, imports[..i])
    {
      var target := TargetOf(ix.fileDefines.Keys, s, file, imports[i]);
      var next := out;
      if target.Some? {
        next := AddFile(ix, rows, out, target.value);
      }
      ImportsStep(out, next, rows, s, file, imports, i);
      out := next;
    }
    assert imports[..|imports|] == imports;
  }

  // ---------------------------------------------------------------- the walk

  datatype Stats = Stats(sameFile: nat, imported: nat, unique: nat, namespaced: nat, assembly: nat, ambiguous: nat,
                         external: nat)

  datatype Resolution = Resolution(kind: EdgeKind, file: string, placeholder: string, target: Target)

  function Counter(st: Stats, t: Tier): nat {
    match t
    case SameFile => st.sameFile
    case Imported => st.imported
    case Unique => st.unique
    case Namespaced => st.namespaced
    case Assembly => st.assembly
    case Ambiguous => st.ambiguous
    case LeftExternal => st.external
  }

  function Bumped(st: Stats, t: Tier): Stats {
    match t
    case SameFile => st.(sameFile := st.sameFile + 1)
    case Imported => st.(imported := st.imported + 1)
    case Unique => st.(unique := st.unique + 1)
    case Namespaced => st.(namespaced := st.namespaced + 1)
    case Assembly => st.(assembly := st.assembly + 1)
    case Ambiguous => st.(ambiguous := st.ambiguous + 1)
    case LeftExternal => st.(external := st.external + 1)
  }

  /** The cascade as a function of the edge alone. */
  function CascadeOf(rows: seq<Def>, s: Snapshot): Edge -> Outcome {
    (e: Edge) => Resolve(rows, s, e)
  }

  lemma CascadeIs(rows: seq<Def>, s: Snapshot, e: Edge)
    ensures CascadeOf(rows, s)(e) == Resolve(rows, s, e)
  {
  }

  /** The tier of each edge. */
  function TiersOf(f: Edge -> Outcome, edges: seq<Edge>): (tiers: seq<Tier>)
    ensures |tiers| == |edges|
  {
    if edges == [] then [] else TiersOf(f, edges[..|edges| - 1]) + [f(edges[|edges| - 1]).tier]
  }

  lemma {:induction false} TiersAppend(f: Edge -> Outcome, a: seq<Edge>, b: seq<Edge>)
    ensures TiersOf(f, a + b) == TiersOf(f, a) + TiersOf(f, b)
  {
    if b == [] {
      assert a + b == a;
    } else {
      assert (a + b)[..|a + b| - 1] == a + b[..|b| - 1];
      TiersAppend(f, a, b[..|b| - 1]);
    }
  }

  /** The resolutions of the edges of one kind, in order. */
  function ResolutionsOf(f: Edge -> Outcome, kind: EdgeKind, edges: seq<Edge>): seq<Resolution> {
    if edges == [] then []
    else
      var init, e := ResolutionsOf(f, kind, edges[..|edges| - 1]), edges[|edges| - 1];
      match f(e).target
      case Some(t) => init + [Resolution(kind, e.file, e.placeholder, t)]
      case None => init
  }

  /** Injections and references carry neither arity nor receiver. */
  function Normalised(edges: seq<Edge>): (n: seq<Edge>)
    ensures |n| == |edges|
  {
    seq(|edges|, i requires 0 <= i < |edges| => edges[i].(arity := -1, receiver := None))
  }

  function AllEdges(s: Snapshot): seq<Edge> {
    s.calls + Normalised(s.injects) + Normalised(s.references)
  }

  /** The cache holds, for each file asked about, what its imports reach. */
  ghost predicate CacheGood(cache: map<string, map<string, seq<Def>>>, rows: seq<Def>, s: Snapshot) {
    forall f :: f in cache ==> ImportsMatch(cache[f], rows, s, f, ImportsOf(s, f))
  }

  /** The tiers from the receiver on, for candidates that are neither local nor imported. */
  method AfterImports(ix: Index, ghost rows: seq<Def>, s: Snapshot, e: Edge, name: string) returns (o: Outcome)
    requires IndexOf(ix, rows)
    ensures o == ByReceiver(rows, s, e, name)
  {
    var candidates := Listed(ix.nameIndex, name);
    if e.receiver.Some? && e.receiver.value != "" {
      var receiver := e.receiver.value;
      var narrowed := Select(candidates, (d: Def) => receiver in NamesIn(ix, d.file));
      ReceiverNarrows(ix, rows, candidates, receiver);
      if |narrowed| == 1 {
        return Resolved(Unique, narrowed[0].key, High);
      }
      if |narrowed| > 1 {
        var fit := PickByArity(narrowed, e.arity);
        if fit.Some? {
          return Resolved(Unique, fit.value, High);
        }
      }
    }
    if candidates != [] {
      var mine := if e.file in ix.fileNamespace then Select(candidates, InNamespace(ix.fileNamespace[e.file])) else [];
      if |mine| == 1 {
        return Resolved(Namespaced, mine[0].key, High);
      }
      if |mine| > 1 {
        var fit := PickByArity(mine, e.arity);
        return if fit.Some? then Resolved(Namespaced, fit.value, High) else Left(Ambiguous);
      }
      var used := Select(candidates, ImportedNamespace(s, e.file));
      if |used| == 1 {
        return Resolved(Namespaced, used[0].key, High);
      }
    }
    if |candidates| == 1 {
      return Resolved(Unique, candidates[0].key, Medium);
    }
    if |candidates| > 1 {
      var fit := PickByArity(candidates, e.arity);
      return if fit.Some? then Resolved(Unique, fit.value, Medium) else Left(Ambiguous);
    }
    var found := ViaAssembly(s, e.file, name);
    o := if found.Some? then Outcome(Assembly, Some(FromAssembly(found.value.1, found.value.0)))
      else Left(LeftExternal);
  }

  lemma {:induction false} ReceiverNarrows(ix: Index, rows: seq<Def>, list: seq<Def>, receiver: string)
    requires IndexOf(ix, rows)
    ensures Select(list, (d: Def) => receiver in NamesIn(ix, d.file)) == Select(list, InTypesOf(rows, receiver))
  {
    if list != [] {
      var n := |list| - 1;
      ReceiverNarrows(ix, rows, list[..n], receiver);
      InTheFile(ix, rows, list[n].file, receiver);
    }
  }

  lemma InTheFile(ix: Index, rows: seq<Def>, file: string, name: string)
    requires IndexOf(ix, rows)
    ensures name in NamesIn(ix, file) <==> Defines(rows, file, name)
  {
    if Defines(rows, file, name) {
      var i :| 0 <= i < |rows| && rows[i].file == file && rows[i].name == name;
      assert file in ProjectFiles(rows);
    }
  }

  /** One edge through the whole cascade; the cache only saves work. */
  method ResolveEdge(ix: Index, ghost rows: seq<Def>, s: Snapshot, e: Edge, cache0: map<string, map<string, seq<Def>>>)
    returns (o: Outcome, cache: map<string, map<string, seq<Def>>>)
    requires IndexOf(ix, rows) && CacheGood(cache0, rows, s)
    ensures o == CascadeOf(rows, s)(e) && CacheGood(cache, rows, s)
  {
    cache := cache0;
    CascadeIs(rows, s, e);
    if NameOf(s, e).None? {
      return Left(LeftExternal), cache;
    }
    var name := NameOf(s, e).value;
    InTheFile(ix, rows, e.file, name);
    if name in NamesIn(ix, e.file) {
      var target := PickTarget(Listed(ix.nameIndex, name), e.file, e.arity);
      if target.Some? {
        return Resolved(SameFile, target.value, High), cache;
      }
    }
    if e.file !in cache {
      var reached := ImportedSymbols(ix, rows, s, e.file);
      cache := cache[e.file := reached];
    }
    var imported := Listed(cache[e.file], name);
    if |imported| == 1 {
      return Resolved(Imported, imported[0].key, High), cache;
    }
    if |imported| > 1 {
      var fit := PickByArity(imported, e.arity);
      return if fit.Some? then Resolved(Imported, fit.value, High) else Left(Ambiguous), cache;
    }
    o := AfterImports(ix, rows, s, e, name);
  }

  function HowOften(tiers: seq<Tier>, t: Tier): nat {
    if tiers == [] then 0
    else HowOften(tiers[..|tiers| - 1], t) + if tiers[|tiers| - 1] == t then 1 else 0
  }

  lemma HowOftenNext(tiers: seq<Tier>, u: Tier, t: Tier)
    ensures HowOften(tiers + [u], t) == HowOften(tiers, t) + if u == t then 1 else 0
  {
    assert (tiers + [u])[..|tiers|] == tiers;
  }

  lemma {:induction false} HowOftenAppend(a: seq<Tier>, b: seq<Tier>, t: Tier)
    ensures HowOften(a + b, t) == HowOften(a, t) + HowOften(b, t)
  {
    if b == [] {
      assert a + b == a;
    } else {
      var n := |b| - 1;
      HowOftenAppend(a, b[..n], t);
      HowOftenNext(a + b[..n], b[n], t);
      assert a + b == (a + b[..n]) + [b[n]];
    }
  }

  /** The counters say how often each tier occurs. */
  ghost predicate CountsTiers(st: Stats, tiers: seq<Tier>) {
    forall t :: Counter(st, t) == HowOften(tiers, t)
  }

  lemma CountStep(st: Stats, f: Edge -> Outcome, edges: seq<Edge>, e: Edge)
    requires CountsTiers(st, TiersOf(f, edges))
    ensures CountsTiers(Bumped(st, f(e).tier), TiersOf(f, edges + [e]))
  {
    assert (edges + [e])[..|edges|] == edges;
    BumpedCounts(st, TiersOf(f, edges), f(e).tier);
  }

  lemma BumpedCounts(st: Stats, tiers: seq<Tier>, t: Tier)
    requires CountsTiers(st, tiers)
    ensures CountsTiers(Bumped(st, t), tiers + [t])
  {
    forall u
      ensures Counter(Bumped(st, t), u) == HowOften(tiers + [t], u)
    {
      assert Counter(st, u) == HowOften(tiers, u);
      HowOftenNext(tiers, t, u);
    }
  }

  /** Counters and resolutions after the first `i` edges. */
  ghost predicate Walked(f: Edge -> Outcome, kind: EdgeKind, done: seq<Edge>, edges: seq<Edge>, st: Stats,
                         found: seq<Resolution>) {
    CountsTiers(st, TiersOf(f, done + edges)) && found == ResolutionsOf(f, kind, edges)
  }

  /** The resolutions, extended by an edge that resolved. */
  function Noted(found: seq<Resolution>, kind: EdgeKind, e: Edge, o: Outcome): seq<Resolution> {
    if o.target.Some? then found + [Resolution(kind, e.file, e.placeholder, o.target.value)] else found
  }

  lemma WalkOn(f: Edge -> Outcome, kind: EdgeKind, done: seq<Edge>, edges: seq<Edge>, i: nat, st: Stats,
               found: seq<Resolution>)
    requires i < |edges| && Walked(f, kind, done, edges[..i], st, found)
    ensures Walked(f, kind, done, edges[..i + 1], Bumped(st, f(edges[i]).tier),
                   Noted(found, kind, edges[i], f(edges[i])))
  {
    assert edges[..i + 1][..i] == edges[..i];
    assert done + edges[..i + 1] == (done + edges[..i]) + [edges[i]];
    CountStep(st, f, done + edges[..i], edges[i]);
  }

  method ResolveKind(ix: Index, ghost rows: seq<Def>, s: Snapshot, kind: EdgeKind, edges: seq<Edge>,
                     cache0: map<string, map<string, seq<Def>>>, stats0: Stats, ghost done: seq<Edge>,
                       ghost f: Edge -> Outcome)
    returns (cache: map<string, map<string, seq<Def>>>, stats: Stats, found: seq<Resolution>)
    requires IndexOf(ix, rows) && CacheGood(cache0, rows, s) && f == CascadeOf(rows, s)
    requires CountsTiers(stats0, TiersOf(f, done))
    ensures CacheGood(cache, rows, s)
    ensures Walked(f, kind, done, edges, stats, found)
  {
    cache, stats, found := cache0, stats0, [];
    assert done + edges[..0] == done;
    for i := 0 to |edges|
      invariant CacheGood(cache, rows, s) && Walked(f, kind, done, edges[..i], stats, found)
    {
      WalkOn(f, kind, done, edges, i, stats, found);
      var o;
      o, cache := ResolveEdge(ix, rows, s, edges[i], cache);
      stats := Bumped(stats, o.tier);
      if o.target.Some? {
        found := found + [Resolution(kind, edges[i].file, edges[i].placeholder, o.target.value)];
      }
    }
    assert edges[..|edges|] == edges;
  }

  /** Calls, then injections, then references. */
  method ResolveAll(rows: seq<Def>, s: Snapshot) returns (found: seq<Resolution>, stats: Stats)
    ensures CountsTiers(stats, TiersOf(CascadeOf(rows, s), AllEdges(s)))
    ensures found == AllResolutions(CascadeOf(rows, s), s)
  {
    var ix := Load(rows);
    ghost var f := CascadeOf(rows, s);
    var cache: map<string, map<string, seq<Def>>> := map[];
    stats := Stats(0, 0, 0, 0, 0, 0, 0);
    var calls, injected, referenced;
    cache, stats, calls := ResolveKind(ix, rows, s, Calls, s.calls, cache, stats, [], f);
    assert [] + s.calls == s.calls;
    cache, stats, injected := ResolveKind(ix, rows, s, Injects, Normalised(s.injects), cache, stats, s.calls, f);
    cache, stats, referenced := ResolveKind(ix, rows, s, References, Normalised(s.references), cache, stats,
      s.calls + Normalised(s.injects), f);
    found := calls + injected + referenced;
  }

  function AllResolutions(f: Edge -> Outcome, s: Snapshot): seq<Resolution> {
    ResolutionsOf(f, Calls, s.calls)
    + ResolutionsOf(f, Injects, Normalised(s.injects))
    + ResolutionsOf(f, References, Normalised(s.references))
  }

  /** One of the edges, looked up as it is, has this target. */
  ghost predicate SomeResolves(f: Edge -> Outcome, edges: seq<Edge>, r: Resolution) {
    exists i :: 0 <= i < |edges| && edges[i].file == r.file && edges[i].placeholder == r.placeholder
                && f(edges[i]).target == Some(r.target)
  }

  /** One of the edges, looked up without arity and receiver, has. */
  ghost predicate SomePlainResolves(f: Edge -> Outcome, edges: seq<Edge>, r: Resolution) {
    exists i :: 0 <= i < |edges| && edges[i].file == r.file && edges[i].placeholder == r.placeholder
                && f(Edge(r.file, r.placeholder, -1, None)).target == Some(r.target)
  }

  lemma {:induction false} ResolutionsAre(f: Edge -> Outcome, kind: EdgeKind, edges: seq<Edge>, r: Resolution)
    ensures r in ResolutionsOf(f, kind, edges) <==> r.kind == kind && SomeResolves(f, edges, r)
  {
    if edges != [] {
      var n := |edges| - 1;
      ResolutionsAre(f, kind, edges[..n], r);
      SomeResolvesSnoc(f, edges, r);
    }
  }

  lemma SomeResolvesSnoc(f: Edge -> Outcome, edges: seq<Edge>, r: Resolution)
    requires edges != []
    ensures
      var e := edges[|edges| - 1];
      SomeResolves(f, edges, r) <==>
        || SomeResolves(f, edges[..|edges| - 1], r)
        || (e.file == r.file && e.placeholder == r.placeholder && f(e).target == Some(r.target))
  {
    var n := |edges| - 1;
    forall i | 0 <= i < n
      ensures edges[..n][i] == edges[i]
    {
    }
    if SomeResolves(f, edges[..n], r) {
      var i :| 0 <= i < n && edges[..n][i].file == r.file && edges[..n][i].placeholder == r.placeholder
        && f(edges[..n][i]).target == Some(r.target);
      assert edges[i].file == r.file;
    }
  }

  lemma PlainEdges(f: Edge -> Outcome, edges: seq<Edge>, r: Resolution)
    ensures SomeResolves(f, Normalised(edges), r) <==> SomePlainResolves(f, edges, r)
  {
    var plain := Normalised(edges);
    if SomePlainResolves(f, edges, r) {
      var i :| 0 <= i < |edges| && edges[i].file == r.file && edges[i].placeholder == r.placeholder;
      assert plain[i] == Edge(r.file, r.placeholder, -1, None);
    }
    if SomeResolves(f, plain, r) {
      var i :| 0 <= i < |plain| && plain[i].file == r.file && plain[i].placeholder == r.placeholder
        && f(plain[i]).target == Some(r.target);
      assert plain[i] == Edge(r.file, r.placeholder, -1, None);
      assert edges[i].file == r.file;
    }
  }

  /** What a pass resolves: a call with its arity and receiver, an injection and a reference without either, each under
      its own kind, and nothing else. */
  lemma AllResolutionsAre(f: Edge -> Outcome, s: Snapshot, r: Resolution)
    ensures r in AllResolutions(f, s) <==>
      match r.kind
      case Calls => SomeResolves(f, s.calls, r)
      case Injects => SomePlainResolves(f, s.injects, r)
      case References => SomePlainResolves(f, s.references, r)
  {
    ResolutionsAre(f, Calls, s.calls, r);
    ResolutionsAre(f, Injects, Normalised(s.injects), r);
    ResolutionsAre(f, References, Normalised(s.references), r);
    PlainEdges(f, s.injects, r);
    PlainEdges(f, s.references, r);
  }

  // ---------------------------------------------------------------- conservation

  function ResolvedCount(st: Stats): nat {
    st.sameFile + st.imported + st.unique + st.namespaced + st.assembly
  }

  function Total(st: Stats): nat {
    ResolvedCount(st) + st.ambiguous + st.external
  }

  /** Every tier is one of the seven. */
  lemma {:induction false} SevenTiers(tiers: seq<Tier>)
    ensures
      HowOften(tiers, SameFile) + HowOften(tiers, Imported) + HowOften(tiers, Unique) + HowOften(tiers, Namespaced)
      + HowOften(tiers, Assembly) + HowOften(tiers, Ambiguous) + HowOften(tiers, LeftExternal) == |tiers|
  {
    if tiers != [] {
      SevenTiers(tiers[..|tiers| - 1]);
    }
  }

  /** A counter that counts tiers, field by field. */
  lemma CountersAre(st: Stats, tiers: seq<Tier>)
    requires CountsTiers(st, tiers)
    ensures st.sameFile == HowOften(tiers, SameFile) && st.imported == HowOften(tiers, Imported)
    ensures st.unique == HowOften(tiers, Unique)
    ensures st.namespaced == HowOften(tiers, Namespaced) && st.assembly == HowOften(tiers, Assembly)
    ensures st.ambiguous == HowOften(tiers, Ambiguous) && st.external == HowOften(tiers, LeftExternal)
  {
    assert Counter(st, SameFile) == st.sameFile && Counter(st, Imported) == st.imported &&
      Counter(st, Unique) == st.unique;
    assert Counter(st, Namespaced) == st.namespaced && Counter(st, Assembly) == st.assembly;
    assert Counter(st, Ambiguous) == st.ambiguous && Counter(st, LeftExternal) == st.external;
  }

  /** How many tiers leave the edge at its placeholder. */
  function LeftIn(tiers: seq<Tier>): nat {
    HowOften(tiers, Ambiguous) + HowOften(tiers, LeftExternal)
  }

  /** An edge has a target exactly when its tier is a resolved one. */
  ghost predicate Decisive(f: Edge -> Outcome) {
    forall e :: f(e).target.Some? <==> f(e).tier != Ambiguous && f(e).tier != LeftExternal
  }

  lemma ResolverDecides(rows: seq<Def>, s: Snapshot)
    ensures Decisive(CascadeOf(rows, s))
  {
    forall e
      ensures CascadeOf(rows, s)(e).target.Some? <==>
        CascadeOf(rows, s)(e).tier != Ambiguous && CascadeOf(rows, s)(e).tier != LeftExternal
    {
      TargetIffResolved(rows, s, e);
    }
  }

  lemma {:induction false} ResolutionsCount(f: Edge -> Outcome, kind: EdgeKind, edges: seq<Edge>)
    requires Decisive(f)
    ensures |ResolutionsOf(f, kind, edges)| + LeftIn(TiersOf(f, edges)) == |edges|
  {
    if edges != [] {
      var n := |edges| - 1;
      ResolutionsCount(f, kind, edges[..n]);
      LeftInAppend(TiersOf(f, edges[..n]), [f(edges[n]).tier]);
    }
  }

  lemma LeftInAppend(a: seq<Tier>, b: seq<Tier>)
    ensures LeftIn(a + b) == LeftIn(a) + LeftIn(b)
  {
    HowOftenAppend(a, b, Ambiguous);
    HowOftenAppend(a, b, LeftExternal);
  }

  /** No edge is lost or counted twice: the seven counters add up to all edges,
      and the five resolved ones to the resolutions that are written back. */
  lemma CountersConserve(st: Stats, f: Edge -> Outcome, s: Snapshot)
    requires CountsTiers(st, TiersOf(f, AllEdges(s))) && Decisive(f)
    ensures Total(st) == |s.calls| + |s.injects| + |s.references|
    ensures ResolvedCount(st) == |AllResolutions(f, s)|
  {
    var a, b, c := s.calls, Normalised(s.injects), Normalised(s.references);
    SevenTiers(TiersOf(f, AllEdges(s)));
    CountersAre(st, TiersOf(f, AllEdges(s)));
    ResolutionsCount(f, Calls, a);
    ResolutionsCount(f, Injects, b);
    ResolutionsCount(f, References, c);
    TiersAppend(f, a + b, c);
    TiersAppend(f, a, b);
    LeftInAppend(TiersOf(f, a) + TiersOf(f, b), TiersOf(f, c));
    LeftInAppend(TiersOf(f, a), TiersOf(f, b));
  }

  /** The pass as it runs. */
  lemma PassConserves(st: Stats, rows: seq<Def>, s: Snapshot)
    requires CountsTiers(st, TiersOf(CascadeOf(rows, s), AllEdges(s)))
    ensures Total(st) == |s.calls| + |s.injects| + |s.references|
    ensures ResolvedCount(st) == |AllResolutions(CascadeOf(rows, s), s)|
    ensures Total(st) == |s.calls| + |s.injects| <==> s.references == []
  {
    ResolverDecides(rows, s);
    CountersConserve(st, CascadeOf(rows, s), s);
  }
}
