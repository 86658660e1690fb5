/** The post-ingest symbol resolver: a cascade of tiers over an in-memory snapshot. */
module Resolver {
  import opened Wrappers

  /** One DEFINES row of the load query, with the line that the query orders by. */
  datatype Def = Def(file: string, name: string, key: string, params: Option<int>, namespace: Option<string>,
                     start: nat)

  datatype EdgeKind = Calls | Injects | References

  /** An edge to a placeholder; `arity` is -1 when the call site's is unknown. */
  datatype Edge = Edge(file: string, placeholder: string, arity: int, receiver: Option<string>)

  datatype Import = Import(mod: string, relative: bool)

  /** Everything of the snapshot that is not derived from the DEFINES rows.
      `target` stands for the file-system probing of a relative import. */
  datatype Snapshot = Snapshot(
    imports: map<string, seq<Import>>, placeholders: map<string, string>,
    calls: seq<Edge>, injects: seq<Edge>, references: seq<Edge>,
    project: map<string, string>, assemblies: map<string, set<string>>,
    exposed: map<string, seq<(string, string)>>,
    target: (string, string, set<string>) -> Option<string>)

  datatype Confidence = High | Medium | External
  datatype Target = InProject(key: string, confidence: Confidence) | FromAssembly(key: string, assembly: string)

  /** Which counter an edge moves. */
  datatype Tier = SameFile | Imported | Unique | Namespaced | Assembly | Ambiguous | LeftExternal

  datatype Outcome = Outcome(tier: Tier, target: Option<Target>)

  // ---------------------------------------------------------------- the index over DEFINES rows

  function Select(rows: seq<Def>, keep: Def -> bool): seq<Def> {
    if rows == [] then []
    else
      var init, last := Select(rows[..|rows| - 1], keep), rows[|rows| - 1];
      if keep(last) then init + [last] else init
  }

  function Named(name: string): Def -> bool {
    (d: Def) => d.name == name
  }

  function InFile(file: string): Def -> bool {
    (d: Def) => d.file == file
  }

  function WithArity(arity: int): Def -> bool {
    (d: Def) => d.params == Some(arity)
  }

  function InNamespace(namespace: string): Def -> bool {
    (d: Def) => d.namespace == Some(namespace)
  }

  /** `name_index[name]`. */
  function Candidates(rows: seq<Def>, name: string): seq<Def> {
    Select(rows, Named(name))
  }

  predicate Defines(rows: seq<Def>, file: string, name: string) {
    exists i :: 0 <= i < |rows| && rows[i].file == file && rows[i].name == name
  }

  function Namespaces(rows: seq<Def>): set<string> {
    set i | 0 <= i < |rows| && rows[i].namespace.Some? :: rows[i].namespace.value
  }

  /** The file's own namespace, if its symbols agree on one. */
  function OwnNamespace(rows: seq<Def>, file: string): Option<string> {
    var seen := Namespaces(Select(rows, InFile(file)));
    if |seen| == 1 then Some(Only(seen)) else None
  }

  function Only<T(==)>(s: set<T>): (x: T)
    requires |s| == 1
    ensures s == {x}
  {
    Singleton(s);
    var x :| x in s;
    x
  }

  lemma Singleton<T>(s: set<T>)
    requires |s| == 1
    ensures s != {} && forall x, y :: x in s && y in s ==> x == y
  {
    forall x, y | x in s && y in s
      ensures x == y
    {
      assert |s - {x}| == 0;
      assert y !in s - {x};
    }
  }

  function ProjectFiles(rows: seq<Def>): set<string> {
    set i | 0 <= i < |rows| :: rows[i].file
  }

  // ---------------------------------------------------------------- picks

  /** The first definition in the file, one with the call's arity first. */
  function PickTarget(candidates: seq<Def>, file: string, arity: int): Option<string> {
    if candidates == [] then None
    else
      var here := Select(candidates, InFile(file));
      var fitting := Select(here, WithArity(arity));
      if here == [] then Some(candidates[0].key)
      else if arity >= 0 && fitting != [] then Some(fitting[0].key)
      else Some(here[0].key)
  }

  /** The only candidate with that arity, unless the candidates span namespaces. */
  function PickByArity(candidates: seq<Def>, arity: int): Option<string> {
    if arity < 0 || |Namespaces(candidates)| >= 2 then None
    else
      var fitting := Select(candidates, WithArity(arity));
      if |fitting| == 1 then Some(fitting[0].key) else None
  }

  /** The definitions of `name` that the file's relative imports reach, import by import. */
  function ImportedFrom(rows: seq<Def>, s: Snapshot, file: string, imports: seq<Import>, name: string): seq<Def> {
    if imports == [] then []
    else
      var init, last := ImportedFrom(rows, s, file, imports[..|imports| - 1], name), imports[|imports| - 1];
      var target := if last.relative then s.target(file, last.mod, ProjectFiles(rows)) else None;
      if target.Some? then init + Select(Candidates(rows, name), InFile(target.value)) else init
  }

  function ImportsOf(s: Snapshot, file: string): seq<Import> {
    if file in s.imports then s.imports[file] else []
  }

  function ImportedCandidates(rows: seq<Def>, s: Snapshot, file: string, name: string): seq<Def> {
    ImportedFrom(rows, s, file, ImportsOf(s, file), name)
  }

  function Matches(exposed: seq<(string, string)>, used: set<string>): seq<(string, string)> {
    if exposed == [] then []
    else
      var init, last := Matches(exposed[..|exposed| - 1], used), exposed[|exposed| - 1];
      if last.0 in used then init + [last] else init
  }

  /** The assemblies that the file's project uses. */
  function UsedBy(s: Snapshot, file: string): set<string> {
    if file in s.project && s.project[file] in s.assemblies then s.assemblies[s.project[file]] else {}
  }

  /** The unique (assembly, type) that exposes the name to the file. */
  function ViaAssembly(s: Snapshot, file: string, name: string): Option<(string, string)> {
    var exposed := if name in s.exposed then s.exposed[name] else [];
    var matches := Matches(exposed, UsedBy(s, file));
    if UsedBy(s, file) != {} && |matches| == 1 then Some(matches[0]) else None
  }

  // ---------------------------------------------------------------- the cascade

  function Resolved(tier: Tier, key: string, confidence: Confidence): Outcome {
    Outcome(tier, Some(InProject(key, confidence)))
  }

  function Left(tier: Tier): Outcome {
    Outcome(tier, None)
  }

  /** The name of an edge's placeholder; an unknown or empty one is external. */
  function NameOf(s: Snapshot, e: Edge): Option<string> {
    if e.placeholder in s.placeholders && s.placeholders[e.placeholder] != ""
    then Some(s.placeholders[e.placeholder]) else None
  }

  function Resolve(rows: seq<Def>, s: Snapshot, e: Edge): Outcome {
    match NameOf(s, e)
    case None => Left(LeftExternal)
    case Some(name) =>
      var here := if Defines(rows, e.file, name) then PickTarget(Candidates(rows, name), e.file, e.arity) else None;
      if here.Some? then Resolved(SameFile, here.value, High) else ByImports(rows, s, e, name)
  }

  function ByImports(rows: seq<Def>, s: Snapshot, e: Edge, name: string): Outcome {
    var imported := ImportedCandidates(rows, s, e.file, name);
    if |imported| == 1 then Resolved(Imported, imported[0].key, High)
    else if |imported| > 1 then
      var fit := PickByArity(imported, e.arity);
      if fit.Some? then Resolved(Imported, fit.value, High) else Left(Ambiguous)
    else ByReceiver(rows, s, e, name)
  }

  function InTypesOf(rows: seq<Def>, receiver: string): Def -> bool {
    (d: Def) => Defines(rows, d.file, receiver)
  }

  function ByReceiver(rows: seq<Def>, s: Snapshot, e: Edge, name: string): Outcome {
    if e.receiver.None? || e.receiver.value == "" then ByNamespace(rows, s, e, name)
    else
      var narrowed := Select(Candidates(rows, name), InTypesOf(rows, e.receiver.value));
      if |narrowed| == 1 then Resolved(Unique, narrowed[0].key, High)
      else
        var fit := if |narrowed| > 1 then PickByArity(narrowed, e.arity) else None;
        if fit.Some? then Resolved(Unique, fit.value, High) else ByNamespace(rows, s, e, name)
  }

  function ImportedNamespace(s: Snapshot, file: string): Def -> bool {
    (d: Def) =>
      d.namespace.Some? && exists i :: 0 <= i < |ImportsOf(s, file)| && ImportsOf(s, file)[i].mod == d.namespace.value
  }

  function ByNamespace(rows: seq<Def>, s: Snapshot, e: Edge, name: string): Outcome {
    var candidates, own := Candidates(rows, name), OwnNamespace(rows, e.file);
    var mine := if own.Some? then Select(candidates, InNamespace(own.value)) else [];
    if |mine| == 1 then Resolved(Namespaced, mine[0].key, High)
    else if |mine| > 1 then
      var fit := PickByArity(mine, e.arity);
      if fit.Some? then Resolved(Namespaced, fit.value, High) else Left(Ambiguous)
    else
      var used := Select(candidates, ImportedNamespace(s, e.file));
      if |used| == 1 then Resolved(Namespaced, used[0].key, High) else ByProject(rows, s, e, name)
  }

  function ByProject(rows: seq<Def>, s: Snapshot, e: Edge, name: string): Outcome {
    var candidates := Candidates(rows, name);
    if |candidates| == 1 then Resolved(Unique, candidates[0].key, Medium)
    else if |candidates| > 1 then
      var fit := PickByArity(candidates, e.arity);
      if fit.Some? then Resolved(Unique, fit.value, Medium) else Left(Ambiguous)
    else
      match ViaAssembly(s, e.file, name)
      case Some(found) => Outcome(Assembly, Some(FromAssembly(found.1, found.0)))
      case None => Left(LeftExternal)
  }

  // ---------------------------------------------------------------- soundness

  lemma {:induction false} SelectSound(rows: seq<Def>, keep: Def -> bool)
    ensures forall d :: d in Select(rows, keep) <==> d in rows && keep(d)
  {
    if rows != [] {
      SelectSound(rows[..|rows| - 1], keep);
      assert rows == rows[..|rows| - 1] + [rows[|rows| - 1]];
    }
  }

  lemma SelectSnoc(rows: seq<Def>, d: Def, keep: Def -> bool)
    ensures Select(rows + [d], keep) == if keep(d) then Select(rows, keep) + [d] else Select(rows, keep)
  {
    assert (rows + [d])[..|rows|] == rows;
  }

  predicate DefinedAs(rows: seq<Def>, key: string, name: string) {
    exists i :: 0 <= i < |rows| && rows[i].key == key && rows[i].name == name
  }

  /** All candidates of a list are definitions of the name. */
  ghost predicate AllNamed(rows: seq<Def>, list: seq<Def>, name: string) {
    forall d :: d in list ==> d in rows && d.name == name
  }

  lemma PickSound(rows: seq<Def>, list: seq<Def>, name: string, arity: int)
    requires AllNamed(rows, list, name)
    ensures |list| >= 1 ==> DefinedAs(rows, list[0].key, name)
    ensures PickByArity(list, arity).Some? ==> DefinedAs(rows, PickByArity(list, arity).value, name)
  {
    SelectSound(list, WithArity(arity));
    var fitting := Select(list, WithArity(arity));
    assert |list| >= 1 ==> list[0] in list;
    assert |fitting| >= 1 ==> fitting[0] in fitting;
  }

  lemma {:induction false} ImportedSound(rows: seq<Def>, s: Snapshot, file: string, imports: seq<Import>, name: string)
    ensures AllNamed(rows, ImportedFrom(rows, s, file, imports, name), name)
  {
    if imports != [] {
      ImportedSound(rows, s, file, imports[..|imports| - 1], name);
      SelectSound(rows, Named(name));
      var last := imports[|imports| - 1];
      var target := if last.relative then s.target(file, last.mod, ProjectFiles(rows)) else None;
      if target.Some? {
        SelectSound(Candidates(rows, name), InFile(target.value));
      }
    }
  }

  /** The unique type that a used assembly exposes under the name. */
  predicate UniquelyExposed(s: Snapshot, file: string, name: string, key: string, assembly: string) {
    && name in s.exposed
    && Matches(s.exposed[name], UsedBy(s, file)) == [(assembly, key)]
  }

  predicate Grounded(rows: seq<Def>, s: Snapshot, e: Edge, name: string, o: Outcome) {
    match o.target
    case None => true
    case Some(InProject(key, _)) => DefinedAs(rows, key, name)
    case Some(FromAssembly(key, assembly)) => o.tier == Assembly && UniquelyExposed(s, e.file, name, key, assembly)
  }

  lemma ProjectSound(rows: seq<Def>, s: Snapshot, e: Edge, name: string)
    ensures Grounded(rows, s, e, name, ByProject(rows, s, e, name))
  {
    SelectSound(rows, Named(name));
    PickSound(rows, Candidates(rows, name), name, e.arity);
  }

  lemma NamespaceSound(rows: seq<Def>, s: Snapshot, e: Edge, name: string)
    ensures Grounded(rows, s, e, name, ByNamespace(rows, s, e, name))
  {
    var candidates, own := Candidates(rows, name), OwnNamespace(rows, e.file);
    SelectSound(rows, Named(name));
    if own.Some? {
      SelectSound(candidates, InNamespace(own.value));
      PickSound(rows, Select(candidates, InNamespace(own.value)), name, e.arity);
    }
    SelectSound(candidates, ImportedNamespace(s, e.file));
    PickSound(rows, Select(candidates, ImportedNamespace(s, e.file)), name, e.arity);
    ProjectSound(rows, s, e, name);
  }

  lemma ReceiverSound(rows: seq<Def>, s: Snapshot, e: Edge, name: string)
    ensures Grounded(rows, s, e, name, ByReceiver(rows, s, e, name))
  {
    SelectSound(rows, Named(name));
    if e.receiver.Some? {
      SelectSound(Candidates(rows, name), InTypesOf(rows, e.receiver.value));
      PickSound(rows, Select(Candidates(rows, name), InTypesOf(rows, e.receiver.value)), name, e.arity);
    }
    NamespaceSound(rows, s, e, name);
  }

  lemma PickTargetSound(rows: seq<Def>, file: string, name: string, arity: int)
    ensures
      var pick := PickTarget(Candidates(rows, name), file, arity);
      pick.Some? ==> DefinedAs(rows, pick.value, name)
  {
    var candidates := Candidates(rows, name);
    var here := Select(candidates, InFile(file));
    SelectSound(rows, Named(name));
    SelectSound(candidates, InFile(file));
    SelectSound(here, WithArity(arity));
    PickSound(rows, candidates, name, arity);
    PickSound(rows, here, name, arity);
    PickSound(rows, Select(here, WithArity(arity)), name, arity);
  }

  /** Every in-project target is a defined symbol of the placeholder's name, every
      assembly target is the one type exposed to the file's project under it. */
  lemma ResolutionIsGrounded(rows: seq<Def>, s: Snapshot, e: Edge)
    requires Resolve(rows, s, e).target.Some?
    ensures NameOf(s, e).Some? && Grounded(rows, s, e, NameOf(s, e).value, Resolve(rows, s, e))
  {
    var name := NameOf(s, e).value;
    PickTargetSound(rows, e.file, name, e.arity);
    ImportedSound(rows, s, e.file, ImportsOf(s, e.file), name);
    PickSound(rows, ImportedCandidates(rows, s, e.file, name), name, e.arity);
    ReceiverSound(rows, s, e, name);
  }

  /** An arity tiebreak answers exactly when no two namespaces compete and exactly
      one candidate has the arity. */
  lemma ArityPickIff(candidates: seq<Def>, arity: int, key: string)
    ensures PickByArity(candidates, arity) == Some(key) <==>
      && arity >= 0
      && (forall a, b :: a in candidates && b in candidates && a.namespace.Some? && b.namespace.Some? ==>
          a.namespace == b.namespace)
      && |Select(candidates, WithArity(arity))| == 1 && Select(candidates, WithArity(arity))[0].key == key
  {
    var seen := Namespaces(candidates);
    if |seen| < 2 {
      forall a, b | a in candidates && b in candidates && a.namespace.Some? && b.namespace.Some?
        ensures a.namespace == b.namespace
      {
        var i :| 0 <= i < |candidates| && candidates[i] == a;
        var j :| 0 <= j < |candidates| && candidates[j] == b;
        assert a.namespace.value in seen && b.namespace.value in seen;
        if |seen| == 1 {
          Singleton(seen);
        }
      }
    } else {
      TwoDiffer(seen);
      var x, y :| x in seen && y in seen && x != y;
      var i :| 0 <= i < |candidates| && candidates[i].namespace == Some(x);
      var j :| 0 <= j < |candidates| && candidates[j].namespace == Some(y);
      assert candidates[i] in candidates && candidates[j] in candidates;
    }
  }

  lemma TwoDiffer<T>(s: set<T>)
    requires |s| >= 2
    ensures exists x, y :: x in s && y in s && x != y
  {
    var x :| x in s;
    assert |s - {x}| >= 1;
    var y :| y in s - {x};
  }

  /** A resolved edge has a target and an unresolved one has none. */
  lemma TargetIffResolved(rows: seq<Def>, s: Snapshot, e: Edge)
    ensures Resolve(rows, s, e).target.Some? <==>
      Resolve(rows, s, e).tier != Ambiguous && Resolve(rows, s, e).tier != LeftExternal
  {
  }
}
