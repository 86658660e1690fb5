/** One law for each tier of the resolver, told on the rows and the imports. */
module ResolverTiers {
  import opened Wrappers
  import opened Resolver

  // ---------------------------------------------------------------- how many rows

  ghost predicate NoneOf(rows: seq<Def>, p: Def -> bool) {
    forall i :: 0 <= i < |rows| ==> !p(rows[i])
  }

  ghost predicate OnlyAt(rows: seq<Def>, p: Def -> bool, i: nat) {
    i < |rows| && p(rows[i]) && forall j :: 0 <= j < |rows| && p(rows[j]) ==> j == i
  }

  ghost predicate FirstAt(rows: seq<Def>, p: Def -> bool, i: nat) {
    i < |rows| && p(rows[i]) && forall j :: 0 <= j < i ==> !p(rows[j])
  }

  ghost predicate Several(rows: seq<Def>, p: Def -> bool) {
    exists i, j :: 0 <= i < j < |rows| && p(rows[i]) && p(rows[j])
  }

  /** Among the rows of which `p` holds, no two are of different namespaces and exactly one has the arity. */
  ghost predicate FitsAlone(rows: seq<Def>, p: Def -> bool, arity: int, i: nat) {
    && arity >= 0
    && (forall a, b :: a in rows && b in rows && p(a) && p(b) && a.namespace.Some? && b.namespace.Some? ==>
          a.namespace == b.namespace)
    && OnlyAt(rows, (d: Def) => p(d) && d.params == Some(arity), i)
  }

  ghost predicate NoneFits(rows: seq<Def>, p: Def -> bool, arity: int) {
    forall i: nat :: !FitsAlone(rows, p, arity, i)
  }

  // ---------------------------------------------------------------- what a selection holds

  lemma {:induction false} SelectNone(rows: seq<Def>, p: Def -> bool)
    requires NoneOf(rows, p)
    ensures Select(rows, p) == []
  {
    if rows != [] {
      SelectNone(rows[..|rows| - 1], p);
    }
  }

  lemma SelectSome(rows: seq<Def>, p: Def -> bool, i: nat)
    requires i < |rows| && p(rows[i])
    ensures Select(rows, p) != []
  {
    SelectSound(rows, p);
    assert rows[i] in Select(rows, p);
  }

  lemma {:induction false} SelectOne(rows: seq<Def>, p: Def -> bool, i: nat)
    requires OnlyAt(rows, p, i)
    ensures Select(rows, p) == [rows[i]]
  {
    var n := |rows| - 1;
    if i == n {
      SelectNone(rows[..n], p);
    } else {
      SelectOne(rows[..n], p, i);
    }
  }

  lemma {:induction false} SelectSeveral(rows: seq<Def>, p: Def -> bool)
    requires Several(rows, p)
    ensures |Select(rows, p)| > 1
  {
    var n := |rows| - 1;
    var i, j :| 0 <= i < j < |rows| && p(rows[i]) && p(rows[j]);
    if j == n {
      SelectSome(rows[..n], p, i);
    } else {
      assert rows[..n][i] == rows[i] && rows[..n][j] == rows[j];
      SelectSeveral(rows[..n], p);
    }
  }

  lemma {:induction false} SelectFirst(rows: seq<Def>, p: Def -> bool, i: nat)
    requires FirstAt(rows, p, i)
    ensures Select(rows, p) != [] && Select(rows, p)[0] == rows[i]
  {
    var n := |rows| - 1;
    if i == n {
      SelectNone(rows[..n], p);
    } else {
      SelectFirst(rows[..n], p, i);
    }
  }

  lemma {:induction false} SelectTwice(rows: seq<Def>, p: Def -> bool, q: Def -> bool)
    ensures Select(Select(rows, p), q) == Select(rows, (d: Def) => p(d) && q(d))
  {
    if rows != [] {
      var init, last := rows[..|rows| - 1], rows[|rows| - 1];
      SelectTwice(init, p, q);
      if p(last) {
        SelectSnoc(Select(init, p), last, q);
      }
    }
  }

  lemma {:induction false} SelectSame(rows: seq<Def>, p: Def -> bool, q: Def -> bool)
    requires forall d :: d in rows ==> (p(d) <==> q(d))
    ensures Select(rows, p) == Select(rows, q)
  {
    if rows != [] {
      SelectSame(rows[..|rows| - 1], p, q);
    }
  }

  lemma {:induction false} SelectAppend(a: seq<Def>, b: seq<Def>, p: Def -> bool)
    ensures Select(a + b, p) == Select(a, p) + Select(b, p)
  {
    if b == [] {
      assert a + b == a;
    } else {
      var n := |b| - 1;
      assert (a + b)[..|a + b| - 1] == a + b[..n];
      SelectAppend(a, b[..n], p);
    }
  }

  /** Nothing, one row, or several. */
  lemma OneOrNot(rows: seq<Def>, p: Def -> bool)
    ensures |Select(rows, p)| == 1 ==> exists i: nat :: OnlyAt(rows, p, i)
  {
    if i :| 0 <= i < |rows| && p(rows[i]) {
      if !OnlyAt(rows, p, i) {
        SelectSeveral(rows, p);
      }
    } else {
      SelectNone(rows, p);
    }
  }

  /** The tiebreak, on the rows it chooses from. */
  lemma PickAmong(rows: seq<Def>, p: Def -> bool, arity: int)
    ensures forall i: nat :: FitsAlone(rows, p, arity, i) ==> PickByArity(Select(rows, p), arity) == Some(rows[i].key)
    ensures NoneFits(rows, p, arity) ==> PickByArity(Select(rows, p), arity).None?
  {
    forall i: nat | FitsAlone(rows, p, arity, i)
      ensures PickByArity(Select(rows, p), arity) == Some(rows[i].key)
    {
      PickFitting(rows, p, arity, i);
    }
    if PickByArity(Select(rows, p), arity).Some? {
      PickedFits(rows, p, arity);
    }
  }

  lemma PickFitting(rows: seq<Def>, p: Def -> bool, arity: int, i: nat)
    requires FitsAlone(rows, p, arity, i)
    ensures PickByArity(Select(rows, p), arity) == Some(rows[i].key)
  {
    var q := (d: Def) => p(d) && d.params == Some(arity);
    SelectSound(rows, p);
    SelectTwice(rows, p, WithArity(arity));
    SelectSame(rows, (d: Def) => p(d) && WithArity(arity)(d), q);
    SelectOne(rows, q, i);
    ArityPickIff(Select(rows, p), arity, rows[i].key);
  }

  lemma PickedFits(rows: seq<Def>, p: Def -> bool, arity: int)
    requires PickByArity(Select(rows, p), arity).Some?
    ensures exists i: nat :: FitsAlone(rows, p, arity, i)
  {
    var q := (d: Def) => p(d) && d.params == Some(arity);
    SelectSound(rows, p);
    SelectTwice(rows, p, WithArity(arity));
    SelectSame(rows, (d: Def) => p(d) && WithArity(arity)(d), q);
    ArityPickIff(Select(rows, p), arity, PickByArity(Select(rows, p), arity).value);
    OneOrNot(rows, q);
    var i :| OnlyAt(rows, q, i);
    assert FitsAlone(rows, p, arity, i);
  }

  // ---------------------------------------------------------------- what the imports reach

  /** Import `j` of the list leads to the file of row `i`, a definition of the name of which `p` holds. */
  predicate Leads(rows: seq<Def>, s: Snapshot, file: string, imports: seq<Import>, name: string, p: Def -> bool,
                  j: int, i: int) {
    && 0 <= j < |imports| && 0 <= i < |rows|
    && imports[j].relative && s.target(file, imports[j].mod, (set k | 0 <= k < |rows| :: rows[k].file)) ==
      Some(rows[i].file)
    && rows[i].name == name && p(rows[i])
  }

  function LedTo(name: string, target: string, p: Def -> bool): Def -> bool {
    (d: Def) => d.name == name && d.file == target && p(d)
  }

  function Reached(rows: seq<Def>, s: Snapshot, file: string, imports: seq<Import>, name: string,
                   p: Def -> bool): seq<Def> {
    Select(ImportedFrom(rows, s, file, imports, name), p)
  }

  lemma HeldInFile(rows: seq<Def>, name: string, target: string, p: Def -> bool)
    ensures Select(Select(Candidates(rows, name), InFile(target)), p) == Select(rows, LedTo(name, target, p))
  {
    var q := (d: Def) => Named(name)(d) && InFile(target)(d);
    SelectTwice(rows, Named(name), InFile(target));
    SelectTwice(rows, q, p);
    SelectSame(rows, (d: Def) => q(d) && p(d), LedTo(name, target, p));
  }

  lemma ReachedStep(rows: seq<Def>, s: Snapshot, file: string, imports: seq<Import>, name: string, p: Def -> bool)
    requires imports != []
    ensures
      var n := |imports| - 1;
      var target := if imports[n].relative then s.target(file, imports[n].mod, ProjectFiles(rows)) else None;
      Reached(rows, s, file, imports, name, p) == Reached(rows, s, file, imports[..n], name, p)
        + if target.Some? then Select(rows, LedTo(name, target.value, p)) else []
  {
    var n := |imports| - 1;
    var target := if imports[n].relative then s.target(file, imports[n].mod, ProjectFiles(rows)) else None;
    if target.Some? {
      SelectAppend(ImportedFrom(rows, s, file, imports[..n], name),
                   Select(Candidates(rows, name), InFile(target.value)),
                   p);
      HeldInFile(rows, name, target.value, p);
    }
  }

  lemma {:induction false} ReachedNone(rows: seq<Def>, s: Snapshot, file: string, imports: seq<Import>, name: string,
                                       p: Def -> bool)
    requires forall j, i :: !Leads(rows, s, file, imports, name, p, j, i)
    ensures Reached(rows, s, file, imports, name, p) == []
  {
    if imports != [] {
      var n := |imports| - 1;
      ReachedStep(rows, s, file, imports, name, p);
      NotLed(rows, s, file, imports, name, p);
      forall j, i
        ensures !Leads(rows, s, file, imports[..n], name, p, j, i)
      {
        assert !Leads(rows, s, file, imports, name, p, j, i);
      }
      ReachedNone(rows, s, file, imports[..n], name, p);
    }
  }

  /** Exactly one import leads to the name, and to one definition of it. */
  ghost predicate LeadsOnly(rows: seq<Def>, s: Snapshot, file: string, imports: seq<Import>, name: string,
                            p: Def -> bool, j: int, i: int) {
    && Leads(rows, s, file, imports, name, p, j, i)
    && forall j', i' :: Leads(rows, s, file, imports, name, p, j', i') ==> j' == j && i' == i
  }

  lemma {:induction false} ReachedOne(rows: seq<Def>, s: Snapshot, file: string, imports: seq<Import>, name: string,
                                      p: Def -> bool, j: int, i: int)
    requires LeadsOnly(rows, s, file, imports, name, p, j, i)
    ensures Reached(rows, s, file, imports, name, p) == [rows[i]]
  {
    var n := |imports| - 1;
    ReachedStep(rows, s, file, imports, name, p);
    forall j', i'
      ensures Leads(rows, s, file, imports[..n], name, p, j', i') <==>
        j' < n && Leads(rows, s, file, imports, name, p, j', i')
    {
    }
    if j == n {
      ReachedNone(rows, s, file, imports[..n], name, p);
      OnlyLed(rows, s, file, imports, name, p, i);
    } else {
      ReachedOne(rows, s, file, imports[..n], name, p, j, i);
      NotLed(rows, s, file, imports, name, p);
    }
  }

  lemma OnlyLed(rows: seq<Def>, s: Snapshot, file: string, imports: seq<Import>, name: string, p: Def -> bool, i: int)
    requires imports != [] && LeadsOnly(rows, s, file, imports, name, p, |imports| - 1, i)
    ensures Select(rows, LedTo(name, rows[i].file, p)) == [rows[i]]
  {
    forall i' | 0 <= i' < |rows| && LedTo(name, rows[i].file, p)(rows[i'])
      ensures i' == i
    {
      assert Leads(rows, s, file, imports, name, p, |imports| - 1, i');
    }
    SelectOne(rows, LedTo(name, rows[i].file, p), i);
  }

  lemma NotLed(rows: seq<Def>, s: Snapshot, file: string, imports: seq<Import>, name: string, p: Def -> bool)
    requires imports != []
    requires forall j, i :: j == |imports| - 1 ==> !Leads(rows, s, file, imports, name, p, j, i)
    ensures
      var last := imports[|imports| - 1];
      var target := if last.relative then s.target(file, last.mod, ProjectFiles(rows)) else None;
      target.Some? ==> Select(rows, LedTo(name, target.value, p)) == []
  {
    var last := imports[|imports| - 1];
    var target := if last.relative then s.target(file, last.mod, ProjectFiles(rows)) else None;
    if target.Some? {
      forall i | 0 <= i < |rows|
        ensures !LedTo(name, target.value, p)(rows[i])
      {
        assert !Leads(rows, s, file, imports, name, p, |imports| - 1, i);
      }
      SelectNone(rows, LedTo(name, target.value, p));
    }
  }

  lemma {:induction false} ReachedSome(rows: seq<Def>, s: Snapshot, file: string, imports: seq<Import>, name: string,
                                       p: Def -> bool, j: int, i: int)
    requires Leads(rows, s, file, imports, name, p, j, i)
    ensures Reached(rows, s, file, imports, name, p) != []
  {
    var n := |imports| - 1;
    ReachedStep(rows, s, file, imports, name, p);
    if j < n {
      LeadsBefore(rows, s, file, imports, name, p, j, i);
      ReachedSome(rows, s, file, imports[..n], name, p, j, i);
    } else {
      SelectSome(rows, LedTo(name, rows[i].file, p), i);
    }
  }

  lemma LeadsBefore(rows: seq<Def>, s: Snapshot, file: string, imports: seq<Import>, name: string, p: Def -> bool,
                    j: int, i: int)
    requires Leads(rows, s, file, imports, name, p, j, i) && j < |imports| - 1
    ensures Leads(rows, s, file, imports[..|imports| - 1], name, p, j, i)
  {
  }

  /** Two imports, or one import and two definitions: counted twice either way. */
  lemma {:induction false} ReachedSeveral(rows: seq<Def>, s: Snapshot, file: string, imports: seq<Import>,
                                          name: string, p: Def -> bool, j: int, i: int, j': int, i': int)
    requires Leads(rows, s, file, imports, name, p, j, i) && Leads(rows, s, file, imports, name, p, j', i')
    requires j < j' || (j == j' && i < i')
    ensures |Reached(rows, s, file, imports, name, p)| > 1
  {
    var n := |imports| - 1;
    ReachedStep(rows, s, file, imports, name, p);
    if j' < n {
      assert Leads(rows, s, file, imports[..n], name, p, j, i) && Leads(rows, s, file, imports[..n], name, p, j', i');
      ReachedSeveral(rows, s, file, imports[..n], name, p, j, i, j', i');
    } else if j < n {
      assert Leads(rows, s, file, imports[..n], name, p, j, i);
      ReachedSome(rows, s, file, imports[..n], name, p, j, i);
      SelectSome(rows, LedTo(name, rows[i'].file, p), i');
    } else {
      SelectSeveral(rows, LedTo(name, rows[i].file, p));
    }
  }

  // ---------------------------------------------------------------- the conditions of the tiers

  /** The edge asks for a definition of this name. */
  predicate Asks(s: Snapshot, e: Edge, name: string) {
    e.placeholder in s.placeholders && s.placeholders[e.placeholder] == name && name != ""
  }

  function Called(name: string): Def -> bool {
    (d: Def) => d.name == name
  }

  function Here(e: Edge, name: string): Def -> bool {
    (d: Def) => d.name == name && d.file == e.file
  }

  function HereFitting(e: Edge, name: string): Def -> bool {
    (d: Def) => d.name == name && d.file == e.file && d.params == Some(e.arity)
  }

  /** Defined in a file that defines the receiver's type too. */
  function BesideType(rows: seq<Def>, e: Edge, name: string): Def -> bool {
    (d: Def) =>
      && d.name == name && e.receiver.Some?
      && exists k :: 0 <= k < |rows| && rows[k].file == d.file && rows[k].name == e.receiver.value
  }

  function InSpace(name: string, space: string): Def -> bool {
    (d: Def) => d.name == name && d.namespace == Some(space)
  }

  /** Defined in a namespace that an import of the file spells. */
  function InOpened(s: Snapshot, e: Edge, name: string): Def -> bool {
    (d: Def) =>
      && d.name == name && d.namespace.Some? && e.file in s.imports
      && exists k :: 0 <= k < |s.imports[e.file]| && s.imports[e.file][k].mod == d.namespace.value
  }

  function Anything(): Def -> bool {
    (d: Def) => true
  }

  function OfArity(arity: int): Def -> bool {
    (d: Def) => d.params == Some(arity)
  }

  ghost predicate Reaches(rows: seq<Def>, s: Snapshot, e: Edge, name: string, p: Def -> bool, j: int, i: int) {
    e.file in s.imports && Leads(rows, s, e.file, s.imports[e.file], name, p, j, i)
  }

  ghost predicate ReachesNothing(rows: seq<Def>, s: Snapshot, e: Edge, name: string) {
    forall j, i :: !Reaches(rows, s, e, name, Anything(), j, i)
  }

  ghost predicate ReachesOnly(rows: seq<Def>, s: Snapshot, e: Edge, name: string, p: Def -> bool, j: int, i: int) {
    && Reaches(rows, s, e, name, p, j, i)
    && forall j', i' :: Reaches(rows, s, e, name, p, j', i') ==> j' == j && i' == i
  }

  ghost predicate ReachesSeveral(rows: seq<Def>, s: Snapshot, e: Edge, name: string) {
    exists j, i, j', i' ::
      && Reaches(rows, s, e, name, Anything(), j, i) && Reaches(rows, s, e, name, Anything(), j', i')
      && (j < j' || (j == j' && i < i'))
  }

  /** The tiebreak among what the imports reach. */
  ghost predicate ReachesFitting(rows: seq<Def>, s: Snapshot, e: Edge, name: string, j: int, i: int) {
    && e.arity >= 0
    && (forall j1, i1, j2, i2 ::
          && Reaches(rows, s, e, name, Anything(), j1, i1) && Reaches(rows, s, e, name, Anything(), j2, i2)
          && rows[i1].namespace.Some? && rows[i2].namespace.Some? ==>
          rows[i1].namespace == rows[i2].namespace)
    && ReachesOnly(rows, s, e, name, OfArity(e.arity), j, i)
  }

  /** The receiver is unknown, or narrows to nothing, or to several that the arity does not tell apart. */
  ghost predicate ReceiverFails(rows: seq<Def>, e: Edge, name: string) {
    || e.receiver.GetOr("") == ""
    || NoneOf(rows, BesideType(rows, e, name))
    || (Several(rows, BesideType(rows, e, name)) && NoneFits(rows, BesideType(rows, e, name), e.arity))
  }

  /** The one namespace that the symbols of the file name. */
  ghost predicate SpaceOf(rows: seq<Def>, file: string, space: string) {
    && (exists i :: 0 <= i < |rows| && rows[i].file == file && rows[i].namespace == Some(space))
    && forall i :: 0 <= i < |rows| && rows[i].file == file && rows[i].namespace.Some? ==>
      rows[i].namespace == Some(space)
  }

  /** No tier up to the receiver's finds anything. */
  ghost predicate NotNearby(rows: seq<Def>, s: Snapshot, e: Edge, name: string) {
    && Asks(s, e, name) && NoneOf(rows, Here(e, name)) && ReachesNothing(rows, s, e, name)
    && ReceiverFails(rows, e, name)
  }

  /** Nor does the file's own namespace. */
  ghost predicate NotInOwnSpace(rows: seq<Def>, s: Snapshot, e: Edge, name: string) {
    && NotNearby(rows, s, e, name)
    && forall space :: SpaceOf(rows, e.file, space) ==> NoneOf(rows, InSpace(name, space))
  }

  /** Nor do the imported namespaces. */
  ghost predicate NotInOpened(rows: seq<Def>, s: Snapshot, e: Edge, name: string) {
    NotInOwnSpace(rows, s, e, name) && forall i: nat :: !OnlyAt(rows, InOpened(s, e, name), i)
  }

  // ---------------------------------------------------------------- from the conditions to the tiers

  /** A selection among the candidates is one among all rows. */
  lemma Narrowed(rows: seq<Def>, name: string, q: Def -> bool, p: Def -> bool)
    requires forall d :: d in rows ==> (p(d) <==> d.name == name && q(d))
    ensures Select(Candidates(rows, name), q) == Select(rows, p)
  {
    SelectTwice(rows, Named(name), q);
    SelectSame(rows, (d: Def) => Named(name)(d) && q(d), p);
  }

  lemma CandidatesAre(rows: seq<Def>, name: string)
    ensures Candidates(rows, name) == Select(rows, Called(name))
  {
    SelectSame(rows, Named(name), Called(name));
  }

  lemma PastHere(rows: seq<Def>, s: Snapshot, e: Edge, name: string)
    requires Asks(s, e, name) && NoneOf(rows, Here(e, name))
    ensures Resolve(rows, s, e) == ByImports(rows, s, e, name)
  {
    assert forall i :: 0 <= i < |rows| ==> !Here(e, name)(rows[i]);
  }

  lemma ReachedIs(rows: seq<Def>, s: Snapshot, e: Edge, name: string)
    ensures ImportedCandidates(rows, s, e.file, name) ==
      Reached(rows, s, e.file, ImportsOf(s, e.file), name, Anything())
  {
    SelectEverything(ImportedCandidates(rows, s, e.file, name));
  }

  lemma {:induction false} SelectEverything(rows: seq<Def>)
    ensures Select(rows, Anything()) == rows
  {
    if rows != [] {
      SelectEverything(rows[..|rows| - 1]);
    }
  }

  lemma PastImports(rows: seq<Def>, s: Snapshot, e: Edge, name: string)
    requires ReachesNothing(rows, s, e, name)
    ensures ByImports(rows, s, e, name) == ByReceiver(rows, s, e, name)
  {
    forall j, i
      ensures !Leads(rows, s, e.file, ImportsOf(s, e.file), name, Anything(), j, i)
    {
      assert !Reaches(rows, s, e, name, Anything(), j, i);
    }
    ReachedIs(rows, s, e, name);
    ReachedNone(rows, s, e.file, ImportsOf(s, e.file), name, Anything());
  }

  lemma BesideIs(rows: seq<Def>, e: Edge, name: string)
    requires e.receiver.Some?
    ensures Select(Candidates(rows, name), InTypesOf(rows, e.receiver.value)) == Select(rows, BesideType(rows, e, name))
  {
    Narrowed(rows, name, InTypesOf(rows, e.receiver.value), BesideType(rows, e, name));
  }

  lemma PastReceiver(rows: seq<Def>, s: Snapshot, e: Edge, name: string)
    requires ReceiverFails(rows, e, name)
    ensures ByReceiver(rows, s, e, name) == ByNamespace(rows, s, e, name)
  {
    if e.receiver.GetOr("") != "" {
      BesideIs(rows, e, name);
      PickAmong(rows, BesideType(rows, e, name), e.arity);
      if NoneOf(rows, BesideType(rows, e, name)) {
        SelectNone(rows, BesideType(rows, e, name));
      } else {
        SelectSeveral(rows, BesideType(rows, e, name));
      }
    }
  }

  lemma ToNamespace(rows: seq<Def>, s: Snapshot, e: Edge, name: string)
    requires NotNearby(rows, s, e, name)
    ensures Resolve(rows, s, e) == ByNamespace(rows, s, e, name)
  {
    PastHere(rows, s, e, name);
    PastImports(rows, s, e, name);
    PastReceiver(rows, s, e, name);
  }

  lemma SpaceIs(rows: seq<Def>, file: string, space: string)
    ensures SpaceOf(rows, file, space) <==> OwnNamespace(rows, file) == Some(space)
  {
    var here := Select(rows, InFile(file));
    var seen := Namespaces(here);
    SelectSound(rows, InFile(file));
    SeenIn(rows, file);
    if SpaceOf(rows, file, space) {
      var i :| 0 <= i < |rows| && rows[i].file == file && rows[i].namespace == Some(space);
      assert seen == {space};
    }
    if OwnNamespace(rows, file) == Some(space) {
      assert space in seen;
      forall i | 0 <= i < |rows| && rows[i].file == file && rows[i].namespace.Some?
        ensures rows[i].namespace == Some(space)
      {
        assert rows[i].namespace.value in seen;
      }
    }
  }

  lemma SeenIn(rows: seq<Def>, file: string)
    ensures forall x :: x in Namespaces(Select(rows, InFile(file))) <==>
      exists i :: 0 <= i < |rows| && rows[i].file == file && rows[i].namespace == Some(x)
  {
    var here := Select(rows, InFile(file));
    SelectSound(rows, InFile(file));
    forall x
      ensures x in Namespaces(here) <==>
        exists i :: 0 <= i < |rows| && rows[i].file == file && rows[i].namespace == Some(x)
    {
      if x in Namespaces(here) {
        var k :| 0 <= k < |here| && here[k].namespace.Some? && here[k].namespace.value == x;
        assert here[k] in rows;
        var i :| 0 <= i < |rows| && rows[i] == here[k];
      }
      if i :| 0 <= i < |rows| && rows[i].file == file && rows[i].namespace == Some(x) {
        assert rows[i] in here;
        var k :| 0 <= k < |here| && here[k] == rows[i];
      }
    }
  }

  lemma ToOpened(rows: seq<Def>, s: Snapshot, e: Edge, name: string)
    requires NotInOwnSpace(rows, s, e, name)
    ensures
      var used := Select(rows, InOpened(s, e, name));
      Resolve(rows, s, e) ==
        if |used| == 1 then Resolved(Namespaced, used[0].key, High) else ByProject(rows, s, e, name)
  {
    ToNamespace(rows, s, e, name);
    Narrowed(rows, name, ImportedNamespace(s, e.file), InOpened(s, e, name));
    var own := OwnNamespace(rows, e.file);
    if own.Some? {
      SpaceIs(rows, e.file, own.value);
      Narrowed(rows, name, InNamespace(own.value), InSpace(name, own.value));
      SelectNone(rows, InSpace(name, own.value));
    }
  }

  lemma ToProject(rows: seq<Def>, s: Snapshot, e: Edge, name: string)
    requires NotInOpened(rows, s, e, name)
    ensures Resolve(rows, s, e) == ByProject(rows, s, e, name)
  {
    ToOpened(rows, s, e, name);
    OneOrNot(rows, InOpened(s, e, name));
  }

  // ---------------------------------------------------------------- the laws

  /** Without a name there is nothing to look for. */
  lemma NamelessLaw(rows: seq<Def>, s: Snapshot, e: Edge)
    requires e.placeholder !in s.placeholders || s.placeholders[e.placeholder] == ""
    ensures Resolve(rows, s, e) == Outcome(LeftExternal, None)
  {
  }

  /** A definition in the file itself: the first of the call's arity, else the first. */
  lemma SameFileLaw(rows: seq<Def>, s: Snapshot, e: Edge, name: string, i: nat)
    requires Asks(s, e, name)
    requires if e.arity >= 0 && !NoneOf(rows, HereFitting(e, name)) then FirstAt(rows, HereFitting(e, name), i)
      else FirstAt(rows, Here(e, name), i)
    ensures Resolve(rows, s, e) == Outcome(SameFile, Some(InProject(rows[i].key, High)))
  {
    assert Here(e, name)(rows[i]);
    assert Defines(rows, e.file, name);
    CandidatesAre(rows, name);
    SelectSome(rows, Called(name), i);
    SelectSome(rows, Here(e, name), i);
    Narrowed(rows, name, InFile(e.file), Here(e, name));
    SelectTwice(rows, Here(e, name), WithArity(e.arity));
    SelectSame(rows, (d: Def) => Here(e, name)(d) && WithArity(e.arity)(d), HereFitting(e, name));
    if e.arity >= 0 && !NoneOf(rows, HereFitting(e, name)) {
      SelectFirst(rows, HereFitting(e, name), i);
    } else {
      SelectFirst(rows, Here(e, name), i);
      if e.arity >= 0 {
        SelectNone(rows, HereFitting(e, name));
      }
    }
  }

  /** What the relative imports reach. A definition that two imports reach counts twice. */
  lemma ImportedLaw(rows: seq<Def>, s: Snapshot, e: Edge, name: string)
    requires Asks(s, e, name) && NoneOf(rows, Here(e, name))
    ensures forall j, i :: ReachesOnly(rows, s, e, name, Anything(), j, i) ==>
      Resolve(rows, s, e) == Outcome(Imported, Some(InProject(rows[i].key, High)))
    ensures ReachesSeveral(rows, s, e, name) ==>
      && (forall j, i :: ReachesFitting(rows, s, e, name, j, i) ==>
            Resolve(rows, s, e) == Outcome(Imported, Some(InProject(rows[i].key, High))))
      && ((forall j, i :: !ReachesFitting(rows, s, e, name, j, i)) ==>
            Resolve(rows, s, e) == Outcome(Ambiguous, None))
  {
    PastHere(rows, s, e, name);
    ReachedIs(rows, s, e, name);
    forall j, i | ReachesOnly(rows, s, e, name, Anything(), j, i)
      ensures Resolve(rows, s, e) == Outcome(Imported, Some(InProject(rows[i].key, High)))
    {
      ReachesOnlyOne(rows, s, e, name, Anything(), j, i);
    }
    if ReachesSeveral(rows, s, e, name) {
      ReachesMany(rows, s, e, name);
      forall j, i | ReachesFitting(rows, s, e, name, j, i)
        ensures Resolve(rows, s, e) == Outcome(Imported, Some(InProject(rows[i].key, High)))
      {
        ReachedFits(rows, s, e, name, j, i);
      }
      if PickByArity(ImportedCandidates(rows, s, e.file, name), e.arity).Some? {
        var j, i := FittingIsReached(rows, s, e, name);
      }
    }
  }

  /** So a file that imports the same definition under two module names loses it: the edge stays ambiguous, whatever
      its arity. */
  lemma TwiceImportedIsAmbiguous(rows: seq<Def>, s: Snapshot, e: Edge, name: string, j: int, j': int, i: int)
    requires Asks(s, e, name) && NoneOf(rows, Here(e, name))
    requires j < j' && Reaches(rows, s, e, name, Anything(), j, i) && Reaches(rows, s, e, name, Anything(), j', i)
    requires forall m, n :: Reaches(rows, s, e, name, Anything(), m, n) ==> n == i
    ensures Resolve(rows, s, e) == Outcome(Ambiguous, None)
  {
    forall m, n
      ensures !ReachesFitting(rows, s, e, name, m, n)
    {
      if Reaches(rows, s, e, name, OfArity(e.arity), m, n) {
        assert Reaches(rows, s, e, name, Anything(), m, n);
        assert Reaches(rows, s, e, name, OfArity(e.arity), j, i) && Reaches(rows, s, e, name, OfArity(e.arity), j', i);
      }
    }
    ImportedLaw(rows, s, e, name);
  }

  lemma ReachesOnlyOne(rows: seq<Def>, s: Snapshot, e: Edge, name: string, p: Def -> bool, j: int, i: int)
    requires ReachesOnly(rows, s, e, name, p, j, i)
    ensures Reached(rows, s, e.file, ImportsOf(s, e.file), name, p) == [rows[i]]
  {
    forall j', i' | Leads(rows, s, e.file, ImportsOf(s, e.file), name, p, j', i')
      ensures j' == j && i' == i
    {
      assert Reaches(rows, s, e, name, p, j', i');
    }
    ReachedOne(rows, s, e.file, ImportsOf(s, e.file), name, p, j, i);
  }

  lemma ReachesMany(rows: seq<Def>, s: Snapshot, e: Edge, name: string)
    requires ReachesSeveral(rows, s, e, name)
    ensures |ImportedCandidates(rows, s, e.file, name)| > 1
  {
    var j, i, j', i' :|
      && Reaches(rows, s, e, name, Anything(), j, i) && Reaches(rows, s, e, name, Anything(), j', i')
      && (j < j' || (j == j' && i < i'));
    ReachedIs(rows, s, e, name);
    ReachedSeveral(rows, s, e.file, ImportsOf(s, e.file), name, Anything(), j, i, j', i');
  }

  /** The candidates are the rows that the imports reach. */
  lemma ReachedFrom(rows: seq<Def>, s: Snapshot, file: string, imports: seq<Import>, name: string, d: Def)
    ensures d in ImportedFrom(rows, s, file, imports, name) <==>
      exists j, i :: Leads(rows, s, file, imports, name, Anything(), j, i) && rows[i] == d
  {
    SelectEverything(ImportedFrom(rows, s, file, imports, name));
    if j, i :| Leads(rows, s, file, imports, name, Anything(), j, i) && rows[i] == d {
      LedIsReached(rows, s, file, imports, name, j, i);
    }
    if d in ImportedFrom(rows, s, file, imports, name) {
      var j, i := ReachedIsLed(rows, s, file, imports, name, d);
    }
  }

  lemma {:induction false} LedIsReached(rows: seq<Def>, s: Snapshot, file: string, imports: seq<Import>, name: string,
                                        j: int, i: int)
    requires Leads(rows, s, file, imports, name, Anything(), j, i)
    ensures rows[i] in ImportedFrom(rows, s, file, imports, name)
  {
    var n := |imports| - 1;
    if j < n {
      assert Leads(rows, s, file, imports[..n], name, Anything(), j, i);
      LedIsReached(rows, s, file, imports[..n], name, j, i);
    } else {
      SelectSound(rows, Named(name));
      SelectSound(Candidates(rows, name), InFile(rows[i].file));
    }
  }

  lemma {:induction false} ReachedIsLed(rows: seq<Def>, s: Snapshot, file: string, imports: seq<Import>, name: string,
                                        d: Def) returns (j: int, i: int)
    requires d in ImportedFrom(rows, s, file, imports, name)
    ensures Leads(rows, s, file, imports, name, Anything(), j, i) && rows[i] == d
  {
    var n := |imports| - 1;
    if d in ImportedFrom(rows, s, file, imports[..n], name) {
      j, i := ReachedIsLed(rows, s, file, imports[..n], name, d);
    } else {
      var target := s.target(file, imports[n].mod, ProjectFiles(rows)).value;
      SelectSound(rows, Named(name));
      SelectSound(Candidates(rows, name), InFile(target));
      j := n;
      i :| 0 <= i < |rows| && rows[i] == d;
    }
  }

  lemma ReachedFits(rows: seq<Def>, s: Snapshot, e: Edge, name: string, j: int, i: int)
    requires ReachesFitting(rows, s, e, name, j, i)
    ensures PickByArity(ImportedCandidates(rows, s, e.file, name), e.arity) == Some(rows[i].key)
  {
    var list := ImportedCandidates(rows, s, e.file, name);
    forall a, b | a in list && b in list && a.namespace.Some? && b.namespace.Some?
      ensures a.namespace == b.namespace
    {
      ReachedFrom(rows, s, e.file, ImportsOf(s, e.file), name, a);
      ReachedFrom(rows, s, e.file, ImportsOf(s, e.file), name, b);
      var j1, i1 :| Leads(rows, s, e.file, ImportsOf(s, e.file), name, Anything(), j1, i1) && rows[i1] == a;
      var j2, i2 :| Leads(rows, s, e.file, ImportsOf(s, e.file), name, Anything(), j2, i2) && rows[i2] == b;
      assert Reaches(rows, s, e, name, Anything(), j1, i1) && Reaches(rows, s, e, name, Anything(), j2, i2);
    }
    SelectSame(list, WithArity(e.arity), OfArity(e.arity));
    ReachesOnlyOne(rows, s, e, name, OfArity(e.arity), j, i);
    ArityPickIff(list, e.arity, rows[i].key);
  }

  lemma FittingIsReached(rows: seq<Def>, s: Snapshot, e: Edge, name: string) returns (j: int, i: int)
    requires PickByArity(ImportedCandidates(rows, s, e.file, name), e.arity).Some?
    ensures ReachesFitting(rows, s, e, name, j, i)
  {
    var imports := ImportsOf(s, e.file);
    var list := ImportedCandidates(rows, s, e.file, name);
    ArityPickIff(list, e.arity, PickByArity(list, e.arity).value);
    SelectSame(list, WithArity(e.arity), OfArity(e.arity));
    forall j1, i1, j2, i2 |
      && Reaches(rows, s, e, name, Anything(), j1, i1) && Reaches(rows, s, e, name, Anything(), j2, i2)
      && rows[i1].namespace.Some? && rows[i2].namespace.Some?
      ensures rows[i1].namespace == rows[i2].namespace
    {
      ReachedFrom(rows, s, e.file, imports, name, rows[i1]);
      ReachedFrom(rows, s, e.file, imports, name, rows[i2]);
    }
    j, i := OneIsReached(rows, s, e.file, imports, name, OfArity(e.arity));
    forall j', i' | Reaches(rows, s, e, name, OfArity(e.arity), j', i')
      ensures j' == j && i' == i
    {
      assert Leads(rows, s, e.file, imports, name, OfArity(e.arity), j', i');
    }
  }

  lemma OneIsReached(rows: seq<Def>, s: Snapshot, file: string, imports: seq<Import>, name: string, p: Def -> bool)
    returns (j: int, i: int)
    requires |Reached(rows, s, file, imports, name, p)| == 1
    ensures LeadsOnly(rows, s, file, imports, name, p, j, i)
  {
    if forall j, i :: !Leads(rows, s, file, imports, name, p, j, i) {
      ReachedNone(rows, s, file, imports, name, p);
      assert false;
    }
    j, i :| Leads(rows, s, file, imports, name, p, j, i);
    forall j', i' | Leads(rows, s, file, imports, name, p, j', i')
      ensures j' == j && i' == i
    {
      if j < j' || (j == j' && i < i') {
        ReachedSeveral(rows, s, file, imports, name, p, j, i, j', i');
      } else if j' < j || i' < i {
        ReachedSeveral(rows, s, file, imports, name, p, j', i', j, i);
      }
    }
  }

  /** The method of the receiver's type, if nothing nearer has the name. */
  lemma ReceiverLaw(rows: seq<Def>, s: Snapshot, e: Edge, name: string, i: nat)
    requires Asks(s, e, name) && NoneOf(rows, Here(e, name)) && ReachesNothing(rows, s, e, name)
    requires e.receiver.GetOr("") != ""
    requires
      || OnlyAt(rows, BesideType(rows, e, name), i)
      || (Several(rows, BesideType(rows, e, name)) && FitsAlone(rows, BesideType(rows, e, name), e.arity, i))
    ensures Resolve(rows, s, e) == Outcome(Unique, Some(InProject(rows[i].key, High)))
  {
    PastHere(rows, s, e, name);
    PastImports(rows, s, e, name);
    BesideIs(rows, e, name);
    PickAmong(rows, BesideType(rows, e, name), e.arity);
    if OnlyAt(rows, BesideType(rows, e, name), i) {
      SelectOne(rows, BesideType(rows, e, name), i);
    } else {
      SelectSeveral(rows, BesideType(rows, e, name));
    }
  }

  /** A receiver that narrows to none, or to several that the arity does not tell apart, is ignored: unlike the other
      tiers, this one never leaves an edge ambiguous. */
  lemma ReceiverFallsThrough(rows: seq<Def>, s: Snapshot, e: Edge, name: string)
    requires NotNearby(rows, s, e, name)
    ensures Resolve(rows, s, e) == Resolve(rows, s, e.(receiver := None))
  {
    var plain := e.(receiver := None);
    assert forall i :: 0 <= i < |rows| ==> (Here(plain, name)(rows[i]) <==> Here(e, name)(rows[i]));
    forall j, i
      ensures !Reaches(rows, s, plain, name, Anything(), j, i)
    {
      assert !Reaches(rows, s, e, name, Anything(), j, i);
    }
    ToNamespace(rows, s, e, name);
    ToNamespace(rows, s, plain, name);
  }

  /** The file's own namespace. */
  lemma OwnNamespaceLaw(rows: seq<Def>, s: Snapshot, e: Edge, name: string, space: string)
    requires NotNearby(rows, s, e, name) && SpaceOf(rows, e.file, space)
    ensures
      var mine := InSpace(name, space);
      && (forall i: nat :: OnlyAt(rows, mine, i) || (Several(rows, mine) && FitsAlone(rows, mine, e.arity, i)) ==>
            Resolve(rows, s, e) == Outcome(Namespaced, Some(InProject(rows[i].key, High))))
      && (Several(rows, mine) && NoneFits(rows, mine, e.arity) ==> Resolve(rows, s, e) == Outcome(Ambiguous, None))
  {
    var mine := InSpace(name, space);
    ToNamespace(rows, s, e, name);
    SpaceIs(rows, e.file, space);
    Narrowed(rows, name, InNamespace(space), mine);
    PickAmong(rows, mine, e.arity);
    if Several(rows, mine) {
      SelectSeveral(rows, mine);
    }
    forall i: nat | OnlyAt(rows, mine, i)
      ensures Select(rows, mine) == [rows[i]]
    {
      SelectOne(rows, mine, i);
    }
  }

  /** A namespace that an import spells, if the file's own has no definition of the name. */
  lemma OpenedNamespaceLaw(rows: seq<Def>, s: Snapshot, e: Edge, name: string, i: nat)
    requires NotInOwnSpace(rows, s, e, name) && OnlyAt(rows, InOpened(s, e, name), i)
    ensures Resolve(rows, s, e) == Outcome(Namespaced, Some(InProject(rows[i].key, High)))
  {
    ToOpened(rows, s, e, name);
    SelectOne(rows, InOpened(s, e, name), i);
  }

  /** The whole project. */
  lemma ProjectLaw(rows: seq<Def>, s: Snapshot, e: Edge, name: string)
    requires NotInOpened(rows, s, e, name)
    ensures
      var all := Called(name);
      && (forall i: nat :: OnlyAt(rows, all, i) || (Several(rows, all) && FitsAlone(rows, all, e.arity, i)) ==>
            Resolve(rows, s, e) == Outcome(Unique, Some(InProject(rows[i].key, Medium))))
      && (Several(rows, all) && NoneFits(rows, all, e.arity) ==> Resolve(rows, s, e) == Outcome(Ambiguous, None))
  {
    var all := Called(name);
    ToProject(rows, s, e, name);
    CandidatesAre(rows, name);
    PickAmong(rows, all, e.arity);
    if Several(rows, all) {
      SelectSeveral(rows, all);
    }
    forall i: nat | OnlyAt(rows, all, i)
      ensures Select(rows, all) == [rows[i]]
    {
      SelectOne(rows, all, i);
    }
  }

  /** An assembly of the file's project exposes the name, as the `k`-th type of that name. */
  predicate Exposes(s: Snapshot, e: Edge, name: string, k: int) {
    && e.file in s.project && s.project[e.file] in s.assemblies && name in s.exposed
    && 0 <= k < |s.exposed[name]| && s.exposed[name][k].0 in s.assemblies[s.project[e.file]]
  }

  /** A name that the project does not define: the only type that a used assembly exposes under it, or nothing. */
  lemma AssemblyLaw(rows: seq<Def>, s: Snapshot, e: Edge, name: string)
    requires Asks(s, e, name) && NoneOf(rows, Called(name))
    ensures forall k :: Exposes(s, e, name, k) && (forall j :: Exposes(s, e, name, j) ==> j == k) ==>
      Resolve(rows, s, e) ==
        Outcome(Assembly, Some(FromAssembly(s.exposed[name][k].1, s.exposed[name][k].0)))
    ensures !(exists k :: Exposes(s, e, name, k) && forall j :: Exposes(s, e, name, j) ==> j == k) ==>
      Resolve(rows, s, e) == Outcome(LeftExternal, None)
  {
    NowhereNearby(rows, s, e, name);
    ToProject(rows, s, e, name);
    CandidatesAre(rows, name);
    SelectNone(rows, Called(name));
    var exposed := if name in s.exposed then s.exposed[name] else [];
    var used := UsedBy(s, e.file);
    forall k | Exposes(s, e, name, k) && forall j :: Exposes(s, e, name, j) ==> j == k
      ensures used != {} && Matches(exposed, used) == [exposed[k]]
    {
      forall j | 0 <= j < |exposed| && exposed[j].0 in used
        ensures j == k
      {
        assert Exposes(s, e, name, j);
      }
      MatchesOne(exposed, used, k);
    }
    if used != {} && |Matches(exposed, used)| == 1 {
      var k := OneMatches(exposed, used);
      assert Exposes(s, e, name, k);
    }
  }

  lemma NowhereNearby(rows: seq<Def>, s: Snapshot, e: Edge, name: string)
    requires Asks(s, e, name) && NoneOf(rows, Called(name))
    ensures NotInOpened(rows, s, e, name)
  {
    assert forall i :: 0 <= i < |rows| ==> rows[i].name != name by {
      forall i | 0 <= i < |rows|
        ensures rows[i].name != name
      {
        assert !Called(name)(rows[i]);
      }
    }
  }

  lemma {:induction false} MatchesNone(exposed: seq<(string, string)>, used: set<string>)
    requires forall j :: 0 <= j < |exposed| ==> exposed[j].0 !in used
    ensures Matches(exposed, used) == []
  {
    if exposed != [] {
      MatchesNone(exposed[..|exposed| - 1], used);
    }
  }

  lemma {:induction false} MatchesOne(exposed: seq<(string, string)>, used: set<string>, k: int)
    requires 0 <= k < |exposed| && exposed[k].0 in used
    requires forall j :: 0 <= j < |exposed| && exposed[j].0 in used ==> j == k
    ensures Matches(exposed, used) == [exposed[k]]
  {
    var n := |exposed| - 1;
    if k == n {
      MatchesNone(exposed[..n], used);
    } else {
      MatchesOne(exposed[..n], used, k);
    }
  }

  lemma {:induction false} OneMatches(exposed: seq<(string, string)>, used: set<string>) returns (k: int)
    requires |Matches(exposed, used)| == 1
    ensures 0 <= k < |exposed| && exposed[k].0 in used
    ensures forall j :: 0 <= j < |exposed| && exposed[j].0 in used ==> j == k
  {
    var n := |exposed| - 1;
    if exposed[n].0 in used {
      k := n;
      if j :| 0 <= j < n && exposed[j].0 in used {
        MatchesSome(exposed[..n], used, j);
      }
    } else {
      k := OneMatches(exposed[..n], used);
      assert forall j :: 0 <= j < n ==> exposed[j] == exposed[..n][j];
    }
  }

  lemma {:induction false} MatchesSome(exposed: seq<(string, string)>, used: set<string>, j: int)
    requires 0 <= j < |exposed| && exposed[j].0 in used
    ensures Matches(exposed, used) != []
  {
    if j < |exposed| - 1 {
      MatchesSome(exposed[..|exposed| - 1], used, j);
    }
  }
}
