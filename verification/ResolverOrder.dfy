/** The order of the DEFINES rows does not matter, except between definitions of one file. */
module ResolverOrder {
  import opened Wrappers
  import opened Resolver
  import SymbolKeys

  predicate Permuted<T(==)>(a: seq<T>, b: seq<T>) {
    multiset(a) == multiset(b)
  }

  lemma {:induction false} SelectCounts(rows: seq<Def>, keep: Def -> bool, d: Def)
    ensures multiset(Select(rows, keep))[d] == if keep(d) then multiset(rows)[d] else 0
  {
    if rows != [] {
      var n := |rows| - 1;
      SelectCounts(rows[..n], keep, d);
      assert rows == rows[..n] + [rows[n]];
    }
  }

  lemma SelectPermutes(a: seq<Def>, b: seq<Def>, keep: Def -> bool)
    requires Permuted(a, b)
    ensures Permuted(Select(a, keep), Select(b, keep))
  {
    forall d
      ensures multiset(Select(a, keep))[d] == multiset(Select(b, keep))[d]
    {
      SelectCounts(a, keep, d);
      SelectCounts(b, keep, d);
    }
  }

  lemma {:induction false} SelectSame(rows: seq<Def>, f: Def -> bool, g: Def -> bool)
    requires forall d :: d in rows ==> (f(d) <==> g(d))
    ensures Select(rows, f) == Select(rows, g)
  {
    if rows != [] {
      assert forall d :: d in rows[..|rows| - 1] ==> d in rows;
      SelectSame(rows[..|rows| - 1], f, g);
    }
  }

  lemma SameMembers<T>(a: seq<T>, b: seq<T>)
    requires Permuted(a, b)
    ensures forall x :: x in a <==> x in b
    ensures |a| == |b|
    ensures |a| == 1 ==> a == b
  {
    forall x
      ensures x in a <==> x in b
    {
      assert x in a <==> x in multiset(a);
      assert x in b <==> x in multiset(b);
    }
    assert |multiset(a)| == |a| && |multiset(b)| == |b|;
    if |a| == 1 {
      assert a[0] in a && a[0] in b;
    }
  }

  lemma SameFacts(a: seq<Def>, b: seq<Def>)
    requires Permuted(a, b)
    ensures Namespaces(a) == Namespaces(b) && ProjectFiles(a) == ProjectFiles(b)
    ensures forall file, name :: Defines(a, file, name) <==> Defines(b, file, name)
  {
    Included(a, b);
    Included(b, a);
  }

  lemma Included(a: seq<Def>, b: seq<Def>)
    requires Permuted(a, b)
    ensures Namespaces(a) <= Namespaces(b) && ProjectFiles(a) <= ProjectFiles(b)
    ensures forall file, name :: Defines(a, file, name) ==> Defines(b, file, name)
  {
    SameMembers(a, b);
    forall i | 0 <= i < |a|
      ensures exists j :: 0 <= j < |b| && b[j] == a[i]
    {
      assert a[i] in b;
    }
  }

  /** An arity tiebreak sees only the set of candidates. */
  lemma ArityPickPermutes(a: seq<Def>, b: seq<Def>, arity: int)
    requires Permuted(a, b)
    ensures PickByArity(a, arity) == PickByArity(b, arity)
  {
    SameFacts(a, b);
    SelectPermutes(a, b, WithArity(arity));
    SameMembers(Select(a, WithArity(arity)), Select(b, WithArity(arity)));
  }

  lemma {:induction false} ImportsPermute(a: seq<Def>, b: seq<Def>, s: Snapshot, file: string, imports: seq<Import>,
                                          name: string)
    requires Permuted(a, b)
    ensures Permuted(ImportedFrom(a, s, file, imports, name), ImportedFrom(b, s, file, imports, name))
  {
    if imports != [] {
      var last := imports[|imports| - 1];
      ImportsPermute(a, b, s, file, imports[..|imports| - 1], name);
      SameFacts(a, b);
      SelectPermutes(a, b, Named(name));
      var target := if last.relative then s.target(file, last.mod, ProjectFiles(a)) else None;
      if target.Some? {
        SelectPermutes(Candidates(a, name), Candidates(b, name), InFile(target.value));
      }
    }
  }

  lemma ProjectPermutes(a: seq<Def>, b: seq<Def>, s: Snapshot, e: Edge, name: string)
    requires Permuted(a, b)
    ensures ByProject(a, s, e, name) == ByProject(b, s, e, name)
  {
    SelectPermutes(a, b, Named(name));
    SameMembers(Candidates(a, name), Candidates(b, name));
    ArityPickPermutes(Candidates(a, name), Candidates(b, name), e.arity);
  }

  lemma OwnNamespacePermutes(a: seq<Def>, b: seq<Def>, file: string)
    requires Permuted(a, b)
    ensures OwnNamespace(a, file) == OwnNamespace(b, file)
  {
    SelectPermutes(a, b, InFile(file));
    SameFacts(Select(a, InFile(file)), Select(b, InFile(file)));
  }

  lemma NamespacePermutes(a: seq<Def>, b: seq<Def>, s: Snapshot, e: Edge, name: string)
    requires Permuted(a, b)
    ensures ByNamespace(a, s, e, name) == ByNamespace(b, s, e, name)
  {
    var own := OwnNamespace(a, e.file);
    OwnNamespacePermutes(a, b, e.file);
    SelectPermutes(a, b, Named(name));
    var ca, cb := Candidates(a, name), Candidates(b, name);
    if own.Some? {
      SelectPermutes(ca, cb, InNamespace(own.value));
      SameMembers(Select(ca, InNamespace(own.value)), Select(cb, InNamespace(own.value)));
      ArityPickPermutes(Select(ca, InNamespace(own.value)), Select(cb, InNamespace(own.value)), e.arity);
    }
    SelectPermutes(ca, cb, ImportedNamespace(s, e.file));
    SameMembers(Select(ca, ImportedNamespace(s, e.file)), Select(cb, ImportedNamespace(s, e.file)));
    ProjectPermutes(a, b, s, e, name);
  }

  lemma ReceiverPermutes(a: seq<Def>, b: seq<Def>, s: Snapshot, e: Edge, name: string)
    requires Permuted(a, b)
    ensures ByReceiver(a, s, e, name) == ByReceiver(b, s, e, name)
  {
    NamespacePermutes(a, b, s, e, name);
    if e.receiver.Some? {
      var receiver := e.receiver.value;
      SameFacts(a, b);
      SelectPermutes(a, b, Named(name));
      SelectPermutes(Candidates(a, name), Candidates(b, name), InTypesOf(a, receiver));
      SelectSame(Candidates(b, name), InTypesOf(a, receiver), InTypesOf(b, receiver));
      var na, nb := Select(Candidates(a, name), InTypesOf(a, receiver)),
        Select(Candidates(b, name), InTypesOf(b, receiver));
      SameMembers(na, nb);
      ArityPickPermutes(na, nb, e.arity);
    }
  }

  /** Every tier after the same-file one gives the same answer for any row order. */
  lemma ImportsOnPermute(a: seq<Def>, b: seq<Def>, s: Snapshot, e: Edge, name: string)
    requires Permuted(a, b)
    ensures ByImports(a, s, e, name) == ByImports(b, s, e, name)
  {
    ImportsPermute(a, b, s, e.file, ImportsOf(s, e.file), name);
    SameMembers(ImportedCandidates(a, s, e.file, name), ImportedCandidates(b, s, e.file, name));
    ArityPickPermutes(ImportedCandidates(a, s, e.file, name), ImportedCandidates(b, s, e.file, name), e.arity);
    ReceiverPermutes(a, b, s, e, name);
  }

  // ---------------------------------------------------------------- the same-file tier

  /** The definitions of the edge's own file among which the same-file tier takes the first. */
  function Contenders(rows: seq<Def>, file: string, name: string, arity: int): seq<Def> {
    var here := Select(Candidates(rows, name), InFile(file));
    if arity >= 0 && Select(here, WithArity(arity)) != [] then Select(here, WithArity(arity)) else here
  }

  lemma FirstContender(rows: seq<Def>, file: string, name: string, arity: int)
    requires Defines(rows, file, name)
    ensures Contenders(rows, file, name, arity) != []
    ensures PickTarget(Candidates(rows, name), file, arity) == Some(Contenders(rows, file, name, arity)[0].key)
    ensures forall d :: d in Contenders(rows, file, name, arity) ==> d in rows && d.file == file && d.name == name
  {
    var i :| 0 <= i < |rows| && rows[i].file == file && rows[i].name == name;
    SelectSound(rows, Named(name));
    SelectSound(Candidates(rows, name), InFile(file));
    SelectSound(Select(Candidates(rows, name), InFile(file)), WithArity(arity));
    assert rows[i] in Candidates(rows, name) && rows[i] in Select(Candidates(rows, name), InFile(file));
  }

  lemma ContendersPermute(a: seq<Def>, b: seq<Def>, file: string, name: string, arity: int)
    requires Permuted(a, b)
    ensures Permuted(Contenders(a, file, name, arity), Contenders(b, file, name, arity))
  {
    SelectPermutes(a, b, Named(name));
    SelectPermutes(Candidates(a, name), Candidates(b, name), InFile(file));
    var ha, hb := Select(Candidates(a, name), InFile(file)), Select(Candidates(b, name), InFile(file));
    SelectPermutes(ha, hb, WithArity(arity));
    SameMembers(Select(ha, WithArity(arity)), Select(hb, WithArity(arity)));
  }

  /** All contenders are one symbol. */
  ghost predicate NoContest(rows: seq<Def>, s: Snapshot, e: Edge) {
    NameOf(s, e).Some? && Defines(rows, e.file, NameOf(s, e).value) ==>
      forall c, d ::
        (c in Contenders(rows, e.file, NameOf(s, e).value, e.arity) &&
         d in Contenders(rows, e.file, NameOf(s, e).value, e.arity))
        ==> c.key == d.key
  }

  /** Permuting the rows moves no counter, and no target unless the edge's own
      file defines the name more than once. */
  lemma OrderIndependence(a: seq<Def>, b: seq<Def>, s: Snapshot, e: Edge)
    requires Permuted(a, b)
    ensures Resolve(a, s, e).tier == Resolve(b, s, e).tier
    ensures NoContest(a, s, e) ==> Resolve(a, s, e) == Resolve(b, s, e)
    ensures Resolve(a, s, e).tier != SameFile ==> Resolve(a, s, e) == Resolve(b, s, e)
  {
    if NameOf(s, e).Some? {
      var name := NameOf(s, e).value;
      SameFacts(a, b);
      ImportsOnPermute(a, b, s, e, name);
      if Defines(a, e.file, name) {
        FirstContender(a, e.file, name, e.arity);
        FirstContender(b, e.file, name, e.arity);
        ContendersPermute(a, b, e.file, name, e.arity);
        var ca, cb := Contenders(a, e.file, name, e.arity), Contenders(b, e.file, name, e.arity);
        SameMembers(ca, cb);
        assert ca[0] in ca && cb[0] in cb;
      }
    }
  }

  // ---------------------------------------------------------------- rows in the order of the query

  /** `ORDER BY s.start`: rows that tie come in any order. */
  ghost predicate Ordered(rows: seq<Def>) {
    forall i, j :: 0 <= i < j < |rows| ==> rows[i].start <= rows[j].start
  }

  lemma {:induction false} SelectOrdered(rows: seq<Def>, keep: Def -> bool)
    requires Ordered(rows)
    ensures Ordered(Select(rows, keep))
  {
    if rows != [] {
      var init, last := rows[..|rows| - 1], rows[|rows| - 1];
      SelectOrdered(init, keep);
      SelectSound(init, keep);
      forall i | 0 <= i < |Select(init, keep)|
        ensures Select(init, keep)[i].start <= last.start
      {
        var d := Select(init, keep)[i];
        assert d in Select(init, keep) && d in init;
        var k :| 0 <= k < |init| && init[k] == d;
        assert rows[k] == d;
      }
    }
  }

  lemma ContendersOrdered(rows: seq<Def>, file: string, name: string, arity: int)
    requires Ordered(rows)
    ensures Ordered(Contenders(rows, file, name, arity))
  {
    SelectOrdered(rows, Named(name));
    SelectOrdered(Candidates(rows, name), InFile(file));
    SelectOrdered(Select(Candidates(rows, name), InFile(file)), WithArity(arity));
  }

  /** A contender that no other precedes. */
  ghost predicate InFront(list: seq<Def>, d: Def) {
    d in list && forall c :: c in list ==> d.start <= c.start
  }

  /** The contenders that start first are one symbol. */
  ghost predicate NoTieInFront(rows: seq<Def>, s: Snapshot, e: Edge) {
    NameOf(s, e).Some? && Defines(rows, e.file, NameOf(s, e).value) ==>
      forall c, d :: (InFront(Contenders(rows, e.file, NameOf(s, e).value, e.arity), c)
        && InFront(Contenders(rows, e.file, NameOf(s, e).value, e.arity), d)) ==> c.key == d.key
  }

  lemma FirstIsInFront(rows: seq<Def>, file: string, name: string, arity: int)
    requires Ordered(rows) && Defines(rows, file, name)
    ensures Contenders(rows, file, name, arity) != []
    ensures InFront(Contenders(rows, file, name, arity), Contenders(rows, file, name, arity)[0])
  {
    FirstContender(rows, file, name, arity);
    ContendersOrdered(rows, file, name, arity);
    var list := Contenders(rows, file, name, arity);
    forall c | c in list
      ensures list[0].start <= c.start
    {
      var i :| 0 <= i < |list| && list[i] == c;
    }
  }

  lemma OrderedSameWithoutTie(a: seq<Def>, b: seq<Def>, s: Snapshot, e: Edge)
    requires Permuted(a, b) && Ordered(a) && Ordered(b) && NoTieInFront(a, s, e)
    ensures Resolve(a, s, e) == Resolve(b, s, e)
  {
    OrderIndependence(a, b, s, e);
    if NameOf(s, e).Some? && Defines(a, e.file, NameOf(s, e).value) {
      var name := NameOf(s, e).value;
      SameFacts(a, b);
      FirstContender(a, e.file, name, e.arity);
      FirstContender(b, e.file, name, e.arity);
      FirstIsInFront(a, e.file, name, e.arity);
      FirstIsInFront(b, e.file, name, e.arity);
      ContendersPermute(a, b, e.file, name, e.arity);
      SameMembers(Contenders(a, e.file, name, e.arity), Contenders(b, e.file, name, e.arity));
    }
  }

  // ---------------------------------------------------------------- a tie put the other way round

  /** The row moved in front of every row that it ties with. */
  function Advanced(rows: seq<Def>, i: nat): seq<Def>
    requires i < |rows|
  {
    var rest := rows[..i] + rows[i + 1..];
    Earlier(rest, rows[i].start) + [rows[i]] + Later(rest, rows[i].start)
  }

  function StartsBefore(line: nat): Def -> bool {
    (d: Def) => d.start < line
  }

  function StartsFrom(line: nat): Def -> bool {
    (d: Def) => d.start >= line
  }

  function Earlier(rows: seq<Def>, line: nat): seq<Def> {
    Select(rows, StartsBefore(line))
  }

  function Later(rows: seq<Def>, line: nat): seq<Def> {
    Select(rows, StartsFrom(line))
  }

  lemma {:induction false} SplitCounts(rows: seq<Def>, line: nat)
    ensures multiset(rows) == multiset(Earlier(rows, line)) + multiset(Later(rows, line))
  {
    if rows != [] {
      var n := |rows| - 1;
      SplitCounts(rows[..n], line);
      assert rows == rows[..n] + [rows[n]];
    }
  }

  lemma WithoutRow(rows: seq<Def>, i: nat)
    requires i < |rows|
    ensures multiset(rows) == multiset(rows[..i] + rows[i + 1..]) + multiset{rows[i]}
    ensures Ordered(rows) ==> Ordered(rows[..i] + rows[i + 1..])
  {
    assert rows == rows[..i] + [rows[i]] + rows[i + 1..];
  }

  lemma AdvancedPermutes(rows: seq<Def>, i: nat)
    requires i < |rows| && Ordered(rows)
    ensures Permuted(rows, Advanced(rows, i)) && Ordered(Advanced(rows, i))
  {
    var rest, d := rows[..i] + rows[i + 1..], rows[i];
    WithoutRow(rows, i);
    SplitCounts(rest, d.start);
    SelectOrdered(rest, StartsBefore(d.start));
    SelectOrdered(rest, StartsFrom(d.start));
    SelectSound(rest, StartsBefore(d.start));
    SelectSound(rest, StartsFrom(d.start));
    InOrder(Earlier(rest, d.start), d, Later(rest, d.start));
  }

  lemma InOrder(a: seq<Def>, d: Def, b: seq<Def>)
    requires Ordered(a) && Ordered(b)
    requires (forall x :: x in a ==> x.start < d.start) && (forall x :: x in b ==> d.start <= x.start)
    ensures Ordered(a + [d] + b)
  {
    var all := a + [d] + b;
    forall i, j | 0 <= i < j < |all|
      ensures all[i].start <= all[j].start
    {
      if i < |a| {
        assert all[i] == a[i] && a[i] in a;
      }
      if j > |a| {
        assert all[j] == b[j - |a| - 1] && b[j - |a| - 1] in b;
      }
    }
  }

  lemma {:induction false} SelectAppend(a: seq<Def>, b: seq<Def>, keep: Def -> bool)
    ensures Select(a + b, keep) == Select(a, keep) + Select(b, keep)
  {
    if b == [] {
      assert a + b == a;
    } else {
      assert (a + b)[..|a + b| - 1] == a + b[..|b| - 1];
      SelectAppend(a, b[..|b| - 1], keep);
    }
  }

  lemma {:induction false} SelectNone(rows: seq<Def>, keep: Def -> bool)
    requires forall x :: x in rows ==> !keep(x)
    ensures Select(rows, keep) == []
  {
    if rows != [] {
      assert rows[|rows| - 1] in rows && forall x :: x in rows[..|rows| - 1] ==> x in rows;
      SelectNone(rows[..|rows| - 1], keep);
    }
  }

  /** The first selected row, when nothing in front of it is selected. */
  lemma SelectLeads(a: seq<Def>, d: Def, b: seq<Def>, keep: Def -> bool)
    requires keep(d) && forall x :: x in a ==> !keep(x)
    ensures Select(a + [d] + b, keep) != [] && Select(a + [d] + b, keep)[0] == d
  {
    SelectAppend(a + [d], b, keep);
    SelectAppend(a, [d], keep);
    SelectNone(a, keep);
    assert [d][..0] == [];
  }

  lemma {:induction false} SelectTwice(rows: seq<Def>, f: Def -> bool, g: Def -> bool, both: Def -> bool)
    requires forall d :: both(d) <==> f(d) && g(d)
    ensures Select(Select(rows, f), g) == Select(rows, both)
  {
    if rows != [] {
      var init, last := rows[..|rows| - 1], rows[|rows| - 1];
      SelectTwice(init, f, g, both);
      if f(last) {
        assert (Select(init, f) + [last])[..|Select(init, f)|] == Select(init, f);
      }
    }
  }

  function Contends(file: string, name: string, arity: int, fits: bool): Def -> bool {
    (d: Def) => d.file == file && d.name == name && (fits ==> d.params == Some(arity))
  }

  /** Is there a definition in the file that fits the call's arity? */
  predicate Fits(rows: seq<Def>, file: string, name: string, arity: int) {
    arity >= 0 && Select(Select(Candidates(rows, name), InFile(file)), WithArity(arity)) != []
  }

  lemma ContendersInOne(rows: seq<Def>, file: string, name: string, arity: int)
    ensures Contenders(rows, file, name, arity) ==
      Select(rows, Contends(file, name, arity, Fits(rows, file, name, arity)))
  {
    SelectTwice(rows, Named(name), InFile(file), Contends(file, name, arity, false));
    SelectTwice(rows, Contends(file, name, arity, false), WithArity(arity), Contends(file, name, arity, true));
  }

  lemma FitsPermutes(a: seq<Def>, b: seq<Def>, file: string, name: string, arity: int)
    requires Permuted(a, b)
    ensures Fits(a, file, name, arity) == Fits(b, file, name, arity)
  {
    SelectPermutes(a, b, Named(name));
    SelectPermutes(Candidates(a, name), Candidates(b, name), InFile(file));
    SelectPermutes(Select(Candidates(a, name), InFile(file)), Select(Candidates(b, name), InFile(file)),
                   WithArity(arity));
    SameMembers(Select(Select(Candidates(a, name), InFile(file)), WithArity(arity)),
      Select(Select(Candidates(b, name), InFile(file)), WithArity(arity)));
  }

  /** Any contender in front can come first in an order that the query may return. */
  lemma FrontCanWin(rows: seq<Def>, i: nat, s: Snapshot, e: Edge)
    requires Ordered(rows) && i < |rows| && NameOf(s, e).Some? && Defines(rows, e.file, NameOf(s, e).value)
    requires InFront(Contenders(rows, e.file, NameOf(s, e).value, e.arity), rows[i])
    ensures Resolve(Advanced(rows, i), s, e) == Resolved(SameFile, rows[i].key, High)
  {
    var name, moved := NameOf(s, e).value, Advanced(rows, i);
    AdvancedPermutes(rows, i);
    SameFacts(rows, moved);
    FirstContender(moved, e.file, name, e.arity);
    MovedLeads(rows, i, e.file, name, e.arity);
  }

  lemma MovedLeads(rows: seq<Def>, i: nat, file: string, name: string, arity: int)
    requires Ordered(rows) && i < |rows| && InFront(Contenders(rows, file, name, arity), rows[i])
    ensures Contenders(Advanced(rows, i), file, name, arity) != []
    ensures Contenders(Advanced(rows, i), file, name, arity)[0] == rows[i]
  {
    var moved, fits := Advanced(rows, i), Fits(rows, file, name, arity);
    var rest := rows[..i] + rows[i + 1..];
    var keep := Contends(file, name, arity, fits);
    AdvancedPermutes(rows, i);
    FitsPermutes(rows, moved, file, name, arity);
    ContendersInOne(rows, file, name, arity);
    ContendersInOne(moved, file, name, arity);
    SelectSound(rows, keep);
    SelectSound(rest, StartsBefore(rows[i].start));
    forall x | x in rows && keep(x)
      ensures rows[i].start <= x.start
    {
      assert x in Contenders(rows, file, name, arity);
    }
    assert forall x :: x in Earlier(rest, rows[i].start) ==> x in rest && x in rows && x.start < rows[i].start;
    SelectLeads(Earlier(rest, rows[i].start), rows[i], Later(rest, rows[i].start), keep);
  }

  /** Among the orders that the query can return, an edge's outcome is always the same
      exactly when the contenders of its own file that start first are one symbol. */
  lemma OrderIndependentIff(rows: seq<Def>, s: Snapshot, e: Edge)
    requires Ordered(rows)
    ensures NoTieInFront(rows, s, e) <==>
      forall other :: Permuted(rows, other) && Ordered(other) ==> Resolve(other, s, e) == Resolve(rows, s, e)
  {
    if NoTieInFront(rows, s, e) {
      forall other | Permuted(rows, other) && Ordered(other)
        ensures Resolve(other, s, e) == Resolve(rows, s, e)
      {
        OrderedSameWithoutTie(rows, other, s, e);
      }
    } else {
      var list := Contenders(rows, e.file, NameOf(s, e).value, e.arity);
      var c, d :| InFront(list, c) && InFront(list, d) && c.key != d.key;
      FirstContender(rows, e.file, NameOf(s, e).value, e.arity);
      var i :| 0 <= i < |rows| && rows[i] == c;
      var j :| 0 <= j < |rows| && rows[j] == d;
      FrontCanWin(rows, i, s, e);
      FrontCanWin(rows, j, s, e);
      AdvancedPermutes(rows, i);
      AdvancedPermutes(rows, j);
      assert Resolve(Advanced(rows, i), s, e) != Resolve(Advanced(rows, j), s, e);
    }
  }

  /** The row's key is that of a declaration at its own place in its file. */
  predicate FileScopedRow(d: Def) {
    d.key == SymbolKeys.FileScopedKey(d.file, d.name, d.start)
  }

  /** Rows of file-scoped symbols never tie as different symbols: with no partial
      declaration among them the outcome does not depend on the order at all. */
  lemma FileScopedRowsDoNotTie(rows: seq<Def>, s: Snapshot, e: Edge)
    requires Ordered(rows)
    requires NameOf(s, e).Some? ==> forall d :: d in rows && d.file == e.file && d.name == NameOf(s, e).value ==>
      FileScopedRow(d)
    ensures NoTieInFront(rows, s, e)
    ensures forall other :: Permuted(rows, other) && Ordered(other) ==> Resolve(other, s, e) == Resolve(rows, s, e)
  {
    if NameOf(s, e).Some? && Defines(rows, e.file, NameOf(s, e).value) {
      FirstContender(rows, e.file, NameOf(s, e).value, e.arity);
    }
    OrderIndependentIff(rows, s, e);
  }
}
