/** Which rows one extraction becomes, told by the extraction: its uses, and every property written. */
module GraphRows {
  import opened Wrappers
  import opened Extraction
  import opened SymbolKeys
  import opened TemporalGraph
  import opened GraphIngest

  // ---------------------------------------------------------------- the distinct items

  /** The first occurrence of its item. */
  predicate First<T(==)>(items: seq<T>, i: nat)
    requires i < |items|
  {
    items[i] !in items[..i]
  }

  /** Item `j` of the distinct ones is a first occurrence behind `i`. */
  predicate FirstBehind<T(==)>(items: seq<T>, i: nat, x: T) {
    exists m :: i < m < |items| && items[m] == x && First(items, m)
  }

  lemma FirstBehindStill<T>(items: seq<T>, i: nat, x: T)
    requires items != [] && FirstBehind(items[..|items| - 1], i, x)
    ensures FirstBehind(items, i, x)
  {
    var init := items[..|items| - 1];
    var m :| i < m < |init| && init[m] == x && First(init, m);
    assert items[..m] == init[..m] && items[m] == init[m];
    assert First(items, m);
  }

  /** The distinct items keep the order of their first occurrences. */
  lemma {:induction false} DistinctOrder<T>(items: seq<T>, i: nat) returns (k: nat)
    requires i < |items| && First(items, i)
    ensures k < |Distinct(items)| && Distinct(items)[k] == items[i]
    ensures forall j :: k < j < |Distinct(items)| ==> FirstBehind(items, i, Distinct(items)[j])
  {
    var n := |items| - 1;
    var init := items[..n];
    if i == n {
      k := |Distinct(init)|;
    } else {
      assert items[..i] == init[..i] && First(init, i);
      k := DistinctOrder(init, i);
      forall j | k < j < |Distinct(items)|
        ensures FirstBehind(items, i, Distinct(items)[j])
      {
        if j < |Distinct(init)| {
          FirstBehindStill(items, i, Distinct(init)[j]);
        } else {
          assert First(items, n);
        }
      }
    }
  }

  // ---------------------------------------------------------------- the edges of one file

  /** An edge from a file to the placeholder of a name. */
  function UseEdge(t: EdgeType, path: string, name: string): EdgeId {
    EdgeId(t, FileNode(path), SymbolNode("name::" + name))
  }

  predicate IsUse(t: EdgeType) {
    t == Calls || t == References || t == Injects
  }

  /** The file calls, references or injects the name. */
  predicate Uses(ex: ExtractedFile, t: EdgeType, name: string) {
    match t
    case Calls => exists i :: 0 <= i < |ex.calls| && ex.calls[i].name == name
    case References => name in ex.references
    case Injects => name in ex.injects
    case _ => false
  }

  /** The edge stands for a use that the extraction has. */
  predicate UseOf(ex: ExtractedFile, e: EdgeId) {
    && e.src == FileNode(ex.path) && e.dst.tag == Symbol && "name::" <= e.dst.key
    && Uses(ex, e.etype, e.dst.key[6..])
  }

  lemma UseEdgeName(t: EdgeType, path: string, name: string)
    ensures "name::" <= UseEdge(t, path, name).dst.key && UseEdge(t, path, name).dst.key[6..] == name
  {
  }

  lemma UseEdgeIs(e: EdgeId)
    requires e.src.tag == File && e.dst.tag == Symbol && "name::" <= e.dst.key
    ensures e == UseEdge(e.etype, e.src.key, e.dst.key[6..])
  {
    assert e.dst.key == "name::" + e.dst.key[6..];
  }

  lemma InFiveParts<T>(a: seq<T>, b: seq<T>, c: seq<T>, d: seq<T>, e: seq<T>, i: nat)
    requires i < |a + b + c + d + e|
    ensures
      var ab, abc, abcd := |a| + |b|, |a| + |b| + |c|, |a| + |b| + |c| + |d|;
      (a + b + c + d + e)[i] ==
        if i < |a| then a[i] else if i < ab then b[i - |a|] else if i < abc then c[i - ab]
        else if i < abcd then d[i - abc] else e[i - abcd]
  {
  }

  /** Where the rows of the calls, of the references and of the injections start. */
  function CallsFrom(ex: ExtractedFile): nat {
    |ex.symbols| + |Distinct(ex.imports)|
  }

  function ReferencesFrom(ex: ExtractedFile): nat {
    CallsFrom(ex) + |Distinct(ex.calls)|
  }

  function InjectsFrom(ex: ExtractedFile): nat {
    ReferencesFrom(ex) + |Distinct(ex.references)|
  }

  /** What a CALLS edge is given for one call. */
  predicate CallProps(props: Props, call: CallSite) {
    && UnresolvedP in props && props[UnresolvedP] == Flag(true)
    && ArgsP in props && props[ArgsP] == Number(call.arity)
    && (ReceiverTypeP in props <==> Receives(call))
    && (Receives(call) ==> props[ReceiverTypeP] == Text(call.receiverType.value))
    && props.Keys <= {UnresolvedP, ArgsP, ReceiverTypeP}
  }

  /** The extractor knows the type of what the call is made on. */
  predicate Receives(call: CallSite) {
    call.receiverType.Some? && call.receiverType.value != ""
  }

  lemma CallRowIs(path: string, call: CallSite)
    ensures CallRow(path)(call).id == UseEdge(Calls, path, call.name) && CallProps(CallRow(path)(call).props, call)
  {
  }

  /** The rows of the uses, by the part they lie in. */
  predicate UseRowAt(ex: ExtractedFile, row: EdgeRow, i: nat) {
    if i < CallsFrom(ex) then !IsUse(row.id.etype)
    else if i < ReferencesFrom(ex) then
      var call := Distinct(ex.calls)[i - CallsFrom(ex)];
      row.id == UseEdge(Calls, ex.path, call.name) && CallProps(row.props, call)
    else if i < InjectsFrom(ex) then
      row == Row(UseEdge(References, ex.path, Distinct(ex.references)[i - ReferencesFrom(ex)]),
                 map[UnresolvedP := Flag(true)])
    else
      i - InjectsFrom(ex) < |Distinct(ex.injects)| &&
      row == Row(UseEdge(Injects, ex.path, Distinct(ex.injects)[i - InjectsFrom(ex)]), map[UnresolvedP := Flag(true)])
  }

  /** Each row of the batch, by the part it lies in. */
  lemma EdgeRowAt(ex: ExtractedFile, i: nat)
    requires i < |EdgeRowsOf(ex)| && |ex.symbols| <= i
    ensures EdgeRowsOf(ex)[i] ==
      if i < CallsFrom(ex) then ImportsRow(ex.path)(Distinct(ex.imports)[i - |ex.symbols|])
      else if i < ReferencesFrom(ex) then CallRow(ex.path)(Distinct(ex.calls)[i - CallsFrom(ex)])
      else if i < InjectsFrom(ex) then NameRow(References, ex.path)(Distinct(ex.references)[i - ReferencesFrom(ex)])
      else NameRow(Injects, ex.path)(Distinct(ex.injects)[i - InjectsFrom(ex)])
  {
    MappedInFiveParts(DefinesRow(ex.path), ex.symbols, ImportsRow(ex.path), Distinct(ex.imports), CallRow(ex.path),
                      Distinct(ex.calls), NameRow(References, ex.path), Distinct(ex.references),
                      NameRow(Injects, ex.path), Distinct(ex.injects), i);
  }

  lemma MappedInFiveParts<A, B, C, D, E, T>(fa: A -> T, a: seq<A>, fb: B -> T, b: seq<B>, fc: C -> T, c: seq<C>,
                                            fd: D -> T, d: seq<D>, fe: E -> T, e: seq<E>, i: nat)
    requires |a| <= i < |a| + |b| + |c| + |d| + |e|
    ensures
      var ab, abc, abcd := |a| + |b|, |a| + |b| + |c|, |a| + |b| + |c| + |d|;
      (Mapped(fa, a) + Mapped(fb, b) + Mapped(fc, c) + Mapped(fd, d) + Mapped(fe, e))[i] ==
        if i < ab then fb(b[i - |a|]) else if i < abc then fc(c[i - ab]) else if i < abcd then fd(d[i - abc])
        else fe(e[i - abcd])
  {
    InFiveParts(Mapped(fa, a), Mapped(fb, b), Mapped(fc, c), Mapped(fd, d), Mapped(fe, e), i);
  }

  lemma FirstAreDefines(ex: ExtractedFile, i: nat)
    requires i < |ex.symbols|
    ensures i < |EdgeRowsOf(ex)| && EdgeRowsOf(ex)[i].id.etype == Defines
  {
  }

  lemma UseRowIs(ex: ExtractedFile, i: nat)
    requires i < |EdgeRowsOf(ex)|
    ensures UseRowAt(ex, EdgeRowsOf(ex)[i], i)
  {
    if i < |ex.symbols| {
      FirstAreDefines(ex, i);
    } else {
      EdgeRowAt(ex, i);
      if CallsFrom(ex) <= i < ReferencesFrom(ex) {
        CallRowIs(ex.path, Distinct(ex.calls)[i - CallsFrom(ex)]);
      }
    }
  }

  /** The edges of these three types that an extraction writes are its uses. */
  lemma RowsOfUses(ex: ExtractedFile, e: EdgeId)
    requires IsUse(e.etype)
    ensures Writes(EdgeRowsOf(ex), e) <==> UseOf(ex, e)
  {
    if Writes(EdgeRowsOf(ex), e) {
      UseIsRecorded(ex, e);
    }
    if UseOf(ex, e) {
      UseEdgeIs(e);
      var i := UseIsWritten(ex, e.etype, e.dst.key[6..]);
    }
  }

  lemma UseIsRecorded(ex: ExtractedFile, e: EdgeId)
    requires IsUse(e.etype) && Writes(EdgeRowsOf(ex), e)
    ensures UseOf(ex, e)
  {
    var rows := EdgeRowsOf(ex);
    var i :| 0 <= i < |rows| && rows[i].id == e;
    UseRowIs(ex, i);
    DistinctKeepsAll(ex.calls);
    DistinctKeepsAll(ex.references);
    DistinctKeepsAll(ex.injects);
    if i < ReferencesFrom(ex) {
      var call := Distinct(ex.calls)[i - CallsFrom(ex)];
      UseEdgeName(Calls, ex.path, call.name);
      assert call in ex.calls;
    } else if i < InjectsFrom(ex) {
      UseEdgeName(References, ex.path, Distinct(ex.references)[i - ReferencesFrom(ex)]);
    } else {
      UseEdgeName(Injects, ex.path, Distinct(ex.injects)[i - InjectsFrom(ex)]);
    }
  }

  lemma UseIsWritten(ex: ExtractedFile, t: EdgeType, name: string) returns (i: nat)
    requires IsUse(t) && Uses(ex, t, name)
    ensures i < |EdgeRowsOf(ex)| && EdgeRowsOf(ex)[i].id == UseEdge(t, ex.path, name)
  {
    DistinctKeepsAll(ex.calls);
    DistinctKeepsAll(ex.references);
    DistinctKeepsAll(ex.injects);
    match t
    case Calls =>
      var j :| 0 <= j < |ex.calls| && ex.calls[j].name == name;
      assert ex.calls[j] in Distinct(ex.calls);
      var k :| 0 <= k < |Distinct(ex.calls)| && Distinct(ex.calls)[k] == ex.calls[j];
      i := CallsFrom(ex) + k;
      UseRowIs(ex, i);
    case References =>
      var k :| 0 <= k < |Distinct(ex.references)| && Distinct(ex.references)[k] == name;
      i := ReferencesFrom(ex) + k;
      UseRowIs(ex, i);
    case Injects =>
      var k :| 0 <= k < |Distinct(ex.injects)| && Distinct(ex.injects)[k] == name;
      i := InjectsFrom(ex) + k;
      UseRowIs(ex, i);
  }

  /** Every row of a use marks it unresolved. */
  lemma UsesAreUnresolved(ex: ExtractedFile, i: nat)
    requires i < |EdgeRowsOf(ex)| && IsUse(EdgeRowsOf(ex)[i].id.etype)
    ensures UnresolvedP in EdgeRowsOf(ex)[i].props && EdgeRowsOf(ex)[i].props[UnresolvedP] == Flag(true)
  {
    UseRowIs(ex, i);
  }

  // ---------------------------------------------------------------- which call decides

  /** The last of the distinct calls of the name, among those that `p` holds of. */
  ghost predicate Decides(calls: seq<CallSite>, name: string, p: CallSite -> bool, i: nat) {
    && i < |calls| && calls[i].name == name && p(calls[i]) && First(calls, i)
    && forall j :: i < j < |calls| && calls[j].name == name && p(calls[j]) ==> !First(calls, j)
  }

  /** The row that sets the property last, for a property that is set for the calls `p` holds of. */
  lemma DecidingRow(ex: ExtractedFile, name: string, p: CallSite -> bool, i: nat) returns (k: nat)
    requires Decides(ex.calls, name, p, i)
    ensures k < |EdgeRowsOf(ex)| && EdgeRowsOf(ex)[k].id == UseEdge(Calls, ex.path, name)
    ensures CallProps(EdgeRowsOf(ex)[k].props, ex.calls[i])
    ensures forall j :: k < j < |EdgeRowsOf(ex)| && EdgeRowsOf(ex)[j].id == UseEdge(Calls, ex.path, name) ==>
      exists call :: !p(call) && CallProps(EdgeRowsOf(ex)[j].props, call)
  {
    var n, rows := CallsFrom(ex), EdgeRowsOf(ex);
    var d := DistinctOrder(ex.calls, i);
    k := n + d;
    UseRowIs(ex, k);
    forall j | k < j < |rows| && rows[j].id == UseEdge(Calls, ex.path, name)
      ensures exists call :: !p(call) && CallProps(rows[j].props, call)
    {
      UseRowIs(ex, j);
      var call := Distinct(ex.calls)[j - n];
      UseEdgeName(Calls, ex.path, call.name);
      UseEdgeName(Calls, ex.path, name);
      assert FirstBehind(ex.calls, i, call);
      assert !p(call);
    }
  }

  predicate AnyCall(call: CallSite) {
    true
  }

  /** A name that is called has a deciding call. */
  lemma {:induction false} SomeCallDecides(calls: seq<CallSite>, name: string, p: CallSite -> bool) returns (i: nat)
    requires exists j :: 0 <= j < |calls| && calls[j].name == name && p(calls[j])
    ensures Decides(calls, name, p, i)
  {
    var n := |calls| - 1;
    if calls[n].name == name && p(calls[n]) && First(calls, n) {
      i := n;
    } else {
      EarlierCall(calls, name, p);
      i := SomeCallDecides(calls[..n], name, p);
      DecidesStill(calls, name, p, i);
    }
  }

  lemma EarlierCall(calls: seq<CallSite>, name: string, p: CallSite -> bool)
    requires exists j :: 0 <= j < |calls| && calls[j].name == name && p(calls[j])
    requires var n := |calls| - 1; calls[n].name == name && p(calls[n]) ==> !First(calls, n)
    ensures var n := |calls| - 1; exists j :: 0 <= j < n && calls[..n][j].name == name && p(calls[..n][j])
  {
    var n := |calls| - 1;
    var j :| 0 <= j < |calls| && calls[j].name == name && p(calls[j]);
    if j == n {
      j :| 0 <= j < n && calls[..n][j] == calls[n];
    }
    assert calls[..n][j] == calls[j];
  }

  lemma DecidesStill(calls: seq<CallSite>, name: string, p: CallSite -> bool, i: nat)
    requires calls != [] && Decides(calls[..|calls| - 1], name, p, i)
    requires var n := |calls| - 1; calls[n].name == name && p(calls[n]) ==> !First(calls, n)
    ensures Decides(calls, name, p, i)
  {
    var init := calls[..|calls| - 1];
    assert forall m :: 0 <= m < |init| ==> init[m] == calls[m] && init[..m] == calls[..m];
    assert First(init, i) && First(calls, i);
    forall m | i < m < |init| && init[m].name == name && p(init[m])
      ensures !First(calls, m)
    {
      assert !First(init, m);
    }
  }

  /** The properties of a CALLS edge after the file is written: `args` of the deciding call, `receiver_type` of the
      deciding call among those that have one. */
  lemma CallEdgeAfter(item: Option<Item>, ex: ExtractedFile, name: string, head: Option<Head>, i: nat)
    requires Decides(ex.calls, name, AnyCall, i)
    ensures
      var after := ItemAfter(item, EdgeRowsOf(ex), UseEdge(Calls, ex.path, name), head);
      after.Some? && Prop(after.value, ArgsP) == Some(Number(ex.calls[i].arity))
  {
    var k := DecidingRow(ex, name, AnyCall, i);
    LastSetting(item, EdgeRowsOf(ex), UseEdge(Calls, ex.path, name), head, ArgsP, k);
  }

  lemma ReceiverAfter(item: Option<Item>, ex: ExtractedFile, name: string, head: Option<Head>, i: nat)
    requires Decides(ex.calls, name, Receives, i)
    ensures
      var after := ItemAfter(item, EdgeRowsOf(ex), UseEdge(Calls, ex.path, name), head);
      after.Some? && Prop(after.value, ReceiverTypeP) == Some(Text(ex.calls[i].receiverType.value))
  {
    var k := DecidingRow(ex, name, Receives, i);
    LastSetting(item, EdgeRowsOf(ex), UseEdge(Calls, ex.path, name), head, ReceiverTypeP, k);
  }

  /** Where no call of the name has a receiver type, the edge keeps the one it had. */
  lemma ReceiverKept(item: Option<Item>, ex: ExtractedFile, name: string, head: Option<Head>)
    requires forall i :: 0 <= i < |ex.calls| && ex.calls[i].name == name ==> !Receives(ex.calls[i])
    ensures
      var after := ItemAfter(item, EdgeRowsOf(ex), UseEdge(Calls, ex.path, name), head);
      (if after.Some? then Prop(after.value, ReceiverTypeP) else None)
        == if item.Some? then Prop(item.value, ReceiverTypeP) else None
  {
    var rows, e := EdgeRowsOf(ex), UseEdge(Calls, ex.path, name);
    DistinctKeepsAll(ex.calls);
    forall i | 0 <= i < |rows| && rows[i].id == e
      ensures ReceiverTypeP !in rows[i].props
    {
      UseRowIs(ex, i);
      var call := Distinct(ex.calls)[i - CallsFrom(ex)];
      UseEdgeName(Calls, ex.path, call.name);
      UseEdgeName(Calls, ex.path, name);
      assert call in ex.calls;
    }
    NeverSet(item, rows, e, head, ReceiverTypeP);
  }

  lemma UnresolvedAfter(item: Option<Item>, ex: ExtractedFile, e: EdgeId, head: Option<Head>)
    requires IsUse(e.etype) && UseOf(ex, e)
    ensures
      var after := ItemAfter(item, EdgeRowsOf(ex), e, head);
      after.Some? && Prop(after.value, UnresolvedP) == Some(Flag(true))
  {
    var rows := EdgeRowsOf(ex);
    RowsOfUses(ex, e);
    var k := LastRow(rows, e);
    UsesAreUnresolved(ex, k);
    LastSetting(item, rows, e, head, UnresolvedP, k);
  }

  lemma {:induction false} LastRow<K>(rows: seq<Row<K>>, id: K) returns (i: nat)
    requires Writes(rows, id)
    ensures i < |rows| && rows[i].id == id && forall j :: i < j < |rows| ==> rows[j].id != id
  {
    var n := |rows| - 1;
    if rows[n].id == id {
      i := n;
    } else {
      var j :| 0 <= j < |rows| && rows[j].id == id;
      assert rows[..n][j].id == id;
      i := LastRow(rows[..n], id);
      assert forall j :: i < j < n ==> rows[j] == rows[..n][j];
    }
  }

  // ---------------------------------------------------------------- the nodes of one file

  /** What a declaration says of its symbol, property by property. */
  function Said(path: string, s: Sym, name: PropName): Option<Value> {
    match name
    case NameP => Some(Text(s.name))
    case KindP => Some(Text(s.kind))
    case StartP => Some(Number(s.startLine))
    case EndP => Some(Number(s.endLine))
    case FileP => Some(Text(path))
    case NamespaceP => if s.namespace.GetOr("") != "" then Some(Text(s.namespace.value)) else None
    case PartialP => if s.partial then Some(Flag(true)) else None
    case ParamsP => if s.paramCount.Some? then Some(Number(s.paramCount.value)) else None
    case _ => None
  }

  lemma SymbolPropsSay(path: string, s: Sym, name: PropName)
    ensures name in SymbolProps(path, s) <==> Said(path, s, name).Some?
    ensures name in SymbolProps(path, s) ==> Said(path, s, name) == Some(SymbolProps(path, s)[name])
  {
  }

  /** A row that makes or confirms the placeholder of a name. */
  predicate Placeholds(row: NodeRow) {
    && row.id.tag == Symbol && "name::" <= row.id.key
    && row.props == map[NameP := Text(row.id.key[6..]), UnresolvedP := Flag(true)]
  }
}
