/** The tombstoned graph refines a plain map from path to last extraction. */
module GraphRefinement {
  import opened Wrappers
  import opened Extraction
  import opened SymbolKeys
  import opened TemporalGraph
  import opened GraphIngest
  import opened GraphRows

  // ---------------------------------------------------------------- runs

  /** One stamped operation on the graph. */
  datatype Step =
    | Reingest(ex: ExtractedFile, head: Head, now: int)
    | Delete(path: string, head: Head, now: int)
    | Collect(policy: Policy)
    | SweepLayers(head: Head, now: int)

  function Apply(g: Graph, step: Step): Graph {
    match step
    case Reingest(ex, h, now) => Reingested(g, ex, Some(h), now)
    case Delete(path, h, now) => DeleteFile(g, path, Some(h), now)
    case Collect(policy) => Vacuum(g, policy)
    case SweepLayers(h, now) => Sweep(g, Layer, h, now)
  }

  function Run(steps: seq<Step>): Graph {
    if steps == [] then EMPTY
    else Apply(Run(steps[..|steps| - 1]), steps[|steps| - 1])
  }

  /** The plain history: for each path that exists, what was extracted last. */
  type History = map<string, ExtractedFile>

  function Remember(last: History, step: Step): History {
    match step
    case Reingest(ex, _, _) => last[ex.path := ex]
    case Delete(path, _, _) => last - {path}
    case Collect(_) => last
    case SweepLayers(_, _) => last
  }

  function HistoryOf(steps: seq<Step>): History {
    if steps == [] then map[]
    else Remember(HistoryOf(steps[..|steps| - 1]), steps[|steps| - 1])
  }

  /** The paths of the run can be told apart by their keys. */
  predicate GoodStep(step: Step) {
    match step
    case Reingest(ex, _, _) => GoodPath(ex.path)
    case Delete(path, _, _) => GoodPath(path)
    case _ => true
  }

  ghost predicate GoodRun(steps: seq<Step>) {
    forall i :: 0 <= i < |steps| ==> GoodStep(steps[i])
  }

  // ---------------------------------------------------------------- what the history says

  predicate Declares(ex: ExtractedFile, key: string) {
    exists i :: 0 <= i < |ex.symbols| && SymbolKey(ex.path, ex.symbols[i]) == key
  }

  /** The declaration that counts when one file declares a key twice: the last one. */
  function Declaration(ex: ExtractedFile, key: string): (s: Sym)
    requires Declares(ex, key)
    ensures s in ex.symbols && SymbolKey(ex.path, s) == key
  {
    LastWith(ex.path, ex.symbols, key)
  }

  function LastWith(path: string, symbols: seq<Sym>, key: string): (s: Sym)
    requires exists i :: 0 <= i < |symbols| && SymbolKey(path, symbols[i]) == key
    ensures s in symbols && SymbolKey(path, s) == key
  {
    var last := symbols[|symbols| - 1];
    if SymbolKey(path, last) == key then last
    else
      assert forall i :: 0 <= i < |symbols| - 1 ==> symbols[..|symbols| - 1][i] == symbols[i];
      LastWith(path, symbols[..|symbols| - 1], key)
  }

  predicate LiveNode(g: Graph, id: NodeId) {
    id in g.nodes && g.nodes[id].life.Live()
  }

  predicate LiveEdge(g: Graph, e: EdgeId) {
    e in g.edges && g.edges[e].life.Live()
  }

  /** The node carries what the file's last declaration of its key says. */
  predicate Describes(item: Item, s: Sym) {
    && Prop(item, NameP) == Some(Text(s.name)) && Prop(item, KindP) == Some(Text(s.kind))
    && Prop(item, StartP) == Some(Number(s.startLine)) && Prop(item, EndP) == Some(Number(s.endLine))
    && (s.namespace.GetOr("") != "" ==> Prop(item, NamespaceP) == Some(Text(s.namespace.value)))
    && (s.partial ==> Prop(item, PartialP) == Some(Flag(true)))
    && (s.paramCount.Some? ==> Prop(item, ParamsP) == Some(Number(s.paramCount.value)))
  }

  predicate Keeps(last: History, key: string) {
    Owner(key) in last && Declares(last[Owner(key)], key)
  }

  ghost predicate PathsMatch(last: History) {
    forall p :: p in last ==> last[p].path == p && GoodPath(p)
  }

  ghost predicate FilesAgree(g: Graph, last: History) {
    forall p :: LiveNode(g, FileNode(p)) <==> p in last
  }

  ghost predicate SymbolsAgree(g: Graph, last: History) {
    forall k :: FileScoped(k) ==> SymbolAgrees(g, last, k)
  }

  ghost predicate DefinesAgree(g: Graph, last: History) {
    && (forall k :: FileScoped(k) && Keeps(last, k) ==> LiveEdge(g, DefinesEdge(Owner(k), k)))
    && (forall p, k :: FileScoped(k) && DefinesEdge(p, k) in g.edges ==> p == Owner(k))
  }

  ghost predicate ImportsAgree(g: Graph, last: History) {
    forall p, m :: LiveEdge(g, ImportsEdge(p, m)) <==> p in last && m in last[p].imports
  }

  /** What the nodes of the files carry. */
  ghost predicate FilesDescribed(g: Graph, last: History) {
    forall p :: p in last && FileNode(p) in g.nodes ==> FileDescribed(g.nodes[FileNode(p)], last[p])
  }

  predicate FileDescribed(item: Item, ex: ExtractedFile) {
    Prop(item, LangP) == Some(Text(ex.lang)) && Prop(item, GeneratedP) == Some(Flag(ex.generated))
  }

  /** The edge stands for a call, a reference or an injection of its file's last extraction. */
  predicate RecordedUse(last: History, e: EdgeId) {
    e.src.tag == File && e.src.key in last && UseOf(last[e.src.key], e)
  }

  ghost predicate UsesAgree(g: Graph, last: History) {
    forall e: EdgeId :: IsUse(e.etype) ==> UseAgrees(g, last, e)
  }

  /** The edge is alive exactly if the use is recorded, and then it carries what the extraction says. */
  ghost predicate UseAgrees(g: Graph, last: History, e: EdgeId) {
    && (LiveEdge(g, e) <==> RecordedUse(last, e))
    && (LiveEdge(g, e) && RecordedUse(last, e) ==>
        e.dst in g.nodes && UseDescribed(g.edges[e], last[e.src.key], e.etype, e.dst.key[6..]))
  }

  ghost predicate UseDescribed(item: Item, ex: ExtractedFile, t: EdgeType, name: string) {
    && Prop(item, UnresolvedP) == Some(Flag(true))
    && (t == Calls ==> CallDescribed(item, ex.calls, name))
  }

  /** `args` is that of the deciding call, `receiver_type` that of the deciding call among those that have one. */
  ghost predicate CallDescribed(item: Item, calls: seq<CallSite>, name: string) {
    && (forall i: nat :: Decides(calls, name, AnyCall, i) ==> Prop(item, ArgsP) == Some(Number(calls[i].arity)))
    && (forall i: nat :: Decides(calls, name, Receives, i) ==>
          Prop(item, ReceiverTypeP) == Some(Text(calls[i].receiverType.value)))
  }

  /** No placeholder is ever buried; it carries its name and is marked unresolved. */
  ghost predicate PlaceholdersStand(g: Graph) {
    forall k :: "name::" <= k && SymbolNode(k) in g.nodes ==> Stands(g.nodes[SymbolNode(k)], k[6..])
  }

  predicate Stands(item: Item, name: string) {
    item.life.Live() && Prop(item, NameP) == Some(Text(name)) && Prop(item, UnresolvedP) == Some(Flag(true))
  }

  /** What every step keeps. */
  ghost predicate Refines(g: Graph, last: History) {
    && PathsMatch(last) && FilesAgree(g, last) && SymbolsAgree(g, last)
    && DefinesAgree(g, last) && ImportsAgree(g, last)
    && FilesDescribed(g, last) && UsesAgree(g, last) && PlaceholdersStand(g)
  }

  // ---------------------------------------------------------------- the rows of one file

  /** A row about a module or about a placeholder. */
  predicate Foreign(row: NodeRow) {
    row.id.tag == Module || (Owner(row.id.key) == "name" && Placeholds(row))
  }

  ghost predicate AllForeign(rows: seq<NodeRow>) {
    forall i :: 0 <= i < |rows| ==> Foreign(rows[i])
  }

  lemma PlaceholderRowsForeign(names: seq<string>)
    ensures AllForeign(Mapped(PlaceholderRow, names))
  {
    forall i | 0 <= i < |names|
      ensures Foreign(PlaceholderRow(names[i]))
    {
      OwnerOfPlaceholder(names[i]);
      assert PlaceholderKey(names[i])[6..] == names[i];
    }
  }

  lemma CallRowsForeign(calls: seq<CallSite>)
    ensures AllForeign(Mapped(CallPlaceholderRow, calls))
  {
    forall i | 0 <= i < |calls|
      ensures Foreign(CallPlaceholderRow(calls[i]))
    {
      OwnerOfPlaceholder(calls[i].name);
      assert PlaceholderKey(calls[i].name)[6..] == calls[i].name;
    }
  }

  lemma ForeignAppend(a: seq<NodeRow>, b: seq<NodeRow>)
    requires AllForeign(a) && AllForeign(b)
    ensures AllForeign(a + b)
  {
  }

  /** The rows behind the file's and its symbols'. */
  function ForeignRows(ex: ExtractedFile): seq<NodeRow> {
    Mapped(ModuleRow, Distinct(ex.imports)) + Mapped(CallPlaceholderRow, Distinct(ex.calls))
    + Mapped(PlaceholderRow, Distinct(ex.references)) + Mapped(PlaceholderRow, Distinct(ex.injects))
  }

  lemma ForeignRowsAreForeign(ex: ExtractedFile)
    ensures AllForeign(ForeignRows(ex))
  {
    var m, c := Mapped(ModuleRow, Distinct(ex.imports)), Mapped(CallPlaceholderRow, Distinct(ex.calls));
    var r, j := Mapped(PlaceholderRow, Distinct(ex.references)), Mapped(PlaceholderRow, Distinct(ex.injects));
    CallRowsForeign(Distinct(ex.calls));
    PlaceholderRowsForeign(Distinct(ex.references));
    PlaceholderRowsForeign(Distinct(ex.injects));
    ForeignAppend(m, c);
    ForeignAppend(m + c, r);
    ForeignAppend(m + c + r, j);
  }

  lemma Regrouped<T>(f: T, a: seq<T>, m: seq<T>, c: seq<T>, r: seq<T>, j: seq<T>)
    ensures [f] + a + m + c + r + j == [f] + a + (m + c + r + j)
  {
  }

  /** Where the symbol rows sit in the batch, and what the others are. */
  lemma NodeRowShape(ex: ExtractedFile, i: nat)
    requires i < |NodeRowsOf(ex)|
    ensures
      var row := NodeRowsOf(ex)[i];
      if i == 0 then row == FileRow(ex)
      else if i <= |ex.symbols| then row == SymbolRow(ex.path)(ex.symbols[i - 1])
      else Foreign(row)
  {
    ForeignRowsAreForeign(ex);
    RowsInThreeParts(ex);
    ShapeOf(FileRow(ex), Mapped(SymbolRow(ex.path), ex.symbols), ForeignRows(ex), i);
  }

  lemma RowsInThreeParts(ex: ExtractedFile)
    ensures NodeRowsOf(ex) == [FileRow(ex)] + Mapped(SymbolRow(ex.path), ex.symbols) + ForeignRows(ex)
  {
    Regrouped(FileRow(ex), Mapped(SymbolRow(ex.path), ex.symbols), Mapped(ModuleRow, Distinct(ex.imports)),
      Mapped(CallPlaceholderRow, Distinct(ex.calls)), Mapped(PlaceholderRow, Distinct(ex.references)),
        Mapped(PlaceholderRow, Distinct(ex.injects)));
  }

  lemma ShapeOf(f: NodeRow, symbols: seq<NodeRow>, others: seq<NodeRow>, i: nat)
    requires AllForeign(others) && i < 1 + |symbols| + |others|
    ensures
      var row := ([f] + symbols + others)[i];
      if i == 0 then row == f else if i <= |symbols| then row == symbols[i - 1] else Foreign(row)
  {
    if i > |symbols| {
      assert ([f] + symbols + others)[i] == others[i - 1 - |symbols|];
    }
  }

  lemma RowsOfFile(ex: ExtractedFile, path: string)
    ensures Writes(NodeRowsOf(ex), FileNode(path)) <==> path == ex.path
  {
    forall i | 0 <= i < |NodeRowsOf(ex)| {
      NodeRowShape(ex, i);
    }
    assert NodeRowsOf(ex)[0] == FileRow(ex);
  }

  lemma RowsOfSymbol(ex: ExtractedFile, key: string)
    requires Owner(key) != "name"
    ensures Writes(NodeRowsOf(ex), SymbolNode(key)) <==> Declares(ex, key)
    ensures forall i :: 0 <= i < |NodeRowsOf(ex)| && NodeRowsOf(ex)[i].id == SymbolNode(key) ==>
      1 <= i <= |ex.symbols| && NodeRowsOf(ex)[i] == SymbolRow(ex.path)(ex.symbols[i - 1])
  {
    var rows := NodeRowsOf(ex);
    forall i | 0 <= i < |rows| && rows[i].id == SymbolNode(key)
      ensures 1 <= i <= |ex.symbols| && rows[i] == SymbolRow(ex.path)(ex.symbols[i - 1])
    {
      NodeRowShape(ex, i);
    }
    if Declares(ex, key) {
      DeclaredIsWritten(ex, key);
    }
    if Writes(rows, SymbolNode(key)) {
      var i :| 0 <= i < |rows| && rows[i].id == SymbolNode(key);
      assert SymbolKey(ex.path, ex.symbols[i - 1]) == key;
    }
  }

  lemma WritesIffDeclares(ex: ExtractedFile, key: string)
    requires Owner(key) != "name"
    ensures Writes(NodeRowsOf(ex), SymbolNode(key)) <==> Declares(ex, key)
  {
    RowsOfSymbol(ex, key);
  }

  lemma DeclaredIsWritten(ex: ExtractedFile, key: string)
    requires Declares(ex, key)
    ensures Writes(NodeRowsOf(ex), SymbolNode(key))
  {
    var i :| 0 <= i < |ex.symbols| && SymbolKey(ex.path, ex.symbols[i]) == key;
    NodeRowShape(ex, i + 1);
    assert NodeRowsOf(ex)[i + 1].id == SymbolNode(key);
  }

  lemma {:induction false} LastWithIs(path: string, symbols: seq<Sym>, key: string, i: nat)
    requires i < |symbols| && SymbolKey(path, symbols[i]) == key
    requires forall j :: i < j < |symbols| ==> SymbolKey(path, symbols[j]) != key
    ensures LastWith(path, symbols, key) == symbols[i]
  {
    if i < |symbols| - 1 {
      LastWithIs(path, symbols[..|symbols| - 1], key, i);
    }
  }

  lemma {:induction false} LastSuch<T>(items: seq<T>, p: T -> bool) returns (i: nat)
    requires exists j :: 0 <= j < |items| && p(items[j])
    ensures i < |items| && p(items[i]) && forall j :: i < j < |items| ==> !p(items[j])
  {
    var n := |items| - 1;
    if p(items[n]) {
      i := n;
    } else {
      var j :| 0 <= j < |items| && p(items[j]);
      assert p(items[..n][j]);
      i := LastSuch(items[..n], p);
      assert forall m :: i < m < n ==> items[m] == items[..n][m];
    }
  }

  /** Where the declaration that counts stands. */
  lemma LastIndex(ex: ExtractedFile, key: string) returns (i: nat)
    requires Declares(ex, key)
    ensures i < |ex.symbols| && SymbolKey(ex.path, ex.symbols[i]) == key && ex.symbols[i] == Declaration(ex, key)
    ensures forall j :: i < j < |ex.symbols| ==> SymbolKey(ex.path, ex.symbols[j]) != key
  {
    i := LastSuch(ex.symbols, (s: Sym) => SymbolKey(ex.path, s) == key);
    LastWithIs(ex.path, ex.symbols, key, i);
  }

  /** A row of `a + b + c`, by the part it lies in. */
  lemma InThreeParts<T>(a: seq<T>, b: seq<T>, c: seq<T>, i: nat)
    requires i < |a + b + c|
    ensures (a + b + c)[i] == if i < |a| then a[i] else if i < |a| + |b| then b[i - |a|] else c[i - |a| - |b|]
  {
  }

  lemma EdgeRowIs(ex: ExtractedFile, i: nat)
    requires i < |EdgeRowsOf(ex)|
    ensures
      var row, n, m := EdgeRowsOf(ex)[i], |ex.symbols|, |Distinct(ex.imports)|;
      && (i < n ==> row.id == DefinesEdge(ex.path, SymbolKey(ex.path, ex.symbols[i])))
      && (n <= i < n + m ==> row.id == ImportsEdge(ex.path, Distinct(ex.imports)[i - n]))
      && (n + m <= i ==> UseRow(ex, row))
  {
    var defines, imports := Mapped(DefinesRow(ex.path), ex.symbols), Mapped(ImportsRow(ex.path), Distinct(ex.imports));
    EdgeRowsInThreeParts(ex);
    InThreeParts(defines, imports, UseRows(ex), i);
    if |defines| + |imports| <= i {
      UseRowsAreUses(ex);
    }
  }

  lemma EdgeRowShape(ex: ExtractedFile, i: nat)
    requires i < |EdgeRowsOf(ex)|
    ensures
      var id := EdgeRowsOf(ex)[i].id;
      && id.src == FileNode(ex.path)
      && (id.etype == Defines <==> i < |ex.symbols|)
      && (i < |ex.symbols| ==> id == DefinesEdge(ex.path, SymbolKey(ex.path, ex.symbols[i])))
      && (id.etype == Imports <==> |ex.symbols| <= i < |ex.symbols| + |Distinct(ex.imports)|)
      && (id.etype == Imports ==> id == ImportsEdge(ex.path, Distinct(ex.imports)[i - |ex.symbols|]))
      && Writes(NodeRowsOf(ex), id.src) && Writes(NodeRowsOf(ex), id.dst)
  {
    EdgeRowIs(ex, i);
    FileIsWritten(ex);
    if i < |ex.symbols| {
      SymbolIsWritten(ex, i);
    } else if i < |ex.symbols| + |Distinct(ex.imports)| {
      ModuleIsWritten(ex, i - |ex.symbols|);
    }
  }

  /** The rows behind the defines and the imports: calls, references, injections. */
  function UseRows(ex: ExtractedFile): seq<EdgeRow> {
    Mapped(CallRow(ex.path), Distinct(ex.calls)) + Mapped(NameRow(References, ex.path), Distinct(ex.references))
    + Mapped(NameRow(Injects, ex.path), Distinct(ex.injects))
  }

  lemma EdgeRowsInThreeParts(ex: ExtractedFile)
    ensures EdgeRowsOf(ex) ==
      Mapped(DefinesRow(ex.path), ex.symbols) + Mapped(ImportsRow(ex.path), Distinct(ex.imports)) + UseRows(ex)
  {
  }

  /** An edge of another kind from the file to a node that the file writes. */
  predicate UseRow(ex: ExtractedFile, row: EdgeRow) {
    row.id.src == FileNode(ex.path) && row.id.etype != Defines && row.id.etype != Imports &&
      Writes(NodeRowsOf(ex), row.id.dst)
  }

  ghost predicate AllUses(ex: ExtractedFile, rows: seq<EdgeRow>) {
    forall i :: 0 <= i < |rows| ==> UseRow(ex, rows[i])
  }

  lemma WritesAmid(a: seq<NodeRow>, part: seq<NodeRow>, b: seq<NodeRow>, i: nat)
    requires i < |part|
    ensures Writes(a + part + b, part[i].id)
  {
    assert (a + part + b)[|a| + i] == part[i];
  }

  lemma WritesFirst(row: NodeRow, b: seq<NodeRow>, c: seq<NodeRow>)
    ensures Writes([row] + b + c, row.id)
  {
    assert ([row] + b + c)[0] == row;
  }

  lemma FileIsWritten(ex: ExtractedFile)
    ensures Writes(NodeRowsOf(ex), FileNode(ex.path))
  {
    RowsInThreeParts(ex);
    WritesFirst(FileRow(ex), Mapped(SymbolRow(ex.path), ex.symbols), ForeignRows(ex));
  }

  lemma SymbolIsWritten(ex: ExtractedFile, i: nat)
    requires i < |ex.symbols|
    ensures Writes(NodeRowsOf(ex), SymbolNode(SymbolKey(ex.path, ex.symbols[i])))
  {
    RowsInThreeParts(ex);
    WritesAmid([FileRow(ex)], Mapped(SymbolRow(ex.path), ex.symbols), ForeignRows(ex), i);
  }

  /** The foreign rows part by part, with what stands in front of each. */
  lemma ForeignIsWritten(ex: ExtractedFile, a: seq<NodeRow>, part: seq<NodeRow>, b: seq<NodeRow>, i: nat)
    requires ForeignRows(ex) == a + part + b && i < |part|
    ensures Writes(NodeRowsOf(ex), part[i].id)
  {
    var front := [FileRow(ex)] + Mapped(SymbolRow(ex.path), ex.symbols);
    RowsInThreeParts(ex);
    Flattened(front, a, part, b);
    WritesAmid(front + a, part, b, i);
  }

  lemma Flattened<T>(f: seq<T>, a: seq<T>, p: seq<T>, b: seq<T>)
    ensures f + (a + p + b) == f + a + p + b
  {
  }

  lemma ModuleIsWritten(ex: ExtractedFile, i: nat)
    requires i < |Distinct(ex.imports)|
    ensures Writes(NodeRowsOf(ex), NodeId(Module, Distinct(ex.imports)[i]))
  {
    var m, c := Mapped(ModuleRow, Distinct(ex.imports)), Mapped(CallPlaceholderRow, Distinct(ex.calls));
    var r, j := Mapped(PlaceholderRow, Distinct(ex.references)), Mapped(PlaceholderRow, Distinct(ex.injects));
    assert ForeignRows(ex) == [] + m + (c + r + j);
    assert m[i].id == NodeId(Module, Distinct(ex.imports)[i]);
    ForeignIsWritten(ex, [], m, c + r + j, i);
  }

  lemma PlaceholdersAreWritten(ex: ExtractedFile)
    ensures forall i :: 0 <= i < |Distinct(ex.calls)| ==>
      Writes(NodeRowsOf(ex), SymbolNode(PlaceholderKey(Distinct(ex.calls)[i].name)))
    ensures forall i :: 0 <= i < |Distinct(ex.references)| ==>
      Writes(NodeRowsOf(ex), SymbolNode(PlaceholderKey(Distinct(ex.references)[i])))
    ensures forall i :: 0 <= i < |Distinct(ex.injects)| ==>
      Writes(NodeRowsOf(ex), SymbolNode(PlaceholderKey(Distinct(ex.injects)[i])))
  {
    var m, c := Mapped(ModuleRow, Distinct(ex.imports)), Mapped(CallPlaceholderRow, Distinct(ex.calls));
    var r, j := Mapped(PlaceholderRow, Distinct(ex.references)), Mapped(PlaceholderRow, Distinct(ex.injects));
    assert ForeignRows(ex) == m + c + (r + j) == (m + c) + r + j == (m + c + r) + j + [];
    forall i | 0 <= i < |Distinct(ex.calls)|
      ensures Writes(NodeRowsOf(ex), SymbolNode(PlaceholderKey(Distinct(ex.calls)[i].name)))
    {
      ForeignIsWritten(ex, m, c, r + j, i);
    }
    forall i | 0 <= i < |Distinct(ex.references)|
      ensures Writes(NodeRowsOf(ex), SymbolNode(PlaceholderKey(Distinct(ex.references)[i])))
    {
      ForeignIsWritten(ex, m + c, r, j, i);
    }
    forall i | 0 <= i < |Distinct(ex.injects)|
      ensures Writes(NodeRowsOf(ex), SymbolNode(PlaceholderKey(Distinct(ex.injects)[i])))
    {
      ForeignIsWritten(ex, m + c + r, j, [], i);
    }
  }

  lemma UseRowsAreUses(ex: ExtractedFile)
    ensures AllUses(ex, UseRows(ex))
  {
    PlaceholdersAreWritten(ex);
    var c, r, j := Mapped(CallRow(ex.path), Distinct(ex.calls)),
      Mapped(NameRow(References, ex.path), Distinct(ex.references)),
      Mapped(NameRow(Injects, ex.path), Distinct(ex.injects));
    assert AllUses(ex, c) && AllUses(ex, r) && AllUses(ex, j);
    UsesAppend(ex, c, r);
    UsesAppend(ex, c + r, j);
  }

  lemma UsesAppend(ex: ExtractedFile, a: seq<EdgeRow>, b: seq<EdgeRow>)
    requires AllUses(ex, a) && AllUses(ex, b)
    ensures AllUses(ex, a + b)
  {
  }

  lemma RowsOfDefines(ex: ExtractedFile, path: string, key: string)
    ensures Writes(EdgeRowsOf(ex), DefinesEdge(path, key)) <==> path == ex.path && Declares(ex, key)
  {
    var rows := EdgeRowsOf(ex);
    forall i | 0 <= i < |rows| {
      EdgeRowShape(ex, i);
    }
    if path == ex.path && Declares(ex, key) {
      var i :| 0 <= i < |ex.symbols| && SymbolKey(ex.path, ex.symbols[i]) == key;
      assert rows[i].id == DefinesEdge(path, key);
    }
    if Writes(rows, DefinesEdge(path, key)) {
      var i :| 0 <= i < |rows| && rows[i].id == DefinesEdge(path, key);
      assert SymbolKey(ex.path, ex.symbols[i]) == key;
    }
  }

  lemma RowsOfImports(ex: ExtractedFile, path: string, mod: string)
    ensures Writes(EdgeRowsOf(ex), ImportsEdge(path, mod)) <==> path == ex.path && mod in ex.imports
  {
    var rows, mods := EdgeRowsOf(ex), Distinct(ex.imports);
    DistinctKeepsAll(ex.imports);
    forall i | 0 <= i < |rows| {
      EdgeRowShape(ex, i);
    }
    if path == ex.path && mod in ex.imports {
      var i :| 0 <= i < |mods| && mods[i] == mod;
      EdgeRowShape(ex, |ex.symbols| + i);
      assert rows[|ex.symbols| + i].id == ImportsEdge(path, mod);
    }
  }

  // ---------------------------------------------------------------- the steps

  /** What writing a file leaves of each node and edge. */
  lemma UpsertedFile(g: Graph, ex: ExtractedFile, head: Option<Head>)
    ensures forall id ::
      Lookup(UpsertFile(g, ex, head).nodes, id) == ItemAfter(Lookup(g.nodes, id), NodeRowsOf(ex), id, head)
    ensures forall e ::
      Lookup(UpsertFile(g, ex, head).edges, e) == ItemAfter(Lookup(g.edges, e), EdgeRowsOf(ex), e, head)
  {
    var nodeRows, edgeRows := NodeRowsOf(ex), EdgeRowsOf(ex);
    var g1 := UpsertNodes(g, nodeRows, head);
    forall id {
      NodeAfterBatch(g, nodeRows, head, id);
    }
    forall i | 0 <= i < |edgeRows|
      ensures edgeRows[i].id.src in g1.nodes && edgeRows[i].id.dst in g1.nodes
    {
      EdgeRowShape(ex, i);
      TouchedItem(Lookup(g.nodes, edgeRows[i].id.src), nodeRows, edgeRows[i].id.src, head);
      TouchedItem(Lookup(g.nodes, edgeRows[i].id.dst), nodeRows, edgeRows[i].id.dst, head);
    }
    forall e {
      EdgeAfterBatch(g1, edgeRows, head, e);
    }
    EdgeAfterBatch(g1, edgeRows, head, DefinesEdge("", ""));
  }

  /** A node that the file writes is touched; any other is as before. */
  lemma NodeAfterWrite(g: Graph, ex: ExtractedFile, head: Option<Head>, id: NodeId)
    ensures
      var before, after := Lookup(g.nodes, id), Lookup(UpsertFile(g, ex, head).nodes, id);
      if Writes(NodeRowsOf(ex), id) then after.Some? && after.value.life == Touch(LifeOf(before), head)
      else after == before
  {
    UpsertedFile(g, ex, head);
    TouchedOrNot(Lookup(g.nodes, id), NodeRowsOf(ex), id, head);
  }

  lemma DeleteKeepsFiles(g: Graph, last: History, path: string, h: Head, now: int)
    requires FilesAgree(g, last)
    ensures FilesAgree(DeleteFile(g, path, Some(h), now), last - {path})
  {
    var g' := DeleteFile(g, path, Some(h), now);
    forall p
      ensures LiveNode(g', FileNode(p)) <==> p in last - {path}
    {
      assert LiveNode(g, FileNode(p)) <==> p in last;
    }
  }

  lemma DeleteKeepsSymbols(g: Graph, last: History, path: string, h: Head, now: int)
    requires SymbolsAgree(g, last) && DefinesAgree(g, last)
    ensures SymbolsAgree(DeleteFile(g, path, Some(h), now), last - {path})
  {
    var g', last' := DeleteFile(g, path, Some(h), now), last - {path};
    forall k | FileScoped(k)
      ensures LiveNode(g', SymbolNode(k)) <==> Keeps(last', k)
      ensures SymbolNode(k) in g'.nodes ==> UnresolvedP !in g'.nodes[SymbolNode(k)].props
      ensures Keeps(last', k) && SymbolNode(k) in g'.nodes ==>
        && Describes(g'.nodes[SymbolNode(k)], Declaration(last'[Owner(k)], k))
        && Prop(g'.nodes[SymbolNode(k)], FileP) == Some(Text(Owner(k)))
    {
      if Keeps(last, k) {
        assert LiveEdge(g, DefinesEdge(Owner(k), k));
      }
      if DefinesEdge(path, k) in g.edges {
        assert path == Owner(k);
      }
    }
  }

  lemma DeleteKeepsEdges(g: Graph, last: History, path: string, h: Head, now: int)
    requires FilesAgree(g, last) && DefinesAgree(g, last) && ImportsAgree(g, last)
    ensures DefinesAgree(DeleteFile(g, path, Some(h), now), last - {path})
    ensures ImportsAgree(DeleteFile(g, path, Some(h), now), last - {path})
  {
    var g', last' := DeleteFile(g, path, Some(h), now), last - {path};
    assert g'.edges.Keys == g.edges.Keys;
    forall k | FileScoped(k) && Keeps(last', k)
      ensures LiveEdge(g', DefinesEdge(Owner(k), k))
    {
      assert Keeps(last, k);
      assert LiveEdge(g, DefinesEdge(Owner(k), k));
    }
    forall p, m
      ensures LiveEdge(g', ImportsEdge(p, m)) <==> p in last' && m in last'[p].imports
    {
      assert LiveEdge(g, ImportsEdge(p, m)) <==> p in last && m in last[p].imports;
      assert LiveNode(g, FileNode(path)) <==> path in last;
    }
  }

  lemma DeleteKeepsUses(g: Graph, last: History, path: string, h: Head, now: int)
    requires FilesAgree(g, last) && UsesAgree(g, last)
    ensures UsesAgree(DeleteFile(g, path, Some(h), now), last - {path})
  {
    forall e: EdgeId | IsUse(e.etype)
      ensures UseAgrees(DeleteFile(g, path, Some(h), now), last - {path}, e)
    {
      assert UseAgrees(g, last, e);
      assert LiveNode(g, FileNode(path)) <==> path in last;
    }
  }

  lemma DeleteKeepsNodes(g: Graph, last: History, path: string, h: Head, now: int)
    requires FilesDescribed(g, last) && PlaceholdersStand(g)
    ensures FilesDescribed(DeleteFile(g, path, Some(h), now), last - {path})
    ensures PlaceholdersStand(DeleteFile(g, path, Some(h), now))
  {
  }

  lemma DeleteKeeps(g: Graph, last: History, path: string, h: Head, now: int)
    requires Refines(g, last)
    ensures Refines(DeleteFile(g, path, Some(h), now), last - {path})
  {
    DeleteKeepsFiles(g, last, path, h, now);
    DeleteKeepsSymbols(g, last, path, h, now);
    DeleteKeepsEdges(g, last, path, h, now);
    DeleteKeepsUses(g, last, path, h, now);
    DeleteKeepsNodes(g, last, path, h, now);
  }

  lemma WriteKeepsFiles(g: Graph, last: History, ex: ExtractedFile, h: Head)
    requires FilesAgree(g, last)
    ensures FilesAgree(UpsertFile(g, ex, Some(h)), last[ex.path := ex])
  {
    var g' := UpsertFile(g, ex, Some(h));
    forall p
      ensures LiveNode(g', FileNode(p)) <==> p in last[ex.path := ex]
    {
      RowsOfFile(ex, p);
      NodeAfterWrite(g, ex, Some(h), FileNode(p));
      assert LiveNode(g, FileNode(p)) <==> p in last;
    }
  }

  function PropOf(item: Option<Item>, name: PropName): Option<Value> {
    if item.Some? then Prop(item.value, name) else None
  }

  /** What the last declaration that sets a property says of it, the node says afterwards. */
  lemma WrittenProp(g: Graph, ex: ExtractedFile, head: Option<Head>, key: string, name: PropName, i: nat)
    requires Owner(key) != "name" && i < |ex.symbols| && SymbolKey(ex.path, ex.symbols[i]) == key
    requires Said(ex.path, ex.symbols[i], name).Some?
    requires forall j :: i < j < |ex.symbols| && SymbolKey(ex.path, ex.symbols[j]) == key ==>
      Said(ex.path, ex.symbols[j], name).None?
    ensures SymbolNode(key) in UpsertFile(g, ex, head).nodes
    ensures Prop(UpsertFile(g, ex, head).nodes[SymbolNode(key)], name) == Said(ex.path, ex.symbols[i], name)
  {
    var rows, id := NodeRowsOf(ex), SymbolNode(key);
    RowsInThreeParts(ex);
    NodeRowShape(ex, i + 1);
    SymbolPropsSay(ex.path, ex.symbols[i], name);
    forall j | i + 1 < j < |rows| && rows[j].id == id
      ensures name !in rows[j].props
    {
      NodeRowShape(ex, j);
      SymbolPropsSay(ex.path, ex.symbols[j - 1], name);
    }
    LastSetting(Lookup(g.nodes, id), rows, id, head, name, i + 1);
    UpsertedFile(g, ex, head);
    assert Lookup(UpsertFile(g, ex, head).nodes, id) == ItemAfter(Lookup(g.nodes, id), rows, id, head);
  }

  /** A property that no declaration of the symbol sets stays as it is, whoever set it. */
  lemma KeptProp(g: Graph, ex: ExtractedFile, head: Option<Head>, key: string, name: PropName)
    requires Owner(key) != "name"
    requires forall j :: 0 <= j < |ex.symbols| && SymbolKey(ex.path, ex.symbols[j]) == key ==>
      Said(ex.path, ex.symbols[j], name).None?
    ensures PropOf(Lookup(UpsertFile(g, ex, head).nodes, SymbolNode(key)), name)
      == PropOf(Lookup(g.nodes, SymbolNode(key)), name)
  {
    var rows, id := NodeRowsOf(ex), SymbolNode(key);
    forall j | 0 <= j < |rows| && rows[j].id == id
      ensures name !in rows[j].props
    {
      NodeRowShape(ex, j);
      SymbolPropsSay(ex.path, ex.symbols[j - 1], name);
    }
    NeverSet(Lookup(g.nodes, id), rows, id, head, name);
    UpsertedFile(g, ex, head);
    assert Lookup(UpsertFile(g, ex, head).nodes, id) == ItemAfter(Lookup(g.nodes, id), rows, id, head);
  }

  /** No declaration makes a symbol unresolved. */
  lemma StaysResolved(g: Graph, ex: ExtractedFile, head: Option<Head>, key: string)
    requires Owner(key) != "name"
    ensures PropOf(Lookup(UpsertFile(g, ex, head).nodes, SymbolNode(key)), UnresolvedP)
      == PropOf(Lookup(g.nodes, SymbolNode(key)), UnresolvedP)
  {
    KeptProp(g, ex, head, key, UnresolvedP);
  }

  /** A symbol node after a write: as it was, or touched and described by the file's declaration. */
  lemma WrittenSymbol(g: Graph, ex: ExtractedFile, h: Head, key: string)
    requires Owner(key) != "name"
    requires SymbolNode(key) in g.nodes ==> UnresolvedP !in g.nodes[SymbolNode(key)].props
    ensures
      var before, after := Lookup(g.nodes, SymbolNode(key)), Lookup(UpsertFile(g, ex, Some(h)).nodes, SymbolNode(key));
      if Declares(ex, key) then
        && after.Some? && after.value.life == Touch(LifeOf(before), Some(h))
        && Describes(after.value, Declaration(ex, key)) && Prop(after.value, FileP) == Some(Text(ex.path))
        && UnresolvedP !in after.value.props
      else after == before
  {
    WritesIffDeclares(ex, key);
    NodeAfterWrite(g, ex, Some(h), SymbolNode(key));
    if Declares(ex, key) {
      DeclaredSymbol(g, ex, h, key);
      StaysResolved(g, ex, Some(h), key);
    }
  }

  lemma DeclaredSymbol(g: Graph, ex: ExtractedFile, h: Head, key: string)
    requires Owner(key) != "name" && Declares(ex, key)
    ensures
      var after := Lookup(UpsertFile(g, ex, Some(h)).nodes, SymbolNode(key));
      && after.Some? && Describes(after.value, Declaration(ex, key))
      && Prop(after.value, FileP) == Some(Text(ex.path))
  {
    var i := LastIndex(ex, key);
    forall name | Said(ex.path, ex.symbols[i], name).Some?
      ensures PropOf(Lookup(UpsertFile(g, ex, Some(h)).nodes, SymbolNode(key)), name)
        == Said(ex.path, ex.symbols[i], name)
    {
      WrittenProp(g, ex, Some(h), key, name, i);
    }
    AllSaid(Lookup(UpsertFile(g, ex, Some(h)).nodes, SymbolNode(key)), ex.path, ex.symbols[i]);
  }

  lemma AllSaid(item: Option<Item>, path: string, s: Sym)
    requires forall name :: Said(path, s, name).Some? ==> PropOf(item, name) == Said(path, s, name)
    ensures item.Some? && Describes(item.value, s) && Prop(item.value, FileP) == Some(Text(path))
  {
    assert Said(path, s, NameP).Some? && Said(path, s, KindP).Some? && Said(path, s, StartP).Some?;
    assert Said(path, s, EndP).Some? && Said(path, s, FileP).Some?;
    assert Said(path, s, NamespaceP).Some? <==> s.namespace.GetOr("") != "";
    assert Said(path, s, PartialP).Some? <==> s.partial;
    assert Said(path, s, ParamsP).Some? <==> s.paramCount.Some?;
  }

  lemma WriteKeepsSymbols(g: Graph, last: History, ex: ExtractedFile, h: Head)
    requires GoodPath(ex.path) && ex.path !in last
    requires SymbolsAgree(g, last)
    ensures SymbolsAgree(UpsertFile(g, ex, Some(h)), last[ex.path := ex])
  {
    forall k | FileScoped(k)
      ensures SymbolAgrees(UpsertFile(g, ex, Some(h)), last[ex.path := ex], k)
    {
      WriteKeepsSymbol(g, last, ex, h, k);
    }
  }

  /** What `SymbolsAgree` says of one key. */
  ghost predicate SymbolAgrees(g: Graph, last: History, k: string) {
    && (LiveNode(g, SymbolNode(k)) <==> Keeps(last, k))
    && (SymbolNode(k) in g.nodes ==> UnresolvedP !in g.nodes[SymbolNode(k)].props)
    && (Keeps(last, k) && SymbolNode(k) in g.nodes ==>
        && Describes(g.nodes[SymbolNode(k)], Declaration(last[Owner(k)], k))
        && Prop(g.nodes[SymbolNode(k)], FileP) == Some(Text(Owner(k))))
  }

  lemma WriteKeepsSymbol(g: Graph, last: History, ex: ExtractedFile, h: Head, k: string)
    requires GoodPath(ex.path) && ex.path !in last && FileScoped(k) && SymbolAgrees(g, last, k)
    ensures SymbolAgrees(UpsertFile(g, ex, Some(h)), last[ex.path := ex], k)
  {
    WrittenSymbol(g, ex, h, k);
    if Declares(ex, k) {
      OwnerOfSymbolKey(ex.path, Declaration(ex, k));
      DeclaredSymbolAgrees(UpsertFile(g, ex, Some(h)), last, ex, k);
    } else {
      OtherSymbolAgrees(g, UpsertFile(g, ex, Some(h)), last, ex, k);
    }
  }

  lemma DeclaredSymbolAgrees(g': Graph, last: History, ex: ExtractedFile, k: string)
    requires Declares(ex, k) && Owner(k) == ex.path && LiveNode(g', SymbolNode(k))
    requires Describes(g'.nodes[SymbolNode(k)], Declaration(ex, k))
    requires Prop(g'.nodes[SymbolNode(k)], FileP) == Some(Text(ex.path))
    requires UnresolvedP !in g'.nodes[SymbolNode(k)].props
    ensures SymbolAgrees(g', last[ex.path := ex], k)
  {
  }

  lemma OtherSymbolAgrees(g: Graph, g': Graph, last: History, ex: ExtractedFile, k: string)
    requires ex.path !in last && !Declares(ex, k) && SymbolAgrees(g, last, k)
    requires Lookup(g'.nodes, SymbolNode(k)) == Lookup(g.nodes, SymbolNode(k))
    ensures SymbolAgrees(g', last[ex.path := ex], k)
  {
  }

  lemma WriteKeepsEdges(g: Graph, last: History, ex: ExtractedFile, h: Head)
    requires GoodPath(ex.path) && ex.path !in last
    requires DefinesAgree(g, last) && ImportsAgree(g, last)
    ensures DefinesAgree(UpsertFile(g, ex, Some(h)), last[ex.path := ex])
    ensures ImportsAgree(UpsertFile(g, ex, Some(h)), last[ex.path := ex])
  {
    forall e
      ensures EdgeWritten(g, UpsertFile(g, ex, Some(h)), ex, e)
    {
      EdgeAfterWrite(g, ex, h, e);
    }
    WriteKeepsDefines(g, UpsertFile(g, ex, Some(h)), last, ex);
    WriteKeepsImports(g, UpsertFile(g, ex, Some(h)), last, ex);
  }

  /** An edge that the file writes is alive; any other is as before. */
  predicate EdgeWritten(g: Graph, g': Graph, ex: ExtractedFile, e: EdgeId) {
    if Writes(EdgeRowsOf(ex), e) then LiveEdge(g', e) else Lookup(g'.edges, e) == Lookup(g.edges, e)
  }

  lemma EdgeAfterWrite(g: Graph, ex: ExtractedFile, h: Head, e: EdgeId)
    ensures EdgeWritten(g, UpsertFile(g, ex, Some(h)), ex, e)
  {
    var rows := EdgeRowsOf(ex);
    UpsertedFile(g, ex, Some(h));
    assert Lookup(UpsertFile(g, ex, Some(h)).edges, e) == ItemAfter(Lookup(g.edges, e), rows, e, Some(h));
    if Writes(rows, e) {
      TouchedItem(Lookup(g.edges, e), rows, e, Some(h));
    } else {
      UntouchedItem(Lookup(g.edges, e), rows, e, Some(h));
    }
  }

  lemma WriteKeepsDefines(g: Graph, g': Graph, last: History, ex: ExtractedFile)
    requires GoodPath(ex.path) && ex.path !in last && DefinesAgree(g, last)
    requires forall e :: EdgeWritten(g, g', ex, e)
    ensures DefinesAgree(g', last[ex.path := ex])
  {
    forall p, k | FileScoped(k) && DefinesEdge(p, k) in g'.edges
      ensures p == Owner(k)
    {
      assert EdgeWritten(g, g', ex, DefinesEdge(p, k));
      RowsOfDefines(ex, p, k);
      if Declares(ex, k) {
        OwnerOfSymbolKey(ex.path, Declaration(ex, k));
      }
    }
    forall k | FileScoped(k) && Keeps(last[ex.path := ex], k)
      ensures LiveEdge(g', DefinesEdge(Owner(k), k))
    {
      assert EdgeWritten(g, g', ex, DefinesEdge(Owner(k), k));
      RowsOfDefines(ex, Owner(k), k);
    }
  }

  lemma WriteKeepsImports(g: Graph, g': Graph, last: History, ex: ExtractedFile)
    requires ex.path !in last && ImportsAgree(g, last)
    requires forall e :: EdgeWritten(g, g', ex, e)
    ensures ImportsAgree(g', last[ex.path := ex])
  {
    forall p, m
      ensures LiveEdge(g', ImportsEdge(p, m)) <==> p in last[ex.path := ex] && m in last[ex.path := ex][p].imports
    {
      assert EdgeWritten(g, g', ex, ImportsEdge(p, m));
      RowsOfImports(ex, p, m);
      assert LiveEdge(g, ImportsEdge(p, m)) <==> p in last && m in last[p].imports;
    }
  }

  lemma EdgeItemAfterWrite(g: Graph, ex: ExtractedFile, h: Head, e: EdgeId)
    ensures Lookup(UpsertFile(g, ex, Some(h)).edges, e) == ItemAfter(Lookup(g.edges, e), EdgeRowsOf(ex), e, Some(h))
  {
    UpsertedFile(g, ex, Some(h));
  }

  lemma WrittenUse(before: Option<Item>, ex: ExtractedFile, h: Head, e: EdgeId)
    requires IsUse(e.etype) && UseOf(ex, e)
    ensures
      var after := ItemAfter(before, EdgeRowsOf(ex), e, Some(h));
      after.Some? && UseDescribed(after.value, ex, e.etype, e.dst.key[6..])
  {
    UnresolvedAfter(before, ex, e, Some(h));
    UseEdgeIs(e);
    if e.etype == Calls {
      CallIsDescribed(before, ex, h, e.dst.key[6..]);
    }
  }

  lemma CallIsDescribed(before: Option<Item>, ex: ExtractedFile, h: Head, name: string)
    ensures
      var after := ItemAfter(before, EdgeRowsOf(ex), UseEdge(Calls, ex.path, name), Some(h));
      after.Some? ==> CallDescribed(after.value, ex.calls, name)
  {
    var after := ItemAfter(before, EdgeRowsOf(ex), UseEdge(Calls, ex.path, name), Some(h));
    forall i: nat | Decides(ex.calls, name, AnyCall, i)
      ensures after.Some? && Prop(after.value, ArgsP) == Some(Number(ex.calls[i].arity))
    {
      CallEdgeAfter(before, ex, name, Some(h), i);
    }
    forall i: nat | Decides(ex.calls, name, Receives, i)
      ensures after.Some? && Prop(after.value, ReceiverTypeP) == Some(Text(ex.calls[i].receiverType.value))
    {
      ReceiverAfter(before, ex, name, Some(h), i);
    }
  }

  lemma WriteKeepsUse(g: Graph, last: History, ex: ExtractedFile, h: Head, e: EdgeId)
    requires ex.path !in last && IsUse(e.etype) && UseAgrees(g, last, e)
    ensures UseAgrees(UpsertFile(g, ex, Some(h)), last[ex.path := ex], e)
  {
    RowsOfUses(ex, e);
    EdgeAfterWrite(g, ex, h, e);
    NodeAfterWrite(g, ex, Some(h), e.dst);
    if UseOf(ex, e) {
      EdgeItemAfterWrite(g, ex, h, e);
      WrittenUse(Lookup(g.edges, e), ex, h, e);
      UseTargetIsWritten(ex, e);
      WrittenUseAgrees(UpsertFile(g, ex, Some(h)), last, ex, e);
    } else {
      OtherUseAgrees(g, UpsertFile(g, ex, Some(h)), last, ex, e);
    }
  }

  lemma WrittenUseAgrees(g': Graph, last: History, ex: ExtractedFile, e: EdgeId)
    requires IsUse(e.etype) && UseOf(ex, e) && LiveEdge(g', e) && e.dst in g'.nodes
    requires UseDescribed(g'.edges[e], ex, e.etype, e.dst.key[6..])
    ensures UseAgrees(g', last[ex.path := ex], e)
  {
  }

  lemma OtherUseAgrees(g: Graph, g': Graph, last: History, ex: ExtractedFile, e: EdgeId)
    requires ex.path !in last && !UseOf(ex, e) && UseAgrees(g, last, e)
    requires Lookup(g'.edges, e) == Lookup(g.edges, e) && (e.dst in g.nodes ==> e.dst in g'.nodes)
    ensures UseAgrees(g', last[ex.path := ex], e)
  {
  }

  lemma UseTargetIsWritten(ex: ExtractedFile, e: EdgeId)
    requires Writes(EdgeRowsOf(ex), e)
    ensures Writes(NodeRowsOf(ex), e.dst)
  {
    var i :| 0 <= i < |EdgeRowsOf(ex)| && EdgeRowsOf(ex)[i].id == e;
    EdgeRowShape(ex, i);
  }

  lemma WriteKeepsUses(g: Graph, last: History, ex: ExtractedFile, h: Head)
    requires ex.path !in last && UsesAgree(g, last)
    ensures UsesAgree(UpsertFile(g, ex, Some(h)), last[ex.path := ex])
  {
    forall e: EdgeId | IsUse(e.etype)
      ensures UseAgrees(UpsertFile(g, ex, Some(h)), last[ex.path := ex], e)
    {
      assert UseAgrees(g, last, e);
      WriteKeepsUse(g, last, ex, h, e);
    }
  }

  /** Every row of a placeholder is one that placeholds. */
  lemma PlaceholderRowsOnly(ex: ExtractedFile, k: string, i: nat)
    requires GoodPath(ex.path) && "name::" <= k && i < |NodeRowsOf(ex)| && NodeRowsOf(ex)[i].id == SymbolNode(k)
    ensures Placeholds(NodeRowsOf(ex)[i])
  {
    NodeRowShape(ex, i);
    assert k == PlaceholderKey(k[6..]);
    OwnerOfPlaceholder(k[6..]);
    if 1 <= i <= |ex.symbols| {
      OwnerOfSymbolKey(ex.path, ex.symbols[i - 1]);
    }
  }

  lemma WrittenPlaceholder(before: Option<Item>, ex: ExtractedFile, h: Head, k: string)
    requires GoodPath(ex.path) && "name::" <= k && Writes(NodeRowsOf(ex), SymbolNode(k))
    ensures
      var after := ItemAfter(before, NodeRowsOf(ex), SymbolNode(k), Some(h));
      after.Some? && Stands(after.value, k[6..])
  {
    var rows, id := NodeRowsOf(ex), SymbolNode(k);
    var i := LastRow(rows, id);
    PlaceholderRowsOnly(ex, k, i);
    LastSetting(before, rows, id, Some(h), NameP, i);
    LastSetting(before, rows, id, Some(h), UnresolvedP, i);
    TouchedItem(before, rows, id, Some(h));
  }

  lemma WriteKeepsPlaceholders(g: Graph, ex: ExtractedFile, h: Head)
    requires GoodPath(ex.path) && PlaceholdersStand(g)
    ensures PlaceholdersStand(UpsertFile(g, ex, Some(h)))
  {
    var g' := UpsertFile(g, ex, Some(h));
    forall k | "name::" <= k && SymbolNode(k) in g'.nodes
      ensures Stands(g'.nodes[SymbolNode(k)], k[6..])
    {
      NodeAfterWrite(g, ex, Some(h), SymbolNode(k));
      if Writes(NodeRowsOf(ex), SymbolNode(k)) {
        WrittenPlaceholder(Lookup(g.nodes, SymbolNode(k)), ex, h, k);
        NodeItemAfterWrite(g, ex, h, SymbolNode(k));
      }
    }
  }

  lemma NodeItemAfterWrite(g: Graph, ex: ExtractedFile, h: Head, id: NodeId)
    ensures Lookup(UpsertFile(g, ex, Some(h)).nodes, id) == ItemAfter(Lookup(g.nodes, id), NodeRowsOf(ex), id, Some(h))
  {
    UpsertedFile(g, ex, Some(h));
  }

  /** The file's own node has the language and the flag that the extraction gives. */
  lemma WrittenFile(before: Option<Item>, ex: ExtractedFile, h: Head)
    ensures
      var after := ItemAfter(before, NodeRowsOf(ex), FileNode(ex.path), Some(h));
      after.Some? && FileDescribed(after.value, ex)
  {
    var rows, id := NodeRowsOf(ex), FileNode(ex.path);
    forall i | 0 <= i < |rows| {
      NodeRowShape(ex, i);
    }
    assert rows[0] == FileRow(ex);
    LastSetting(before, rows, id, Some(h), LangP, 0);
    LastSetting(before, rows, id, Some(h), GeneratedP, 0);
  }

  lemma WriteKeepsFileProps(g: Graph, last: History, ex: ExtractedFile, h: Head)
    requires FilesDescribed(g, last)
    ensures FilesDescribed(UpsertFile(g, ex, Some(h)), last[ex.path := ex])
  {
    var g', last' := UpsertFile(g, ex, Some(h)), last[ex.path := ex];
    forall p | p in last' && FileNode(p) in g'.nodes
      ensures FileDescribed(g'.nodes[FileNode(p)], last'[p])
    {
      RowsOfFile(ex, p);
      NodeAfterWrite(g, ex, Some(h), FileNode(p));
      if p == ex.path {
        WrittenFile(Lookup(g.nodes, FileNode(p)), ex, h);
        NodeItemAfterWrite(g, ex, h, FileNode(p));
      }
    }
  }

  lemma WriteKeepsCarried(g: Graph, last: History, ex: ExtractedFile, h: Head)
    requires GoodPath(ex.path) && ex.path !in last
    requires FilesDescribed(g, last) && UsesAgree(g, last) && PlaceholdersStand(g)
    ensures FilesDescribed(UpsertFile(g, ex, Some(h)), last[ex.path := ex])
    ensures UsesAgree(UpsertFile(g, ex, Some(h)), last[ex.path := ex])
    ensures PlaceholdersStand(UpsertFile(g, ex, Some(h)))
  {
    WriteKeepsFileProps(g, last, ex, h);
    WriteKeepsUses(g, last, ex, h);
    WriteKeepsPlaceholders(g, ex, h);
  }

  lemma WriteKeeps(g: Graph, last: History, ex: ExtractedFile, h: Head)
    requires GoodPath(ex.path) && ex.path !in last
    requires Refines(g, last)
    ensures Refines(UpsertFile(g, ex, Some(h)), last[ex.path := ex])
  {
    WriteKeepsFiles(g, last, ex, h);
    WriteKeepsSymbols(g, last, ex, h);
    WriteKeepsEdges(g, last, ex, h);
    WriteKeepsCarried(g, last, ex, h);
  }

  lemma RewriteKeeps(g: Graph, last: History, ex: ExtractedFile, h: Head)
    requires GoodPath(ex.path) && Refines(g, last - {ex.path})
    ensures Refines(UpsertFile(g, ex, Some(h)), last[ex.path := ex])
  {
    PutBack(last, ex);
    WriteKeeps(g, last - {ex.path}, ex, h);
  }

  lemma PutBack(last: History, ex: ExtractedFile)
    ensures (last - {ex.path})[ex.path := ex] == last[ex.path := ex] && ex.path !in last - {ex.path}
  {
  }

  lemma ReingestKeeps(g: Graph, last: History, ex: ExtractedFile, h: Head, now: int)
    requires Refines(g, last) && GoodPath(ex.path)
    ensures Refines(Reingested(g, ex, Some(h), now), last[ex.path := ex])
  {
    DeleteKeeps(g, last, ex.path, h, now);
    RewriteKeeps(DeleteFile(g, ex.path, Some(h), now), last, ex, h);
  }

  /** Only tombstones are collected. */
  lemma VacuumKeepsNode(g: Graph, policy: Policy, id: NodeId)
    ensures LiveNode(Vacuum(g, policy), id) <==> LiveNode(g, id)
    ensures LiveNode(g, id) ==> Vacuum(g, policy).nodes[id] == g.nodes[id]
  {
  }

  lemma VacuumKeepsEdge(g: Graph, policy: Policy, e: EdgeId)
    ensures LiveEdge(Vacuum(g, policy), e) ==> LiveEdge(g, e)
    ensures LiveEdge(g, e) && LiveNode(g, e.src) && (LiveNode(g, e.dst) || e.dst.tag == Module) ==>
      LiveEdge(Vacuum(g, policy), e)
  {
  }

  lemma VacuumKeepsFiles(g: Graph, last: History, policy: Policy)
    requires FilesAgree(g, last)
    ensures FilesAgree(Vacuum(g, policy), last)
  {
    forall p
      ensures LiveNode(Vacuum(g, policy), FileNode(p)) <==> p in last
    {
      VacuumKeepsNode(g, policy, FileNode(p));
    }
  }

  lemma VacuumKeepsSymbols(g: Graph, last: History, policy: Policy)
    requires SymbolsAgree(g, last)
    ensures SymbolsAgree(Vacuum(g, policy), last)
  {
    forall k | FileScoped(k)
      ensures SymbolAgrees(Vacuum(g, policy), last, k)
    {
      assert SymbolAgrees(g, last, k);
      VacuumKeepsNode(g, policy, SymbolNode(k));
    }
  }

  lemma VacuumKeepsDefines(g: Graph, last: History, policy: Policy)
    requires FilesAgree(g, last) && SymbolsAgree(g, last) && DefinesAgree(g, last)
    ensures DefinesAgree(Vacuum(g, policy), last)
  {
    forall k | FileScoped(k) && Keeps(last, k)
      ensures LiveEdge(Vacuum(g, policy), DefinesEdge(Owner(k), k))
    {
      assert SymbolAgrees(g, last, k) && LiveNode(g, FileNode(Owner(k)));
      VacuumKeepsEdge(g, policy, DefinesEdge(Owner(k), k));
    }
  }

  lemma VacuumKeepsImports(g: Graph, last: History, policy: Policy)
    requires FilesAgree(g, last) && ImportsAgree(g, last)
    ensures ImportsAgree(Vacuum(g, policy), last)
  {
    forall p, m
      ensures LiveEdge(Vacuum(g, policy), ImportsEdge(p, m)) <==> p in last && m in last[p].imports
    {
      assert LiveEdge(g, ImportsEdge(p, m)) ==> LiveNode(g, FileNode(p));
      VacuumKeepsEdge(g, policy, ImportsEdge(p, m));
    }
  }

  lemma VacuumKeepsUses(g: Graph, last: History, policy: Policy)
    requires FilesAgree(g, last) && UsesAgree(g, last) && PlaceholdersStand(g)
    ensures UsesAgree(Vacuum(g, policy), last)
  {
    forall e: EdgeId | IsUse(e.etype)
      ensures UseAgrees(Vacuum(g, policy), last, e)
    {
      assert UseAgrees(g, last, e);
      VacuumKeepsEdge(g, policy, e);
      if RecordedUse(last, e) {
        assert LiveNode(g, FileNode(e.src.key));
        assert Stands(g.nodes[SymbolNode(e.dst.key)], e.dst.key[6..]);
        VacuumKeepsNode(g, policy, e.dst);
      }
    }
  }

  lemma VacuumKeepsProps(g: Graph, last: History, policy: Policy)
    requires FilesDescribed(g, last) && PlaceholdersStand(g)
    ensures FilesDescribed(Vacuum(g, policy), last) && PlaceholdersStand(Vacuum(g, policy))
  {
  }

  lemma VacuumKeeps(g: Graph, last: History, policy: Policy)
    requires Refines(g, last)
    ensures Refines(Vacuum(g, policy), last)
  {
    VacuumKeepsFiles(g, last, policy);
    VacuumKeepsSymbols(g, last, policy);
    VacuumKeepsDefines(g, last, policy);
    VacuumKeepsImports(g, last, policy);
    VacuumKeepsUses(g, last, policy);
    VacuumKeepsProps(g, last, policy);
  }

  lemma SweepKeepsUses(g: Graph, last: History, h: Head, now: int)
    requires UsesAgree(g, last)
    ensures UsesAgree(Sweep(g, Layer, h, now), last)
  {
    forall e: EdgeId | IsUse(e.etype)
      ensures UseAgrees(Sweep(g, Layer, h, now), last, e)
    {
      assert UseAgrees(g, last, e);
    }
  }

  lemma SweepKeeps(g: Graph, last: History, h: Head, now: int)
    requires Refines(g, last)
    ensures Refines(Sweep(g, Layer, h, now), last)
  {
    var g' := Sweep(g, Layer, h, now);
    SweepKeepsUses(g, last, h, now);
    assert g'.edges == g.edges;
    assert forall id: NodeId :: id.tag != Layer ==> Lookup(g'.nodes, id) == Lookup(g.nodes, id);
    assert forall p :: LiveNode(g, FileNode(p)) <==> LiveNode(g', FileNode(p));
    assert forall k :: LiveNode(g, SymbolNode(k)) <==> LiveNode(g', SymbolNode(k));
    assert forall e :: LiveEdge(g, e) <==> LiveEdge(g', e);
  }

  lemma StepKeeps(g: Graph, last: History, step: Step)
    requires Refines(g, last) && GoodStep(step)
    ensures Refines(Apply(g, step), Remember(last, step))
  {
    match step
    case Reingest(ex, h, now) => ReingestKeeps(g, last, ex, h, now);
    case Delete(path, h, now) => DeleteKeeps(g, last, path, h, now);
    case Collect(policy) => VacuumKeeps(g, last, policy);
    case SweepLayers(h, now) => SweepKeeps(g, last, h, now);
  }

  lemma {:induction false} RunRefines(steps: seq<Step>)
    requires GoodRun(steps)
    ensures Refines(Run(steps), HistoryOf(steps))
  {
    if steps != [] {
      var n := |steps| - 1;
      RunRefines(steps[..n]);
      StepKeeps(Run(steps[..n]), HistoryOf(steps[..n]), steps[n]);
    }
  }

  // ---------------------------------------------------------------- what the queries answer

  /** The file-scoped symbols called `name` in a history, each as the DEFINES edge that carries it. */
  predicate Recorded(last: History, name: string, e: EdgeId) {
    && e.etype == Defines && e.src.tag == File && e.dst.tag == Symbol
    && FileScoped(e.dst.key) && e.src.key == Owner(e.dst.key)
    && Keeps(last, e.dst.key) && Declaration(last[e.src.key], e.dst.key).name == name
  }

  function RecordedRow(last: History, name: string, e: EdgeId): DefinitionRow
    requires Recorded(last, name, e)
  {
    var s := Declaration(last[e.src.key], e.dst.key);
    DefinitionRow(e.src.key, Some(Number(s.startLine)), Some(Number(s.endLine)), Some(Text(s.kind)))
  }

  lemma DefinitionsFromRefinement(g: Graph, last: History, name: string)
    requires Refines(g, last)
    ensures forall e: EdgeId :: FileScoped(e.dst.key) ==> (e in Definitions(g, name) <==> Recorded(last, name, e))
    ensures forall e :: Recorded(last, name, e) ==>
      e in Definitions(g, name) && Definitions(g, name)[e] == RecordedRow(last, name, e)
  {
    forall e: EdgeId | FileScoped(e.dst.key)
      ensures e in Definitions(g, name) <==> Recorded(last, name, e)
      ensures Recorded(last, name, e) ==> Definitions(g, name)[e] == RecordedRow(last, name, e)
    {
      var k := e.dst.key;
      assert LiveNode(g, SymbolNode(k)) <==> Keeps(last, k);
      if Recorded(last, name, e) {
        assert LiveEdge(g, DefinesEdge(Owner(k), k)) && LiveNode(g, FileNode(Owner(k)));
        assert e == DefinesEdge(Owner(k), k);
      }
      if e in Definitions(g, name) {
        assert e == DefinesEdge(e.src.key, k);
        assert Describes(g.nodes[e.dst], Declaration(last[Owner(k)], k));
      }
    }
  }

  /** Over every run of stamped steps, `definitions(name)` lists exactly the
      file-scoped symbols of that name in the last extractions, with the
      coordinates that the last extraction gave. */
  lemma DefinitionsAreCurrent(steps: seq<Step>, name: string)
    requires GoodRun(steps)
    ensures forall e: EdgeId :: FileScoped(e.dst.key) ==>
      (e in Definitions(Run(steps), name) <==> Recorded(HistoryOf(steps), name, e))
    ensures forall e :: Recorded(HistoryOf(steps), name, e) ==>
      && e in Definitions(Run(steps), name)
      && Definitions(Run(steps), name)[e] == RecordedRow(HistoryOf(steps), name, e)
  {
    RunRefines(steps);
    DefinitionsFromRefinement(Run(steps), HistoryOf(steps), name);
  }

  /** `importers(mod)` lists exactly the files whose last extraction imports the module. */
  lemma ImportersAreCurrent(steps: seq<Step>, mod: string)
    requires GoodRun(steps)
    ensures Importers(Run(steps), mod) == set p | p in HistoryOf(steps) && mod in HistoryOf(steps)[p].imports
  {
    RunRefines(steps);
    var g, last := Run(steps), HistoryOf(steps);
    forall p
      ensures p in Importers(g, mod) <==> p in last && mod in last[p].imports
    {
      assert LiveEdge(g, ImportsEdge(p, mod)) <==> p in last && mod in last[p].imports;
      assert LiveNode(g, FileNode(p)) <==> p in last;
      if p in last && mod in last[p].imports {
        assert ImportMatch(g, mod, ImportsEdge(p, mod));
      }
      if p in Importers(g, mod) {
        var e :| e in g.edges && ImportMatch(g, mod, e) && e.src.key == p;
        assert e == ImportsEdge(p, mod);
      }
    }
  }

  /** After every run, the live call, reference and injection edges are those of the last extractions, and each
      carries what the extraction of its file says. */
  lemma UsesAreCurrent(steps: seq<Step>, e: EdgeId)
    requires GoodRun(steps) && (e.etype == Calls || e.etype == References || e.etype == Injects)
    ensures UseAgrees(Run(steps), HistoryOf(steps), e)
  {
    RunRefines(steps);
  }
}
