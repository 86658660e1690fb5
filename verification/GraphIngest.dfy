/** How the pipeline turns one extracted file into graph rows, and re-ingests it. */
module GraphIngest {
  import opened Wrappers
  import opened Extraction
  import opened SymbolKeys
  import opened TemporalGraph

  /** The distinct items, each at its first position. */
  function Distinct<T(==)>(items: seq<T>): seq<T> {
    if items == [] then []
    else
      var init, last := items[..|items| - 1], items[|items| - 1];
      if last in init then Distinct(init) else Distinct(init) + [last]
  }

  lemma {:induction false} DistinctKeepsAll<T>(items: seq<T>)
    ensures forall x :: x in Distinct(items) <==> x in items
  {
    if items != [] {
      DistinctKeepsAll(items[..|items| - 1]);
      assert items == items[..|items| - 1] + [items[|items| - 1]];
    }
  }

  function Mapped<T, U>(f: T -> U, items: seq<T>): seq<U> {
    seq(|items|, i requires 0 <= i < |items| => f(items[i]))
  }

  /** Collect the items not seen before. */
  method CollectDistinct<T(==)>(items: seq<T>) returns (out: seq<T>)
    ensures out == Distinct(items)
  {
    out := [];
    var seen := {};
    for i := 0 to |items|
      invariant out == Distinct(items[..i])
      invariant forall x :: x in seen <==> x in items[..i]
    {
      assert items[..i + 1][..i] == items[..i];
      if items[i] !in seen {
        seen := seen + {items[i]};
        out := out + [items[i]];
      }
    }
    assert items[..|items|] == items;
  }

  function SymbolProps(path: string, s: Sym): Props {
    map[NameP := Text(s.name), KindP := Text(s.kind), StartP := Number(s.startLine),
        EndP := Number(s.endLine), FileP := Text(path)]
    + (if s.namespace.Some? && s.namespace.value != "" then map[NamespaceP := Text(s.namespace.value)] else map[])
    + (if s.partial then map[PartialP := Flag(true)] else map[])
    + (if s.paramCount.Some? then map[ParamsP := Number(s.paramCount.value)] else map[])
  }

  function FileRow(ex: ExtractedFile): NodeRow {
    Row(FileNode(ex.path), map[LangP := Text(ex.lang), GeneratedP := Flag(ex.generated)])
  }

  function SymbolRow(path: string): Sym -> NodeRow {
    (s: Sym) => Row(SymbolNode(SymbolKey(path, s)), SymbolProps(path, s))
  }

  function DefinesRow(path: string): Sym -> EdgeRow {
    (s: Sym) => Row(DefinesEdge(path, SymbolKey(path, s)), map[])
  }

  function ModuleRow(mod: string): NodeRow {
    Row(NodeId(Module, mod), map[])
  }

  function ImportsRow(path: string): string -> EdgeRow {
    (mod: string) => Row(ImportsEdge(path, mod), map[])
  }

  function PlaceholderRow(name: string): NodeRow {
    Row(SymbolNode(PlaceholderKey(name)), map[NameP := Text(name), UnresolvedP := Flag(true)])
  }

  function CallPlaceholderRow(call: CallSite): NodeRow {
    PlaceholderRow(call.name)
  }

  function CallRow(path: string): CallSite -> EdgeRow {
    (call: CallSite) => Row(
      EdgeId(Calls, FileNode(path), SymbolNode(PlaceholderKey(call.name))),
      map[UnresolvedP := Flag(true), ArgsP := Number(call.arity)]
      + if call.receiverType.Some? && call.receiverType.value != ""
        then map[ReceiverTypeP := Text(call.receiverType.value)] else map[])
  }

  function NameRow(etype: EdgeType, path: string): string -> EdgeRow {
    (name: string) => Row(EdgeId(etype, FileNode(path), SymbolNode(PlaceholderKey(name))),
                          map[UnresolvedP := Flag(true)])
  }

  function NodeRowsOf(ex: ExtractedFile): seq<NodeRow> {
    [FileRow(ex)]
    + Mapped(SymbolRow(ex.path), ex.symbols)
    + Mapped(ModuleRow, Distinct(ex.imports))
    + Mapped(CallPlaceholderRow, Distinct(ex.calls))
    + Mapped(PlaceholderRow, Distinct(ex.references))
    + Mapped(PlaceholderRow, Distinct(ex.injects))
  }

  function EdgeRowsOf(ex: ExtractedFile): seq<EdgeRow> {
    Mapped(DefinesRow(ex.path), ex.symbols)
    + Mapped(ImportsRow(ex.path), Distinct(ex.imports))
    + Mapped(CallRow(ex.path), Distinct(ex.calls))
    + Mapped(NameRow(References, ex.path), Distinct(ex.references))
    + Mapped(NameRow(Injects, ex.path), Distinct(ex.injects))
  }

  function UpsertFile(g: Graph, ex: ExtractedFile, head: Option<Head>): Graph {
    UpsertEdges(UpsertNodes(g, NodeRowsOf(ex), head), EdgeRowsOf(ex), head)
  }

  /** Delete what the file owned, then write what it owns now. */
  function Reingested(g: Graph, ex: ExtractedFile, head: Option<Head>, now: int): Graph {
    UpsertFile(DeleteFile(g, ex.path, head, now), ex, head)
  }

  method UpsertGraph(graph: FalkorStore, ex: ExtractedFile, head: Option<Head>)
    modifies graph
    ensures graph.G() == UpsertFile(old(graph.G()), ex, head)
  {
    var nodes, edges := [FileRow(ex)], [];
    nodes := nodes + Mapped(SymbolRow(ex.path), ex.symbols);
    edges := edges + Mapped(DefinesRow(ex.path), ex.symbols);
    var mods := CollectDistinct(ex.imports);
    nodes, edges := nodes + Mapped(ModuleRow, mods), edges + Mapped(ImportsRow(ex.path), mods);
    var calls := CollectDistinct(ex.calls);
    nodes, edges := nodes + Mapped(CallPlaceholderRow, calls), edges + Mapped(CallRow(ex.path), calls);
    var refs := CollectDistinct(ex.references);
    nodes, edges := nodes + Mapped(PlaceholderRow, refs), edges + Mapped(NameRow(References, ex.path), refs);
    var injected := CollectDistinct(ex.injects);
    nodes, edges := nodes + Mapped(PlaceholderRow, injected), edges + Mapped(NameRow(Injects, ex.path), injected);
    assert [] + Mapped(DefinesRow(ex.path), ex.symbols) == Mapped(DefinesRow(ex.path), ex.symbols);
    graph.UpsertNodeRows(nodes, head);
    graph.UpsertEdgeRows(edges, head);
  }

  /** Nothing is deleted when the extractor yields nothing. */
  method ReingestFile(graph: FalkorStore, extracted: Option<ExtractedFile>, head: Option<Head>, now: int)
    modifies graph
    ensures graph.G() == match extracted
      case None => old(graph.G())
      case Some(ex) => Reingested(old(graph.G()), ex, head, now)
  {
    if extracted.Some? {
      graph.Delete(extracted.value.path, head, now);
      UpsertGraph(graph, extracted.value, head);
    }
  }

  // ------------------------------------------------ what a batch does to one item

  /** What a batch leaves of one item. */
  function ItemAfter<K(==)>(item: Option<Item>, rows: seq<Row<K>>, id: K, head: Option<Head>): Option<Item>
    decreases |rows|
  {
    if rows == [] then item
    else ItemAfter(if rows[0].id == id then Some(Upserted(item, rows[0].props, head)) else item, rows[1..], id, head)
  }

  predicate Writes<K(==)>(rows: seq<Row<K>>, id: K) {
    exists i :: 0 <= i < |rows| && rows[i].id == id
  }

  lemma {:induction false} NodeAfterBatch(g: Graph, rows: seq<NodeRow>, head: Option<Head>, id: NodeId)
    ensures Lookup(UpsertNodes(g, rows, head).nodes, id) == ItemAfter(Lookup(g.nodes, id), rows, id, head)
    ensures UpsertNodes(g, rows, head).edges == g.edges
    decreases |rows|
  {
    if rows != [] {
      NodeAfterBatch(UpsertNode(g, rows[0], head), rows[1..], head, id);
    }
  }

  /** When the ends exist, an edge batch writes edges only. */
  lemma {:induction false} EdgeAfterBatch(g: Graph, rows: seq<EdgeRow>, head: Option<Head>, id: EdgeId)
    requires forall i :: 0 <= i < |rows| ==> rows[i].id.src in g.nodes && rows[i].id.dst in g.nodes
    ensures Lookup(UpsertEdges(g, rows, head).edges, id) == ItemAfter(Lookup(g.edges, id), rows, id, head)
    ensures UpsertEdges(g, rows, head).nodes == g.nodes
    decreases |rows|
  {
    if rows != [] {
      assert UpsertEdge(g, rows[0], head).nodes == g.nodes;
      EdgeAfterBatch(UpsertEdge(g, rows[0], head), rows[1..], head, id);
    }
  }

  lemma {:induction false} UntouchedItem<K>(item: Option<Item>, rows: seq<Row<K>>, id: K, head: Option<Head>)
    requires !Writes(rows, id)
    ensures ItemAfter(item, rows, id, head) == item
    decreases |rows|
  {
    if rows != [] {
      UntouchedItem(item, rows[1..], id, head);
    }
  }

  function LifeOf(item: Option<Item>): Option<Life> {
    if item.Some? then Some(item.value.life) else None
  }

  /** However many rows name the item, its stamps are touched once. */
  lemma {:induction false} TouchedItem<K>(item: Option<Item>, rows: seq<Row<K>>, id: K, head: Option<Head>)
    requires Writes(rows, id)
    ensures ItemAfter(item, rows, id, head).Some?
    ensures ItemAfter(item, rows, id, head).value.life == Touch(LifeOf(item), head)
    decreases |rows|
  {
    var next := if rows[0].id == id then Some(Upserted(item, rows[0].props, head)) else item;
    if Writes(rows[1..], id) {
      TouchedItem(next, rows[1..], id, head);
    } else {
      UntouchedItem(next, rows[1..], id, head);
      var i :| 0 <= i < |rows| && rows[i].id == id;
      assert i == 0 || rows[1..][i - 1].id == id;
    }
  }

  /** An item that the batch names is touched once; any other is as it was. */
  lemma TouchedOrNot<K>(item: Option<Item>, rows: seq<Row<K>>, id: K, head: Option<Head>)
    ensures
      var after := ItemAfter(item, rows, id, head);
      if Writes(rows, id) then after.Some? && after.value.life == Touch(LifeOf(item), head) else after == item
  {
    if Writes(rows, id) {
      TouchedItem(item, rows, id, head);
    } else {
      UntouchedItem(item, rows, id, head);
    }
  }

  lemma {:induction false} ItemAfterAppend<K>(item: Option<Item>, a: seq<Row<K>>, b: seq<Row<K>>, id: K,
                                              head: Option<Head>)
    ensures ItemAfter(item, a + b, id, head) == ItemAfter(ItemAfter(item, a, id, head), b, id, head)
    decreases |a|
  {
    if a == [] {
      assert a + b == b;
    } else {
      assert (a + b)[1..] == a[1..] + b;
      ItemAfterAppend(if a[0].id == id then Some(Upserted(item, a[0].props, head)) else item, a[1..], b, id, head);
    }
  }

  /** The last row that sets a property decides it. */
  lemma {:induction false} LastSetting<K>(item: Option<Item>, rows: seq<Row<K>>, id: K, head: Option<Head>,
                                          name: PropName, i: nat)
    requires i < |rows| && rows[i].id == id && name in rows[i].props
    requires forall j :: i < j < |rows| && rows[j].id == id ==> name !in rows[j].props
    ensures ItemAfter(item, rows, id, head).Some?
    ensures Prop(ItemAfter(item, rows, id, head).value, name) == Some(rows[i].props[name])
    decreases |rows|
  {
    var n := |rows| - 1;
    var init := rows[..n];
    assert rows == init + [rows[n]] && [rows[n]][1..] == [];
    ItemAfterAppend(item, init, [rows[n]], id, head);
    if i < n {
      LastSetting(item, init, id, head, name, i);
    }
  }

  /** A property that no row sets is as it was, or absent from a new item. */
  lemma {:induction false} NeverSet<K>(item: Option<Item>, rows: seq<Row<K>>, id: K, head: Option<Head>, name: PropName)
    requires forall i :: 0 <= i < |rows| && rows[i].id == id ==> name !in rows[i].props
    ensures
      var after := ItemAfter(item, rows, id, head);
      (if after.Some? then Prop(after.value, name) else None) == if item.Some? then Prop(item.value, name) else None
    decreases |rows|
  {
    if rows != [] {
      NeverSet(if rows[0].id == id then Some(Upserted(item, rows[0].props, head)) else item, rows[1..], id, head, name);
    }
  }
}
