/** The code graph with temporal stamps: its Cypher writes as graph updates. */
module TemporalGraph {
  import opened Wrappers
  import Folds

  datatype Label = File | Symbol | Module | Layer | OtherLabel(name: string)
  datatype EdgeType = Defines | Imports | Calls | References | Injects | InLayer | OtherType(name: string)
  datatype Value = Text(s: string) | Number(n: int) | Flag(b: bool)

  /** The property names that the pipeline and the resolver write. */
  datatype PropName =
    | NameP | KindP | StartP | EndP | FileP | NamespaceP | PartialP | ParamsP
    | LangP | GeneratedP | UnresolvedP | ArgsP | ReceiverTypeP | ContextP | RankP | OtherP(name: string)

  type Props = map<PropName, Value>

  datatype NodeId = NodeId(tag: Label, key: string)
  datatype EdgeId = EdgeId(etype: EdgeType, src: NodeId, dst: NodeId)

  /** The `first_seen_*`, `last_seen_*` and `invalid_*` properties. */
  datatype Life = Life(
    firstSha: Option<string>, firstOrd: Option<int>,
    lastSha: Option<string>, lastOrd: Option<int>,
    invalidSha: Option<string>, invalidOrd: Option<int>, invalidAt: Option<int>)
  {
    predicate Live() {
      invalidSha.None?
    }
  }

  const UNSTAMPED := Life(None, None, None, None, None, None, None)

  /** A node or an edge: its ordinary properties and its stamps. */
  datatype Item = Item(props: Props, life: Life)

  const BARE := Item(map[], UNSTAMPED)

  datatype Graph = Graph(nodes: map<NodeId, Item>, edges: map<EdgeId, Item>)

  const EMPTY := Graph(map[], map[])

  /** The commit an ingest runs at; `ord` is absent when git cannot count its ancestors. */
  datatype Head = Head(sha: string, ord: Option<int>)

  /** One row of an `UNWIND` batch. */
  datatype Row<K> = Row(id: K, props: Props)
  type NodeRow = Row<NodeId>
  type EdgeRow = Row<EdgeId>

  // ---------------------------------------------------------------- writes

  /** What an upsert at `head` does to the stamps of a created or a matched item. */
  function Touch(life: Option<Life>, head: Option<Head>): Life {
    match head
    case None => life.GetOr(UNSTAMPED)
    case Some(h) =>
      var l := life.GetOr(UNSTAMPED);
      Life(Coalesce(l.firstSha, Some(h.sha)), Coalesce(l.firstOrd, h.ord), Some(h.sha), h.ord, None, None, None)
  }

  function Lookup<K>(m: map<K, Item>, k: K): Option<Item> {
    if k in m then Some(m[k]) else None
  }

  function Upserted(item: Option<Item>, props: Props, head: Option<Head>): Item {
    match item
    case None => Item(props, Touch(None, head))
    case Some(i) => Item(i.props + props, Touch(Some(i.life), head))
  }

  function UpsertNode(g: Graph, row: NodeRow, head: Option<Head>): Graph {
    g.(nodes := g.nodes[row.id := Upserted(Lookup(g.nodes, row.id), row.props, head)])
  }

  /** `MERGE (a:L {key: k})` for both ends: bare nodes where none exist. */
  function MergeEnds(nodes: map<NodeId, Item>, e: EdgeId): map<NodeId, Item> {
    map[e.src := BARE, e.dst := BARE] + nodes
  }

  function UpsertEdge(g: Graph, row: EdgeRow, head: Option<Head>): Graph {
    Graph(
      MergeEnds(g.nodes, row.id),
      g.edges[row.id := Upserted(Lookup(g.edges, row.id), row.props, head)])
  }

  function NodeStep(head: Option<Head>): (Graph, NodeRow) -> Graph {
    (g: Graph, row: NodeRow) => UpsertNode(g, row, head)
  }

  function EdgeStep(head: Option<Head>): (Graph, EdgeRow) -> Graph {
    (g: Graph, row: EdgeRow) => UpsertEdge(g, row, head)
  }

  function UpsertNodes(g: Graph, rows: seq<NodeRow>, head: Option<Head>): Graph {
    Folds.Fold(NodeStep(head), g, rows)
  }

  function UpsertEdges(g: Graph, rows: seq<EdgeRow>, head: Option<Head>): Graph {
    Folds.Fold(EdgeStep(head), g, rows)
  }

  function Buried(life: Life, h: Head, now: int): Life {
    life.(invalidSha := Some(h.sha), invalidOrd := h.ord, invalidAt := Some(now))
  }

  function Bury(item: Item, h: Head, now: int): Item {
    item.(life := Buried(item.life, h, now))
  }

  function FileNode(path: string): NodeId {
    NodeId(File, path)
  }

  function SymbolNode(key: string): NodeId {
    NodeId(Symbol, key)
  }

  function DefinesEdge(path: string, key: string): EdgeId {
    EdgeId(Defines, FileNode(path), SymbolNode(key))
  }

  function ImportsEdge(path: string, mod: string): EdgeId {
    EdgeId(Imports, FileNode(path), NodeId(Module, mod))
  }

  predicate Touches(e: EdgeId, n: NodeId) {
    e.src == n || e.dst == n
  }

  /** The nodes a stamped delete of the file marks: the file and the symbols it has a DEFINES edge to. */
  predicate BuriedByDelete(g: Graph, path: string, id: NodeId)
    requires id in g.nodes
  {
    || id == FileNode(path)
    || (id.tag == Symbol && EdgeId(Defines, FileNode(path), id) in g.edges && UnresolvedP !in g.nodes[id].props)
  }

  function DeleteFile(g: Graph, path: string, head: Option<Head>, now: int): Graph {
    match head
    case None =>
      Graph(
        map id | id in g.nodes && id != FileNode(path) :: g.nodes[id],
        map e | e in g.edges && !(Touches(e, FileNode(path)) && FileNode(path) in g.nodes) :: g.edges[e])
    case Some(h) =>
      Graph(
        map id | id in g.nodes :: if BuriedByDelete(g, path, id) then Bury(g.nodes[id], h, now) else g.nodes[id],
        map e | e in g.edges ::
          if Touches(e, FileNode(path)) && FileNode(path) in g.nodes then Bury(g.edges[e], h, now) else g.edges[e])
  }

  predicate SweptAt(life: Life, h: Head) {
    life.lastSha.Some? && life.lastSha.value != h.sha && life.Live()
  }

  function Sweep(g: Graph, tag: Label, h: Head, now: int): Graph {
    g.(nodes := map id | id in g.nodes ::
      if id.tag == tag && SweptAt(g.nodes[id].life, h) then Bury(g.nodes[id], h, now) else g.nodes[id])
  }

  datatype Policy = BeforeOrd(ord: int) | NotAfter(cutoff: int) | DropAll

  predicate Collected(life: Life, policy: Policy) {
    && life.invalidSha.Some?
    && match policy
       case DropAll => true
       case BeforeOrd(ord) => life.invalidOrd.Some? && life.invalidOrd.value <= ord
       case NotAfter(cutoff) => life.invalidAt.Some? && life.invalidAt.value <= cutoff
  }

  predicate NodeCollected(g: Graph, id: NodeId, policy: Policy) {
    id in g.nodes && (id.tag == File || id.tag == Symbol) && Collected(g.nodes[id].life, policy)
  }

  function Vacuum(g: Graph, policy: Policy): Graph {
    Graph(
      map id | id in g.nodes && !NodeCollected(g, id, policy) :: g.nodes[id],
      map e | e in g.edges && !NodeCollected(g, e.src, policy) && !NodeCollected(g, e.dst, policy)
              && !Collected(g.edges[e].life, policy) :: g.edges[e])
  }

  // ---------------------------------------------------------------- reads

  datatype DefinitionRow = DefinitionRow(file: string, start: Option<Value>, end: Option<Value>, kind: Option<Value>)

  function Prop(item: Item, name: PropName): Option<Value> {
    if name in item.props then Some(item.props[name]) else None
  }

  predicate DefinitionMatch(g: Graph, name: string, e: EdgeId) {
    && e in g.edges && e.etype == Defines && e.src.tag == File && e.dst.tag == Symbol
    && e.src in g.nodes && e.dst in g.nodes
    && Prop(g.nodes[e.dst], NameP) == Some(Text(name))
    && UnresolvedP !in g.nodes[e.dst].props
    && g.nodes[e.dst].life.Live() && g.nodes[e.src].life.Live()
  }

  /** The rows of `definitions(name)`, one for each DEFINES edge that matches.
      The edge's own tombstone is not consulted. */
  function Definitions(g: Graph, name: string): map<EdgeId, DefinitionRow> {
    map e | e in g.edges && DefinitionMatch(g, name, e) ::
      DefinitionRow(e.src.key, Prop(g.nodes[e.dst], StartP), Prop(g.nodes[e.dst], EndP), Prop(g.nodes[e.dst], KindP))
  }

  predicate ImportMatch(g: Graph, mod: string, e: EdgeId) {
    && e in g.edges && e.etype == Imports && e.src.tag == File && e.dst == NodeId(Module, mod)
    && e.src in g.nodes && g.nodes[e.src].life.Live() && g.edges[e].life.Live()
  }

  /** The files that `importers(mod)` lists. */
  function Importers(g: Graph, mod: string): set<string> {
    set e | e in g.edges && ImportMatch(g, mod, e) :: e.src.key
  }

  predicate AliveAt(life: Life, x: int) {
    && life.firstOrd.Some? && life.firstOrd.value <= x
    && (life.invalidOrd.None? || life.invalidOrd.value > x)
  }

  /** The nodes that `at_sha` reports for a commit with ordinal `x`. */
  function AtSha(g: Graph, tag: Label, x: int): set<NodeId> {
    set id | id in g.nodes && id.tag == tag && AliveAt(g.nodes[id].life, x)
  }

  // ---------------------------------------------------------------- the store

  datatype StoreError = ValueError
  datatype VacuumCounts = VacuumCounts(files: nat, symbols: nat, edges: nat)

  function RowLabel(row: NodeRow): Label {
    row.id.tag
  }

  datatype EdgeGroup = EdgeGroup(srcLabel: Label, etype: EdgeType, dstLabel: Label)

  function RowGroup(row: EdgeRow): EdgeGroup {
    EdgeGroup(row.id.src.tag, row.id.etype, row.id.dst.tag)
  }

  lemma NodeRowsCommute(head: Option<Head>)
    ensures Folds.Commutes(NodeStep(head), RowLabel)
  {
    forall g: Graph, a: NodeRow, b: NodeRow | RowLabel(a) != RowLabel(b)
      ensures NodeStep(head)(NodeStep(head)(g, a), b) == NodeStep(head)(NodeStep(head)(g, b), a)
    {
      NodeWritesCommute(g, a, b, head);
    }
  }

  lemma NodeWritesCommute(g: Graph, a: NodeRow, b: NodeRow, head: Option<Head>)
    requires a.id != b.id
    ensures UpsertNode(UpsertNode(g, a, head), b, head) == UpsertNode(UpsertNode(g, b, head), a, head)
  {
    PutsCommute(g.nodes, a.id, Upserted(Lookup(g.nodes, a.id), a.props, head), b.id,
                Upserted(Lookup(g.nodes, b.id), b.props, head));
  }

  lemma PutsCommute<K, V>(m: map<K, V>, a: K, x: V, b: K, y: V)
    requires a != b
    ensures m[a := x][b := y] == m[b := y][a := x]
  {
  }

  lemma MergesCommute(nodes: map<NodeId, Item>, a: EdgeId, b: EdgeId)
    ensures MergeEnds(MergeEnds(nodes, a), b) == MergeEnds(MergeEnds(nodes, b), a)
  {
  }

  lemma EdgeWritesCommute(g: Graph, a: EdgeRow, b: EdgeRow, head: Option<Head>)
    requires a.id != b.id
    ensures UpsertEdge(UpsertEdge(g, a, head), b, head) == UpsertEdge(UpsertEdge(g, b, head), a, head)
  {
    MergesCommute(g.nodes, a.id, b.id);
    var ga, gb := UpsertEdge(g, a, head), UpsertEdge(g, b, head);
    assert Lookup(ga.edges, b.id) == Lookup(g.edges, b.id);
    assert Lookup(gb.edges, a.id) == Lookup(g.edges, a.id);
    var x, y := Upserted(Lookup(g.edges, a.id), a.props, head), Upserted(Lookup(g.edges, b.id), b.props, head);
    assert g.edges[a.id := x][b.id := y] == g.edges[b.id := y][a.id := x];
  }

  lemma EdgeRowsCommute(head: Option<Head>)
    ensures Folds.Commutes(EdgeStep(head), RowGroup)
  {
    forall g: Graph, a: EdgeRow, b: EdgeRow | RowGroup(a) != RowGroup(b)
      ensures EdgeStep(head)(EdgeStep(head)(g, a), b) == EdgeStep(head)(EdgeStep(head)(g, b), a)
    {
      EdgeWritesCommute(g, a, b, head);
    }
  }

  /** `MATCH (n:L) WHERE ... DETACH DELETE n`. */
  function DetachDeleted(g: Graph, tag: Label, p: Policy): Graph {
    Graph(
      map id | id in g.nodes && !(id.tag == tag && Collected(g.nodes[id].life, p)) :: g.nodes[id],
      map e | e in g.edges && !Doomed(g, e.src, tag, p) && !Doomed(g, e.dst, tag, p) :: g.edges[e])
  }

  predicate Doomed(g: Graph, id: NodeId, tag: Label, p: Policy) {
    id in g.nodes && id.tag == tag && Collected(g.nodes[id].life, p)
  }

  function EdgesCollected(g: Graph, p: Policy): Graph {
    g.(edges := map e | e in g.edges && !Collected(g.edges[e].life, p) :: g.edges[e])
  }

  lemma DoomedInTurn(g: Graph, p: Policy, id: NodeId)
    ensures Doomed(g, id, File, p) || Doomed(DetachDeleted(g, File, p), id, Symbol, p) <==> NodeCollected(g, id, p)
  {
  }

  lemma EdgeKept(g: Graph, p: Policy, e: EdgeId)
    ensures e in DetachDeleted(DetachDeleted(g, File, p), Symbol, p).edges
      <==> e in g.edges && !NodeCollected(g, e.src, p) && !NodeCollected(g, e.dst, p)
  {
    DoomedInTurn(g, p, e.src);
    DoomedInTurn(g, p, e.dst);
  }

  lemma VacuumInThreeQueries(g: Graph, p: Policy)
    ensures EdgesCollected(DetachDeleted(DetachDeleted(g, File, p), Symbol, p), p) == Vacuum(g, p)
  {
    var g2 := DetachDeleted(DetachDeleted(g, File, p), Symbol, p);
    forall id {
      DoomedInTurn(g, p, id);
    }
    assert g2.nodes == Vacuum(g, p).nodes;
    forall e {
      EdgeKept(g, p, e);
    }
    assert EdgesCollected(g2, p).edges == Vacuum(g, p).edges;
  }

  class FalkorStore {
    var nodes: map<NodeId, Item>
    var edges: map<EdgeId, Item>

    function G(): Graph
      reads this
    {
      Graph(nodes, edges)
    }

    constructor ()
      ensures G() == EMPTY
    {
      nodes, edges := map[], map[];
    }

    /** One query: the rows of a batch in turn. */
    method UpsertNodeBatch(batch: seq<NodeRow>, head: Option<Head>)
      modifies this
      ensures G() == Folds.Fold(NodeStep(head), old(G()), batch)
    {
      ghost var g0 := G();
      for j := 0 to |batch|
        invariant G() == Folds.Fold(NodeStep(head), g0, batch[..j])
      {
        Folds.FoldStep(NodeStep(head), g0, batch, j);
        nodes := nodes[batch[j].id := Upserted(Lookup(nodes, batch[j].id), batch[j].props, head)];
      }
      assert batch[..|batch|] == batch;
    }

    method UpsertEdgeBatch(batch: seq<EdgeRow>, head: Option<Head>)
      modifies this
      ensures G() == Folds.Fold(EdgeStep(head), old(G()), batch)
    {
      ghost var g0 := G();
      for j := 0 to |batch|
        invariant G() == Folds.Fold(EdgeStep(head), g0, batch[..j])
      {
        Folds.FoldStep(EdgeStep(head), g0, batch, j);
        var id := batch[j].id;
        nodes := MergeEnds(nodes, id);
        edges := edges[id := Upserted(Lookup(edges, id), batch[j].props, head)];
      }
      assert batch[..|batch|] == batch;
    }

    /** One batch per label; the graph is the one that row-by-row upserts build. */
    method UpsertNodeRows(rows: seq<NodeRow>, head: Option<Head>)
      modifies this
      ensures G() == UpsertNodes(old(G()), rows, head)
    {
      ghost var g0, f := G(), NodeStep(head);
      var order, groups := Folds.GroupRows(RowLabel, rows);
      for i := 0 to |order|
        invariant G() == Folds.Fold(f, g0, Folds.GroupedBy(RowLabel, order[..i], rows))
      {
        UpsertNodeBatch(groups[order[i]], head);
        Folds.GroupAppend(f, RowLabel, g0, order, i, rows);
      }
      assert order[..|order|] == order;
      NodeRowsCommute(head);
      Folds.GroupedFold(f, RowLabel, order, g0, rows);
    }

    /** As for nodes, with one batch per (source label, type, target label). */
    method UpsertEdgeRows(rows: seq<EdgeRow>, head: Option<Head>)
      modifies this
      ensures G() == UpsertEdges(old(G()), rows, head)
    {
      ghost var g0, f := G(), EdgeStep(head);
      var order, groups := Folds.GroupRows(RowGroup, rows);
      for i := 0 to |order|
        invariant G() == Folds.Fold(f, g0, Folds.GroupedBy(RowGroup, order[..i], rows))
      {
        UpsertEdgeBatch(groups[order[i]], head);
        Folds.GroupAppend(f, RowGroup, g0, order, i, rows);
      }
      assert order[..|order|] == order;
      EdgeRowsCommute(head);
      Folds.GroupedFold(f, RowGroup, order, g0, rows);
    }

    /** Three queries in the stamped case; each sees what the earlier ones wrote. */
    method Delete(path: string, head: Option<Head>, now: int)
      modifies this
      ensures G() == DeleteFile(old(G()), path, head, now)
    {
      match head
      case None => DetachFile(path, now);
      case Some(h) => BuryFile(path, h, now);
    }

    method DetachFile(path: string, now: int)
      modifies this
      ensures G() == DeleteFile(old(G()), path, None, now)
    {
      var f := FileNode(path);
      if f in nodes {
        edges := map e | e in edges && !Touches(e, f) :: edges[e];
      }
      nodes := map id | id in nodes && id != f :: nodes[id];
      assert G().edges == DeleteFile(old(G()), path, None, now).edges;
    }

    method BuryFile(path: string, h: Head, now: int)
      modifies this
      ensures G() == DeleteFile(old(G()), path, Some(h), now)
    {
      var f := FileNode(path);
      if f in nodes {
        nodes := nodes[f := Bury(nodes[f], h, now)];
      }
      nodes := map id | id in nodes ::
        if id.tag == Symbol && EdgeId(Defines, f, id) in edges && UnresolvedP !in nodes[id].props
        then Bury(nodes[id], h, now) else nodes[id];
      assert nodes == DeleteFile(old(G()), path, Some(h), now).nodes;
      if f in nodes {
        edges := map e | e in edges :: if Touches(e, f) then Bury(edges[e], h, now) else edges[e];
      }
      assert edges == DeleteFile(old(G()), path, Some(h), now).edges;
    }

    /** Tombstone the `tag` nodes that this head did not confirm; only four labels are accepted. */
    method SweepStale(tag: Label, h: Head, now: int) returns (r: Result<nat, StoreError>)
      modifies this
      ensures tag.OtherLabel? ==> r == Err(ValueError) && G() == old(G())
      ensures !tag.OtherLabel? ==>
        && G() == Sweep(old(G()), tag, h, now)
        && r == Ok(|set id | id in old(nodes) && id.tag == tag && SweptAt(old(nodes)[id].life, h)|)
    {
      if tag.OtherLabel? {
        return Err(ValueError);
      }
      var swept := set id | id in nodes && id.tag == tag && SweptAt(nodes[id].life, h);
      nodes := map id | id in nodes :: if id in swept then Bury(nodes[id], h, now) else nodes[id];
      r := Ok(|swept|);
    }

    /** Exactly one policy must be given; a dry run only counts. */
    method VacuumStore(beforeOrd: Option<int>, cutoff: Option<int>, dropAll: bool, dryRun: bool)
      returns (r: Result<VacuumCounts, StoreError>)
      modifies this
      ensures
        var modes := (if beforeOrd.Some? then 1 else 0) + (if cutoff.Some? then 1 else 0) + if dropAll then 1 else 0;
        r.Err? <==> modes != 1
      ensures r.Err? || dryRun ==> G() == old(G())
      ensures r.Ok? ==>
        var p := if dropAll then DropAll else if beforeOrd.Some? then BeforeOrd(beforeOrd.value)
          else NotAfter(cutoff.value);
        && (!dryRun ==> G() == Vacuum(old(G()), p))
        && r.value == VacuumCounts(
            |set id | id in old(nodes) && Doomed(old(G()), id, File, p)|,
            |set id | id in old(nodes) && Doomed(old(G()), id, Symbol, p)|,
            |set e | e in old(edges) && Collected(old(edges)[e].life, p)|)
    {
      var modes := (if beforeOrd.Some? then 1 else 0) + (if cutoff.Some? then 1 else 0) + if dropAll then 1 else 0;
      if modes != 1 {
        return Err(ValueError);
      }
      var p := if dropAll then DropAll else if beforeOrd.Some? then BeforeOrd(beforeOrd.value)
        else NotAfter(cutoff.value);
      r := Ok(VacuumCounts(
        |set id | id in nodes && Doomed(G(), id, File, p)|, |set id | id in nodes && Doomed(G(), id, Symbol, p)|,
        |set e | e in edges && Collected(edges[e].life, p)|));
      if !dryRun {
        DropCollected(p);
      }
    }

    /** Files, then symbols, each with the edges at them; then the tombstoned edges that are left. */
    method DropCollected(p: Policy)
      modifies this
      ensures G() == Vacuum(old(G()), p)
    {
      VacuumInThreeQueries(G(), p);
      var noFiles := DetachDeleted(G(), File, p);
      nodes, edges := noFiles.nodes, noFiles.edges;
      var noSymbols := DetachDeleted(G(), Symbol, p);
      nodes, edges := noSymbols.nodes, noSymbols.edges;
      edges := EdgesCollected(G(), p).edges;
    }
  }
}
