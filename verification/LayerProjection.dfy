/** `_index_architecture`: Layer nodes and IN_LAYER edges follow the classification of live files. */
module LayerProjection {
  import opened Wrappers
  import opened TemporalGraph
  import opened GraphIngest
  import opened GraphRows
  import opened Architecture
  import GraphRefinement

  /** The root as given, how a file key resolves relative to it, and the layer table. */
  datatype Setting = Setting(root: string, relative: string -> Option<seq<string>>, layers: Layers)

  datatype Place = Elsewhere | Unclassified | In(class_: Class)

  function PlaceOf(s: Setting, file: string): Place {
    match s.relative(file)
    case None => Elsewhere
    case Some(parts) =>
      match Classify(s.layers, parts)
      case None => Unclassified
      case Some(c) => In(c)
  }

  function LayerKey(s: Setting, c: Class): string {
    s.root + "::layer::" + c.context + "::" + c.name
  }

  function LayerNode(s: Setting, c: Class): NodeId {
    NodeId(Layer, LayerKey(s, c))
  }

  predicate LiveFileKey(g: Graph, file: string) {
    FileNode(file) in g.nodes && g.nodes[FileNode(file)].life.Live()
  }

  /** The live file keys, in the order the query returns them. */
  ghost predicate ListsLiveFiles(g: Graph, files: seq<string>) {
    forall f :: f in files <==> LiveFileKey(g, f)
  }

  // ---------------------------------------------------------------- the writes

  /** An IN_LAYER edge that contradicts where its file is now. */
  predicate Stale(s: Setting, files: seq<string>, e: EdgeId) {
    && e.etype == InLayer && e.src.tag == File && e.dst.tag == Layer && e.src.key in files
    && match PlaceOf(s, e.src.key)
       case Elsewhere => false
       case Unclassified => true
       case In(c) => e.dst.key != LayerKey(s, c)
  }

  /** `SET r.invalid_sha = $head, ...`: without a head this clears instead of marking. */
  function Marked(item: Item, head: Option<Head>, now: int): Item {
    item.(life := item.life.(
      invalidSha := if head.Some? then Some(head.value.sha) else None,
      invalidOrd := if head.Some? then head.value.ord else None,
      invalidAt := Some(now)))
  }

  function EdgesRetired(edges: map<EdgeId, Item>, s: Setting, files: seq<string>, head: Option<Head>,
                        now: int): map<EdgeId, Item> {
    map e | e in edges ::
      if Stale(s, files, e) && edges[e].life.Live() then Marked(edges[e], head, now) else edges[e]
  }

  function WithContext(item: Item, place: Place): Item {
    match place
    case Elsewhere => item
    case Unclassified => item.(props := item.props - {ContextP})
    case In(c) => item.(props := item.props[ContextP := Text(c.context)])
  }

  function ContextsSet(nodes: map<NodeId, Item>, s: Setting, files: seq<string>): map<NodeId, Item> {
    map id | id in nodes ::
      if id.tag == File && id.key in files then WithContext(nodes[id], PlaceOf(s, id.key)) else nodes[id]
  }

  function LayerRow(s: Setting, c: Class): NodeRow {
    Row(LayerNode(s, c), map[NameP := Text(c.name), RankP := Number(c.rank), ContextP := Text(c.context)])
  }

  function InLayerEdge(s: Setting, file: string, c: Class): EdgeId {
    EdgeId(InLayer, FileNode(file), LayerNode(s, c))
  }

  /** One row for each layer key, from the first file that has it. */
  function LayerRows(s: Setting, files: seq<string>): seq<NodeRow> {
    if files == [] then []
    else
      var rows, file := LayerRows(s, files[..|files| - 1]), files[|files| - 1];
      match PlaceOf(s, file)
      case In(c) => if Writes(rows, LayerNode(s, c)) then rows else rows + [LayerRow(s, c)]
      case _ => rows
  }

  function InLayerRows(s: Setting, files: seq<string>): seq<EdgeRow> {
    if files == [] then []
    else
      var rows, file := InLayerRows(s, files[..|files| - 1]), files[|files| - 1];
      match PlaceOf(s, file)
      case In(c) => rows + [Row(InLayerEdge(s, file, c), map[])]
      case _ => rows
  }

  function Prepared(g: Graph, s: Setting, files: seq<string>, head: Option<Head>, now: int): Graph {
    Graph(ContextsSet(g.nodes, s, files), EdgesRetired(g.edges, s, files, head, now))
  }

  function Projected(g: Graph, s: Setting, files: seq<string>, head: Option<Head>, now: int): Graph {
    UpsertEdges(UpsertNodes(Prepared(g, s, files, head, now), LayerRows(s, files), head), InLayerRows(s, files), head)
  }

  function Indexed(g: Graph, s: Setting, files: seq<string>, head: Option<Head>, now: int): Graph {
    var g' := Projected(g, s, files, head, now);
    if head.Some? then Sweep(g', Layer, head.value, now) else g'
  }

  /** Only the edges that a reclassification contradicts. */
  function ReclassifiedEdges(edges: map<EdgeId, Item>, s: Setting, files: seq<string>, head: Option<Head>,
                             now: int): map<EdgeId, Item> {
    map e | e in edges ::
      if Stale(s, files, e) && PlaceOf(s, e.src.key).In? && edges[e].life.Live() then Marked(edges[e], head, now)
        else edges[e]
  }

  /** The query for one file that now has another layer. */
  function RetireOthers(edges: map<EdgeId, Item>, file: string, layer: NodeId, head: Option<Head>,
                        now: int): map<EdgeId, Item> {
    map e | e in edges ::
      if e.etype == InLayer && e.src == FileNode(file) && e.dst.tag == Layer && e.dst != layer && edges[e].life.Live()
      then Marked(edges[e], head, now) else edges[e]
  }

  /** The query for all files that lost their layer. */
  function RetireAll(edges: map<EdgeId, Item>, files: seq<string>, head: Option<Head>, now: int): map<EdgeId, Item> {
    map e | e in edges ::
      if e.etype == InLayer && e.src.tag == File && e.src.key in files && e.dst.tag == Layer && edges[e].life.Live()
      then Marked(edges[e], head, now) else edges[e]
  }

  lemma RetireStep(edges: map<EdgeId, Item>, s: Setting, files: seq<string>, file: string, head: Option<Head>, now: int)
    ensures
      var done := ReclassifiedEdges(edges, s, files, head, now);
      ReclassifiedEdges(edges, s, files + [file], head, now) ==
        match PlaceOf(s, file)
        case In(c) => RetireOthers(done, file, LayerNode(s, c), head, now)
        case _ => done
  {
  }

  lemma RetireInTwoPasses(edges: map<EdgeId, Item>, s: Setting, files: seq<string>, unclassified: seq<string>,
                          head: Option<Head>, now: int)
    requires forall f :: f in unclassified <==> f in files && PlaceOf(s, f) == Unclassified
    ensures RetireAll(ReclassifiedEdges(edges, s, files, head, now), unclassified, head, now) ==
      EdgesRetired(edges, s, files, head, now)
  {
  }

  function ContextsCleared(nodes: map<NodeId, Item>, files: seq<string>): map<NodeId, Item> {
    map id | id in nodes ::
      if id.tag == File && id.key in files then nodes[id].(props := nodes[id].props - {ContextP}) else nodes[id]
  }

  /** One `UNWIND` row: `MATCH (f:File {key: row.file}) SET f.context = row.context`. */
  function ContextWritten(nodes: map<NodeId, Item>, row: (string, string)): map<NodeId, Item> {
    var f := FileNode(row.0);
    if f in nodes then nodes[f := nodes[f].(props := nodes[f].props[ContextP := Text(row.1)])] else nodes
  }

  function ContextsWritten(nodes: map<NodeId, Item>, rows: seq<(string, string)>): map<NodeId, Item> {
    if rows == [] then nodes
    else ContextWritten(ContextsWritten(nodes, rows[..|rows| - 1]), rows[|rows| - 1])
  }

  /** The rows to write agree with the classification of the files. */
  ghost predicate ContextRows(rows: seq<(string, string)>, s: Setting, files: seq<string>) {
    && (forall row :: row in rows ==>
          row.0 in files && PlaceOf(s, row.0).In? && row.1 == PlaceOf(s, row.0).class_.context)
    && (forall f :: f in files && PlaceOf(s, f).In? ==> (f, PlaceOf(s, f).class_.context) in rows)
  }

  lemma {:induction false} ContextsWrittenAt(nodes: map<NodeId, Item>, rows: seq<(string, string)>, id: NodeId)
    ensures ContextsWritten(nodes, rows).Keys == nodes.Keys
    ensures id in nodes && (id.tag != File || forall row :: row in rows ==> row.0 != id.key) ==>
      ContextsWritten(nodes, rows)[id] == nodes[id]
    ensures forall context ::
      (id in nodes && id.tag == File && (id.key, context) in rows
       && (forall row :: row in rows && row.0 == id.key ==> row.1 == context)) ==>
      ContextsWritten(nodes, rows)[id] == nodes[id].(props := nodes[id].props[ContextP := Text(context)])
  {
    if rows != [] {
      var n := |rows| - 1;
      ContextsWrittenAt(nodes, rows[..n], id);
      assert rows == rows[..n] + [rows[n]];
    }
  }

  lemma ContextsInTwoPasses(nodes: map<NodeId, Item>, s: Setting, files: seq<string>, unclassified: seq<string>,
                            rows: seq<(string, string)>)
    requires forall f :: f in unclassified <==> f in files && PlaceOf(s, f) == Unclassified
    requires ContextRows(rows, s, files)
    ensures ContextsWritten(ContextsCleared(nodes, unclassified), rows) == ContextsSet(nodes, s, files)
  {
    var cleared := ContextsCleared(nodes, unclassified);
    forall id
      ensures ContextsWritten(cleared, rows).Keys == cleared.Keys
      ensures id in cleared ==> ContextsWritten(cleared, rows)[id] == ContextsSet(nodes, s, files)[id]
    {
      ContextsWrittenAt(cleared, rows, id);
    }
  }

  /** Classify every live file, and retire the edges of those that changed layer on the way. */
  method ClassifyFiles(graph: FalkorStore, s: Setting, files: seq<string>, head: Option<Head>, now: int)
    returns (layerRows: seq<NodeRow>, edgeRows: seq<EdgeRow>, unclassified: seq<string>,
             contexts: seq<(string, string)>)
    modifies graph
    ensures graph.nodes == old(graph.nodes)
    ensures graph.edges == ReclassifiedEdges(old(graph.edges), s, files, head, now)
    ensures layerRows == LayerRows(s, files) && edgeRows == InLayerRows(s, files)
    ensures forall f :: f in unclassified <==> f in files && PlaceOf(s, f) == Unclassified
    ensures ContextRows(contexts, s, files)
  {
    layerRows, edgeRows, unclassified, contexts := [], [], [], [];
    for i := 0 to |files|
      invariant graph.nodes == old(graph.nodes)
      invariant graph.edges == ReclassifiedEdges(old(graph.edges), s, files[..i], head, now)
      invariant layerRows == LayerRows(s, files[..i]) && edgeRows == InLayerRows(s, files[..i])
      invariant forall f :: f in unclassified <==> f in files[..i] && PlaceOf(s, f) == Unclassified
      invariant ContextRows(contexts, s, files[..i])
    {
      var file := files[i];
      assert files[..i + 1][..i] == files[..i];
      assert files[..i + 1] == files[..i] + [file];
      RetireStep(old(graph.edges), s, files[..i], file, head, now);
      var parts := s.relative(file);
      if parts.Some? {
        var class_ := ClassifyFileLayer(s.layers, parts.value);
        match class_
        case None => unclassified := unclassified + [file];
        case Some(c) =>
          var layer := LayerNode(s, c);
          if !Writes(layerRows, layer) {
            layerRows := layerRows + [LayerRow(s, c)];
          }
          contexts := contexts + [(file, c.context)];
          graph.edges := RetireOthers(graph.edges, file, layer, head, now);
          edgeRows := edgeRows + [Row(InLayerEdge(s, file, c), map[])];
      }
    }
    assert files[..|files|] == files;
  }

  /** The queries in the order in which the pipeline sends them. */
  method IndexArchitecture(graph: FalkorStore, s: Setting, files: seq<string>, head: Option<Head>, now: int)
    requires ListsLiveFiles(graph.G(), files)
    modifies graph
    ensures graph.G() == Indexed(old(graph.G()), s, files, head, now)
  {
    var layerRows, edgeRows, unclassified, contexts := ClassifyFiles(graph, s, files, head, now);
    RetireInTwoPasses(old(graph.edges), s, files, unclassified, head, now);
    ContextsInTwoPasses(old(graph.nodes), s, files, unclassified, contexts);
    graph.nodes := ContextsCleared(graph.nodes, unclassified);
    graph.edges := RetireAll(graph.edges, unclassified, head, now);
    graph.nodes := ContextsWritten(graph.nodes, contexts);
    graph.UpsertNodeRows(layerRows, head);
    graph.UpsertEdgeRows(edgeRows, head);
    if head.Some? {
      var _ := graph.SweepStale(Layer, head.value, now);
    }
  }

  // ---------------------------------------------------------------- what is true afterwards

  /** The file classifies to the layer with that key. */
  predicate BelongsTo(s: Setting, file: string, layer: string) {
    PlaceOf(s, file).In? && LayerKey(s, PlaceOf(s, file).class_) == layer
  }

  lemma {:induction false} LayerRowsWrite(s: Setting, files: seq<string>, id: NodeId)
    ensures Writes(LayerRows(s, files), id) <==> id.tag == Layer && exists f :: f in files && BelongsTo(s, f, id.key)
    ensures forall i :: 0 <= i < |LayerRows(s, files)| ==> LayerRows(s, files)[i].id.tag == Layer
  {
    if files != [] {
      var n := |files| - 1;
      LayerRowsWrite(s, files[..n], id);
      var rows, before := LayerRows(s, files), LayerRows(s, files[..n]);
      assert files == files[..n] + [files[n]];
      if PlaceOf(s, files[n]).In? {
        var layer := LayerNode(s, PlaceOf(s, files[n]).class_);
        if rows == before {
          assert layer.tag == Layer;
        } else {
          assert rows[|before|].id == layer;
          assert forall i :: 0 <= i < |before| ==> rows[i] == before[i];
        }
        assert BelongsTo(s, files[n], layer.key);
      }
    }
  }

  lemma {:induction false} InLayerRowsWrite(s: Setting, files: seq<string>, e: EdgeId)
    ensures Writes(InLayerRows(s, files), e) <==>
      e.etype == InLayer && e.src.tag == File && e.dst.tag == Layer && e.src.key in files &&
        BelongsTo(s, e.src.key, e.dst.key)
    ensures forall i :: 0 <= i < |InLayerRows(s, files)| ==>
      var id := InLayerRows(s, files)[i].id;
      id.etype == InLayer && id.src.tag == File && id.dst.tag == Layer && id.src.key in files &&
        BelongsTo(s, id.src.key, id.dst.key)
  {
    if files != [] {
      var n := |files| - 1;
      InLayerRowsWrite(s, files[..n], e);
      var rows, before := InLayerRows(s, files), InLayerRows(s, files[..n]);
      assert files == files[..n] + [files[n]];
      assert forall i :: 0 <= i < |before| ==> rows[i] == before[i];
      if PlaceOf(s, files[n]).In? {
        assert rows[|before|].id == InLayerEdge(s, files[n], PlaceOf(s, files[n]).class_);
      }
    }
  }

  /** What the projection leaves of each node and edge, before the sweep. */
  lemma ProjectedAt(g: Graph, s: Setting, files: seq<string>, head: Option<Head>, now: int)
    requires ListsLiveFiles(g, files)
    ensures
      var g1, g' := Prepared(g, s, files, head, now), Projected(g, s, files, head, now);
      && (forall id :: Lookup(g'.nodes, id) == ItemAfter(Lookup(g1.nodes, id), LayerRows(s, files), id, head))
      && (forall e :: Lookup(g'.edges, e) == ItemAfter(Lookup(g1.edges, e), InLayerRows(s, files), e, head))
  {
    var g1, nodeRows, edgeRows := Prepared(g, s, files, head, now), LayerRows(s, files), InLayerRows(s, files);
    var g2 := UpsertNodes(g1, nodeRows, head);
    forall id {
      NodeAfterBatch(g1, nodeRows, head, id);
    }
    forall i | 0 <= i < |edgeRows|
      ensures edgeRows[i].id.src in g2.nodes && edgeRows[i].id.dst in g2.nodes
    {
      var e := edgeRows[i].id;
      InLayerRowsWrite(s, files, e);
      LayerRowsWrite(s, files, e.src);
      LayerRowsWrite(s, files, e.dst);
      TouchedItem(Lookup(g1.nodes, e.dst), nodeRows, e.dst, head);
      UntouchedItem(Lookup(g1.nodes, e.src), nodeRows, e.src, head);
      assert LiveFileKey(g, e.src.key);
    }
    forall e {
      EdgeAfterBatch(g2, edgeRows, head, e);
    }
    EdgeAfterBatch(g2, edgeRows, head, EdgeId(InLayer, FileNode(""), FileNode("")));
  }

  predicate LiveAt<K(==)>(m: map<K, Item>, k: K) {
    k in m && m[k].life.Live()
  }

  /** At a commit, each live file under the root is in exactly the layer that it
      classifies to, and in none when it does not classify. */
  lemma EachFileInItsLayer(g: Graph, s: Setting, files: seq<string>, h: Head, now: int, e: EdgeId)
    requires ListsLiveFiles(g, files)
    requires e.etype == InLayer && e.src.tag == File && e.dst.tag == Layer
    requires LiveFileKey(g, e.src.key) && PlaceOf(s, e.src.key) != Elsewhere
    ensures LiveAt(Indexed(g, s, files, Some(h), now).edges, e) <==> BelongsTo(s, e.src.key, e.dst.key)
  {
    EdgeAfterProjection(g, s, files, Some(h), now, e);
  }

  /** What becomes of an IN_LAYER edge of a live file. */
  lemma EdgeAfterProjection(g: Graph, s: Setting, files: seq<string>, head: Option<Head>, now: int, e: EdgeId)
    requires ListsLiveFiles(g, files)
    requires e.etype == InLayer && e.src.tag == File && e.dst.tag == Layer && LiveFileKey(g, e.src.key)
    ensures
      var before, after := Lookup(g.edges, e), Lookup(Indexed(g, s, files, head, now).edges, e);
      var marked :=
        if before.Some? && Stale(s, files, e) && before.value.life.Live() then Some(Marked(before.value, head, now))
        else before;
      if BelongsTo(s, e.src.key, e.dst.key) then after.Some? && after.value.life == Touch(LifeOf(before), head)
      else after == marked
  {
    var g1, rows := Prepared(g, s, files, head, now), InLayerRows(s, files);
    ProjectedAt(g, s, files, head, now);
    InLayerRowsWrite(s, files, e);
    assert Indexed(g, s, files, head, now).edges == Projected(g, s, files, head, now).edges;
    if BelongsTo(s, e.src.key, e.dst.key) {
      TouchedItem(Lookup(g1.edges, e), rows, e, head);
    } else {
      UntouchedItem(Lookup(g1.edges, e), rows, e, head);
    }
  }

  /** An edge that its file's class contradicts is a tombstone of this commit, with its properties and its first and
      last stamps as they were. */
  lemma RetiredStamps(g: Graph, s: Setting, files: seq<string>, h: Head, now: int, e: EdgeId)
    requires ListsLiveFiles(g, files)
    requires e.etype == InLayer && e.src.tag == File && e.dst.tag == Layer
    requires LiveFileKey(g, e.src.key) && LiveAt(g.edges, e)
    requires PlaceOf(s, e.src.key) != Elsewhere && !BelongsTo(s, e.src.key, e.dst.key)
    ensures
      var was, life := g.edges[e].life, Lookup(Indexed(g, s, files, Some(h), now).edges, e);
      && life.Some? && life.value.props == g.edges[e].props
      && life.value.life == Life(was.firstSha, was.firstOrd, was.lastSha, was.lastOrd, Some(h.sha), h.ord, Some(now))
  {
    EdgeAfterProjection(g, s, files, Some(h), now, e);
  }

  /** The row of a layer, from the first file that is in it. */
  lemma {:induction false} FirstLayerRow(s: Setting, files: seq<string>, i: nat) returns (k: nat)
    requires i < |files| && PlaceOf(s, files[i]).In?
    requires forall j :: 0 <= j < i ==> !BelongsTo(s, files[j], LayerKey(s, PlaceOf(s, files[i]).class_))
    ensures k < |LayerRows(s, files)| && LayerRows(s, files)[k] == LayerRow(s, PlaceOf(s, files[i]).class_)
    ensures forall m :: 0 <= m < |LayerRows(s, files)| && LayerRows(s, files)[m].id == LayerRows(s, files)[k].id ==>
      m == k
  {
    var n := |files| - 1;
    var layer := LayerNode(s, PlaceOf(s, files[i]).class_);
    LayerRowsWrite(s, files[..n], layer);
    if i == n {
      k := |LayerRows(s, files[..n])|;
      assert forall j :: 0 <= j < n ==> files[..n][j] == files[j];
    } else {
      k := FirstLayerRow(s, files[..n], i);
      assert LayerRows(s, files[..n])[k].id == layer;
    }
  }

  /** A Layer node carries the name, the rank and the context of the class, those of the first file in it. */
  lemma LayerDescribed(g: Graph, s: Setting, files: seq<string>, h: Head, now: int, i: nat)
    requires ListsLiveFiles(g, files) && i < |files| && PlaceOf(s, files[i]).In?
    requires forall j :: 0 <= j < i ==> !BelongsTo(s, files[j], LayerKey(s, PlaceOf(s, files[i]).class_))
    ensures
      var c := PlaceOf(s, files[i]).class_;
      var layer := NodeId(Layer, s.root + "::layer::" + c.context + "::" + c.name);
      var nodes := Indexed(g, s, files, Some(h), now).nodes;
      && LiveAt(nodes, layer) && Prop(nodes[layer], NameP) == Some(Text(c.name))
      && Prop(nodes[layer], RankP) == Some(Number(c.rank)) && Prop(nodes[layer], ContextP) == Some(Text(c.context))
  {
    var layer := LayerNode(s, PlaceOf(s, files[i]).class_);
    var before, rows := Lookup(Prepared(g, s, files, Some(h), now).nodes, layer), LayerRows(s, files);
    var k := FirstLayerRow(s, files, i);
    ProjectedAt(g, s, files, Some(h), now);
    LastSetting(before, rows, layer, Some(h), NameP, k);
    LastSetting(before, rows, layer, Some(h), RankP, k);
    LastSetting(before, rows, layer, Some(h), ContextP, k);
    assert rows[k].id == layer;
    TouchedItem(before, rows, layer, Some(h));
    assert Lookup(Projected(g, s, files, Some(h), now).nodes, layer) == ItemAfter(before, rows, layer, Some(h));
    assert !SweptAt(Projected(g, s, files, Some(h), now).nodes[layer].life, h);
  }

  /** Outside git nothing can be marked: an edge of a live file is alive exactly
      when it already was, or when it is the file's layer edge and did not exist.
      A file keeps every layer it was ever in, and a dead layer edge is not revived. */
  lemma UnstampedNeverRetires(g: Graph, s: Setting, files: seq<string>, now: int, e: EdgeId)
    requires ListsLiveFiles(g, files)
    requires e.etype == InLayer && e.src.tag == File && e.dst.tag == Layer && LiveFileKey(g, e.src.key)
    ensures LiveAt(Indexed(g, s, files, None, now).edges, e) <==>
      LiveAt(g.edges, e) || (e !in g.edges && BelongsTo(s, e.src.key, e.dst.key))
  {
    EdgeAfterProjection(g, s, files, None, now, e);
  }

  /** So outside git the layer is right exactly when no edge to another layer is
      alive and the right edge is not a tombstone. */
  lemma UnstampedIsRightIff(g: Graph, s: Setting, files: seq<string>, now: int, file: string)
    requires ListsLiveFiles(g, files) && LiveFileKey(g, file)
    ensures
      var right := forall layer :: LiveAt(Indexed(g, s, files, None, now).edges,
                                          EdgeId(InLayer, FileNode(file), NodeId(Layer, layer)))
                                   <==> BelongsTo(s, file, layer);
      right <==> forall layer ::
        var e := EdgeId(InLayer, FileNode(file), NodeId(Layer, layer));
        if BelongsTo(s, file, layer) then e in g.edges ==> LiveAt(g.edges, e) else !LiveAt(g.edges, e)
  {
    forall layer {
      UnstampedNeverRetires(g, s, files, now, EdgeId(InLayer, FileNode(file), NodeId(Layer, layer)));
    }
  }

  /** The File nodes keep their stamps and get or lose their context. */
  lemma ContextFollows(g: Graph, s: Setting, files: seq<string>, head: Option<Head>, now: int, file: string)
    requires ListsLiveFiles(g, files) && LiveFileKey(g, file)
    ensures
      var f, after := FileNode(file), Indexed(g, s, files, head, now).nodes;
      && f in after && after[f].life == g.nodes[f].life
      && Prop(after[f], ContextP) == match PlaceOf(s, file)
         case Elsewhere => Prop(g.nodes[f], ContextP)
         case Unclassified => None
         case In(c) => Some(Text(c.context))
  {
    var f, g1 := FileNode(file), Prepared(g, s, files, head, now);
    ProjectedAt(g, s, files, head, now);
    LayerRowsWrite(s, files, f);
    UntouchedItem(Lookup(g1.nodes, f), LayerRows(s, files), f, head);
    assert Lookup(Projected(g, s, files, head, now).nodes, f) == Lookup(g1.nodes, f);
  }

  predicate Needed(s: Setting, files: seq<string>, layer: string) {
    exists i :: 0 <= i < |files| && BelongsTo(s, files[i], layer)
  }

  /** Exactly which Layer nodes are alive afterwards. */
  lemma LiveLayers(g: Graph, s: Setting, files: seq<string>, h: Head, now: int, layer: string)
    requires ListsLiveFiles(g, files)
    ensures
      var id := NodeId(Layer, layer);
      LiveAt(Indexed(g, s, files, Some(h), now).nodes, id) <==>
        || Needed(s, files, layer)
        || (LiveAt(g.nodes, id) && (g.nodes[id].life.lastSha.None? || g.nodes[id].life.lastSha.value == h.sha))
  {
    var id, g1, rows := NodeId(Layer, layer), Prepared(g, s, files, Some(h), now), LayerRows(s, files);
    ProjectedAt(g, s, files, Some(h), now);
    LayerRowsWrite(s, files, id);
    assert Lookup(g1.nodes, id) == Lookup(g.nodes, id);
    assert Lookup(Projected(g, s, files, Some(h), now).nodes, id) == ItemAfter(Lookup(g.nodes, id), rows, id, Some(h));
    if Needed(s, files, layer) {
      TouchedItem(Lookup(g.nodes, id), rows, id, Some(h));
    } else {
      UntouchedItem(Lookup(g.nodes, id), rows, id, Some(h));
    }
  }

  /** At a commit that no live layer was confirmed at before, the live layers are
      exactly those that some live file classifies to. */
  lemma LiveLayersAtNewCommit(g: Graph, s: Setting, files: seq<string>, h: Head, now: int)
    requires ListsLiveFiles(g, files)
    requires forall id :: LiveAt(g.nodes, id) && id.tag == Layer ==>
      g.nodes[id].life.lastSha.Some? && g.nodes[id].life.lastSha.value != h.sha
    ensures forall layer :: LiveAt(Indexed(g, s, files, Some(h), now).nodes, NodeId(Layer, layer)) <==>
      Needed(s, files, layer)
  {
    forall layer {
      LiveLayers(g, s, files, h, now, layer);
    }
  }

  // ---------------------------------------------------------------- two roots in one graph

  /** For a file under another root: its layer edge stays as it was, but the sweep
      buries the layer exactly if it was last confirmed at another commit and no file
      under this root needs it. */
  lemma ElsewhereLayerSweptIff(g: Graph, s: Setting, files: seq<string>, h: Head, now: int, e: EdgeId)
    requires ListsLiveFiles(g, files)
    requires e.etype == InLayer && e.src.tag == File && e.dst.tag == Layer
    requires LiveFileKey(g, e.src.key) && PlaceOf(s, e.src.key) == Elsewhere && LiveAt(g.nodes, e.dst)
    ensures
      var after, life := Indexed(g, s, files, Some(h), now), g.nodes[e.dst].life;
      && (LiveAt(after.edges, e) <==> LiveAt(g.edges, e))
      && (!LiveAt(after.nodes, e.dst) <==>
           !Needed(s, files, e.dst.key) && life.lastSha.Some? && life.lastSha.value != h.sha)
  {
    EdgeAfterProjection(g, s, files, Some(h), now, e);
    LiveLayers(g, s, files, h, now, e.dst.key);
  }

  lemma FilesStayListed(g: Graph, s: Setting, files: seq<string>, head: Option<Head>, now: int)
    requires ListsLiveFiles(g, files)
    ensures ListsLiveFiles(Indexed(g, s, files, head, now), files)
  {
    forall f
      ensures LiveFileKey(Indexed(g, s, files, head, now), f) <==> LiveFileKey(g, f)
    {
      OtherNodesStay(g, s, files, head, now, FileNode(f));
    }
  }

  /** A layer that some file of the root needs carries the commit afterwards. */
  lemma NeededIsConfirmed(g: Graph, s: Setting, files: seq<string>, h: Head, now: int, layer: string)
    requires ListsLiveFiles(g, files) && Needed(s, files, layer)
    ensures
      var id, after := NodeId(Layer, layer), Indexed(g, s, files, Some(h), now).nodes;
      LiveAt(after, id) && after[id].life.lastSha == Some(h.sha)
  {
    var id, g1, rows := NodeId(Layer, layer), Prepared(g, s, files, Some(h), now), LayerRows(s, files);
    ProjectedAt(g, s, files, Some(h), now);
    LayerRowsWrite(s, files, id);
    TouchedItem(Lookup(g1.nodes, id), rows, id, Some(h));
    assert Lookup(Projected(g, s, files, Some(h), now).nodes, id) == ItemAfter(Lookup(g1.nodes, id), rows, id, Some(h));
  }

  /** Two roots indexed one after the other at different commits: the first root's file
      is still in its layer, and the layer is buried unless the second needs it. */
  lemma SecondRootBuriesLayers(g: Graph, s: Setting, other: Setting, files: seq<string>, file: string, h: Head,
                               later: Head, now: int)
    requires ListsLiveFiles(g, files) && LiveFileKey(g, file)
    requires PlaceOf(s, file).In? && PlaceOf(other, file) == Elsewhere && h.sha != later.sha
    ensures
      var layer := LayerNode(s, PlaceOf(s, file).class_);
      var after := Indexed(Indexed(g, s, files, Some(h), now), other, files, Some(later), now);
      && LiveAt(after.edges, EdgeId(InLayer, FileNode(file), layer))
      && (LiveAt(after.nodes, layer) <==> Needed(other, files, layer.key))
  {
    var layer := LayerNode(s, PlaceOf(s, file).class_);
    var e, first := EdgeId(InLayer, FileNode(file), layer), Indexed(g, s, files, Some(h), now);
    EachFileInItsLayer(g, s, files, h, now, e);
    FilesStayListed(g, s, files, Some(h), now);
    assert file in files && BelongsTo(s, file, layer.key);
    NeededIsConfirmed(g, s, files, h, now, layer.key);
    ElsewhereLayerSweptIff(first, other, files, later, now, e);
  }

  // ---------------------------------------------------------------- what stays untouched

  /** The projection leaves definitions, imports and their history as they are. */
  lemma ProjectionKeepsRefinement(g: Graph, last: GraphRefinement.History, s: Setting, files: seq<string>,
                                  head: Option<Head>, now: int)
    requires ListsLiveFiles(g, files) && GraphRefinement.Refines(g, last)
    ensures GraphRefinement.Refines(Indexed(g, s, files, head, now), last)
  {
    var g' := Indexed(g, s, files, head, now);
    forall e: EdgeId | e.etype != InLayer
      ensures Lookup(g'.edges, e) == Lookup(g.edges, e)
    {
      OtherEdgesStay(g, s, files, head, now, e);
    }
    forall id: NodeId | id.tag == File || id.tag == Symbol
      ensures LifeOf(Lookup(g'.nodes, id)) == LifeOf(Lookup(g.nodes, id))
      ensures id.tag == Symbol ==> Lookup(g'.nodes, id) == Lookup(g.nodes, id)
      ensures id.tag == File ==> SameButContext(Lookup(g.nodes, id), Lookup(g'.nodes, id))
    {
      OtherNodesStay(g, s, files, head, now, id);
    }
    SameViewRefines(g, g', last);
  }

  lemma OtherEdgesStay(g: Graph, s: Setting, files: seq<string>, head: Option<Head>, now: int, e: EdgeId)
    requires ListsLiveFiles(g, files) && e.etype != InLayer
    ensures Lookup(Indexed(g, s, files, head, now).edges, e) == Lookup(g.edges, e)
  {
    ProjectedAt(g, s, files, head, now);
    InLayerRowsWrite(s, files, e);
    UntouchedItem(Lookup(Prepared(g, s, files, head, now).edges, e), InLayerRows(s, files), e, head);
  }

  /** No property of the item changes except its context. */
  ghost predicate SameButContext(before: Option<Item>, after: Option<Item>) {
    && (before.Some? <==> after.Some?)
    && (before.Some? ==>
        forall name: PropName :: name != ContextP ==> Prop(after.value, name) == Prop(before.value, name))
  }

  lemma OtherNodesStay(g: Graph, s: Setting, files: seq<string>, head: Option<Head>, now: int, id: NodeId)
    requires ListsLiveFiles(g, files) && (id.tag == File || id.tag == Symbol)
    ensures
      var before, after := Lookup(g.nodes, id), Lookup(Indexed(g, s, files, head, now).nodes, id);
      && LifeOf(after) == LifeOf(before) && SameButContext(before, after)
      && (id.tag == Symbol ==> after == before)
  {
    var g1 := Prepared(g, s, files, head, now);
    ProjectedAt(g, s, files, head, now);
    LayerRowsWrite(s, files, id);
    UntouchedItem(Lookup(g1.nodes, id), LayerRows(s, files), id, head);
    assert Lookup(Indexed(g, s, files, head, now).nodes, id) == Lookup(g1.nodes, id);
  }

  lemma SameViewRefines(g: Graph, g': Graph, last: GraphRefinement.History)
    requires GraphRefinement.Refines(g, last)
    requires forall e: EdgeId :: e.etype != InLayer ==> Lookup(g'.edges, e) == Lookup(g.edges, e)
    requires forall id: NodeId :: id.tag == File ==> LifeOf(Lookup(g'.nodes, id)) == LifeOf(Lookup(g.nodes, id))
    requires forall id: NodeId :: id.tag == Symbol ==> Lookup(g'.nodes, id) == Lookup(g.nodes, id)
    requires forall id: NodeId :: id.tag == File ==> SameButContext(Lookup(g.nodes, id), Lookup(g'.nodes, id))
    ensures GraphRefinement.Refines(g', last)
  {
    forall p
      ensures GraphRefinement.LiveNode(g', FileNode(p)) <==> p in last
    {
      assert LifeOf(Lookup(g'.nodes, FileNode(p))) == LifeOf(Lookup(g.nodes, FileNode(p)));
      assert GraphRefinement.LiveNode(g, FileNode(p)) <==> p in last;
    }
    SymbolsCarryOver(g, g', last);
    EdgesCarryOver(g, g', last);
    UsesCarryOver(g, g', last);
    PropsCarryOver(g, g', last);
  }

  lemma UsesCarryOver(g: Graph, g': Graph, last: GraphRefinement.History)
    requires GraphRefinement.UsesAgree(g, last)
    requires forall e: EdgeId :: e.etype != InLayer ==> Lookup(g'.edges, e) == Lookup(g.edges, e)
    requires forall id: NodeId :: id.tag == Symbol ==> Lookup(g'.nodes, id) == Lookup(g.nodes, id)
    ensures GraphRefinement.UsesAgree(g', last)
  {
    forall e: EdgeId | IsUse(e.etype)
      ensures GraphRefinement.UseAgrees(g', last, e)
    {
      assert GraphRefinement.UseAgrees(g, last, e);
      assert Lookup(g'.edges, e) == Lookup(g.edges, e);
      if e.dst.tag == Symbol {
        assert Lookup(g'.nodes, e.dst) == Lookup(g.nodes, e.dst);
      }
    }
  }

  lemma PropsCarryOver(g: Graph, g': Graph, last: GraphRefinement.History)
    requires GraphRefinement.FilesDescribed(g, last) && GraphRefinement.PlaceholdersStand(g)
    requires forall id: NodeId :: id.tag == Symbol ==> Lookup(g'.nodes, id) == Lookup(g.nodes, id)
    requires forall id: NodeId :: id.tag == File ==> SameButContext(Lookup(g.nodes, id), Lookup(g'.nodes, id))
    ensures GraphRefinement.FilesDescribed(g', last) && GraphRefinement.PlaceholdersStand(g')
  {
    forall p | p in last && FileNode(p) in g'.nodes
      ensures GraphRefinement.FileDescribed(g'.nodes[FileNode(p)], last[p])
    {
      assert SameButContext(Lookup(g.nodes, FileNode(p)), Lookup(g'.nodes, FileNode(p)));
    }
    assert forall k :: Lookup(g'.nodes, SymbolNode(k)) == Lookup(g.nodes, SymbolNode(k));
  }

  lemma SymbolsCarryOver(g: Graph, g': Graph, last: GraphRefinement.History)
    requires GraphRefinement.SymbolsAgree(g, last)
    requires forall id: NodeId :: id.tag == Symbol ==> Lookup(g'.nodes, id) == Lookup(g.nodes, id)
    ensures GraphRefinement.SymbolsAgree(g', last)
  {
    assert forall k :: Lookup(g'.nodes, SymbolNode(k)) == Lookup(g.nodes, SymbolNode(k));
  }

  lemma EdgesCarryOver(g: Graph, g': Graph, last: GraphRefinement.History)
    requires GraphRefinement.DefinesAgree(g, last) && GraphRefinement.ImportsAgree(g, last)
    requires forall e: EdgeId :: e.etype != InLayer ==> Lookup(g'.edges, e) == Lookup(g.edges, e)
    ensures GraphRefinement.DefinesAgree(g', last) && GraphRefinement.ImportsAgree(g', last)
  {
    assert forall p, k :: Lookup(g'.edges, DefinesEdge(p, k)) == Lookup(g.edges, DefinesEdge(p, k));
    forall p, m
      ensures GraphRefinement.LiveEdge(g', ImportsEdge(p, m)) <==> GraphRefinement.LiveEdge(g, ImportsEdge(p, m))
    {
      assert Lookup(g'.edges, ImportsEdge(p, m)) == Lookup(g.edges, ImportsEdge(p, m));
    }
  }
}
