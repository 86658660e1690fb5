/** Writing resolutions back: edges move from placeholders to their targets, then
    placeholders that nothing points at any more are removed. */
module ResolverWriteback {
  import opened Wrappers
  import opened Folds
  import R = Resolver
  import ResolverPass
  import SymbolKeys
  import Extraction

  datatype Node = File(key: string) | Symbol(key: string) | Type(key: string) | Elsewhere(tag: string, key: string)

  /** The three relations that may end at a placeholder, and all others. */
  datatype Rel = Use(kind: R.EdgeKind) | Other(name: string)

  datatype Link = Link(src: Node, rel: Rel, dst: Node)

  datatype Props = Props(confidence: Option<R.Confidence>, resolved: bool, via: Option<string>)

  datatype Graph = Graph(nodes: set<Node>, links: map<Link, Props>)

  type Row = ResolverPass.Resolution

  function Prefix(): string {
    "name::"
  }

  predicate Placeholder(n: Node) {
    n.Symbol? && Prefix() <= n.key
  }

  // ---------------------------------------------------------------- one row

  function TargetNode(r: Row): Node {
    match r.target
    case InProject(key, _) => Symbol(key)
    case FromAssembly(key, _) => Type(key)
  }

  function Old(r: Row): Link {
    Link(File(r.file), Use(r.kind), Symbol(r.placeholder))
  }

  function New(r: Row): Link {
    Link(File(r.file), Use(r.kind), TargetNode(r))
  }

  /** Both MATCH clauses find something. */
  predicate Matches(g: Graph, r: Row) {
    Old(r) in g.links && TargetNode(r) in g.nodes
  }

  function Lookup(g: Graph, l: Link): Option<Props> {
    if l in g.links then Some(g.links[l]) else None
  }

  /** MERGE keeps what an existing edge says; SET overwrites, `via` only for types. */
  function Settled(before: Option<Props>, r: Row): Props {
    match r.target
    case InProject(_, confidence) => Props(Some(confidence), true, if before.Some? then before.value.via else None)
    case FromAssembly(_, assembly) => Props(Some(R.External), true, Some(assembly))
  }

  function RowStep(): (Graph, Row) -> Graph {
    (g: Graph, r: Row) => Rewired(g, r)
  }

  function Rewired(g: Graph, r: Row): Graph {
    if Matches(g, r)
    then
      var rest := g.(links := g.links - {Old(r)});
      rest.(links := rest.links[New(r) := Settled(Lookup(rest, New(r)), r)])
    else g
  }

  // ---------------------------------------------------------------- all rows

  ghost predicate DistinctSources(rows: seq<Row>) {
    forall i, j :: 0 <= i < j < |rows| ==> Old(rows[i]) != Old(rows[j])
  }

  /** Each edge is resolved once, from a placeholder to a node that is none. */
  ghost predicate WellFormed(rows: seq<Row>) {
    && DistinctSources(rows)
    && (forall i :: 0 <= i < |rows| ==> Placeholder(Old(rows[i]).dst) && !Placeholder(TargetNode(rows[i])))
  }

  /** Some row takes the link away. */
  ghost predicate Moves(g: Graph, rows: seq<Row>, l: Link) {
    exists i :: 0 <= i < |rows| && Matches(g, rows[i]) && Old(rows[i]) == l
  }

  /** The last row that leads to the link. */
  function LastHit(g: Graph, rows: seq<Row>, l: Link): Option<Row> {
    if rows == [] then None
    else
      var last := rows[|rows| - 1];
      if Matches(g, last) && New(last) == l then Some(last) else LastHit(g, rows[..|rows| - 1], l)
  }

  lemma {:induction false} LastHitIsAHit(g: Graph, rows: seq<Row>, l: Link)
    ensures LastHit(g, rows, l).Some? <==> exists i :: 0 <= i < |rows| && Matches(g, rows[i]) && New(rows[i]) == l
    ensures LastHit(g, rows, l).Some? ==> LastHit(g, rows, l).value in rows && New(LastHit(g, rows, l).value) == l
  {
    if rows != [] {
      LastHitIsAHit(g, rows[..|rows| - 1], l);
    }
  }

  /** What one link looks like after all rows. */
  ghost function Image(g: Graph, rows: seq<Row>, l: Link): Option<Props> {
    match LastHit(g, rows, l)
    case Some(r) => Some(Settled(Lookup(g, l), r))
    case None => if Moves(g, rows, l) then None else Lookup(g, l)
  }

  lemma MovesSnoc(g: Graph, rows: seq<Row>, r: Row, l: Link)
    ensures Moves(g, rows + [r], l) <==> Moves(g, rows, l) || (Matches(g, r) && Old(r) == l)
  {
    var all := rows + [r];
    assert all[|rows|] == r;
    if Moves(g, rows, l) {
      var i :| 0 <= i < |rows| && Matches(g, rows[i]) && Old(rows[i]) == l;
      assert all[i] == rows[i];
    }
  }

  /** After some rows the graph's nodes are untouched and its links are the image. */
  ghost predicate IsImage(g: Graph, rows: seq<Row>, after: Graph) {
    after.nodes == g.nodes && forall l :: Lookup(after, l) == Image(g, rows, l)
  }

  /** No earlier row has touched a later row's placeholder edge. */
  lemma SourceUntouched(g: Graph, rows: seq<Row>, r: Row)
    requires WellFormed(rows + [r])
    ensures Image(g, rows, Old(r)) == Lookup(g, Old(r))
  {
    var all := rows + [r];
    assert all[|rows|] == r;
    assert forall i :: 0 <= i < |rows| ==> all[i] == rows[i];
    LastHitIsAHit(g, rows, Old(r));
  }

  lemma ImageSnoc(g: Graph, rows: seq<Row>, after: Graph, r: Row, l: Link)
    requires WellFormed(rows + [r]) && IsImage(g, rows, after)
    ensures Lookup(Rewired(after, r), l) == Image(g, rows + [r], l)
  {
    var all := rows + [r];
    assert all[..|rows|] == rows && all[|rows|] == r;
    SourceUntouched(g, rows, r);
    assert Lookup(after, Old(r)) == Image(g, rows, Old(r));
    MovesSnoc(g, rows, r, l);
    assert Lookup(after, l) == Image(g, rows, l);
    if Matches(g, r) && l == New(r) {
      TargetNeverMoves(g, rows, l);
      SettledTwice(g, rows, r, l);
    }
    if Matches(g, r) && l == Old(r) {
      assert LastHit(g, all, l).None? by {
        LastHitIsAHit(g, all, l);
      }
    }
  }

  lemma TargetNeverMoves(g: Graph, rows: seq<Row>, l: Link)
    requires forall i :: 0 <= i < |rows| ==> Placeholder(Old(rows[i]).dst)
    requires !Placeholder(l.dst)
    ensures !Moves(g, rows, l)
  {
  }

  /** A second row to the same target overwrites all that the first one set. */
  lemma SettledTwice(g: Graph, rows: seq<Row>, r: Row, l: Link)
    requires New(r) == l && !Moves(g, rows, l)
    ensures Settled(Image(g, rows, l), r) == Settled(Lookup(g, l), r)
  {
    LastHitIsAHit(g, rows, l);
  }

  /** Every link after the rows, in terms of the graph before them. */
  lemma {:induction false} WritebackIsImage(g: Graph, rows: seq<Row>, i: nat)
    requires i <= |rows| && WellFormed(rows)
    ensures IsImage(g, rows[..i], Fold(RowStep(), g, rows[..i]))
  {
    if i > 0 {
      WritebackIsImage(g, rows, i - 1);
      FoldStep(RowStep(), g, rows, i - 1);
      var after := Fold(RowStep(), g, rows[..i - 1]);
      assert rows[..i] == rows[..i - 1] + [rows[i - 1]];
      forall l
        ensures Lookup(Rewired(after, rows[i - 1]), l) == Image(g, rows[..i], l)
      {
        ImageSnoc(g, rows[..i - 1], after, rows[i - 1], l);
      }
    }
  }

  // ---------------------------------------------------------------- six batches

  datatype Batch = Batch(kind: R.EdgeKind, toType: bool)

  function BatchOf(): Row -> Batch {
    (r: Row) => Batch(r.kind, TargetNode(r).Type?)
  }

  const BATCHES := [
    Batch(R.Calls, false), Batch(R.Calls, true), Batch(R.Injects, false), Batch(R.Injects, true),
    Batch(R.References, false), Batch(R.References, true)]

  /** The rows in the order in which the six queries write them. */
  function Batched(rows: seq<Row>): seq<Row> {
    GroupedBy(BatchOf(), BATCHES, rows)
  }

  lemma BatchesListed(rows: seq<Row>)
    ensures Lists(BATCHES, BatchOf(), rows)
  {
    forall i | 0 <= i < |rows|
      ensures BatchOf()(rows[i]) in BATCHES
    {
      var b := BatchOf()(rows[i]);
      match b.kind
      case Calls => assert b == BATCHES[0] || b == BATCHES[1];
      case Injects => assert b == BATCHES[2] || b == BATCHES[3];
      case References => assert b == BATCHES[4] || b == BATCHES[5];
    }
  }

  lemma {:induction false} SelectRejectCounts(key: Row -> Batch, b: Batch, rows: seq<Row>)
    ensures multiset(rows) == multiset(Select(key, b, rows)) + multiset(Reject(key, b, rows))
  {
    if rows != [] {
      SelectRejectCounts(key, b, rows[1..]);
      assert rows == [rows[0]] + rows[1..];
    }
  }

  lemma {:induction false} GroupedPermutes(key: Row -> Batch, order: seq<Batch>, rows: seq<Row>)
    requires Lists(order, key, rows)
    ensures multiset(GroupedBy(key, order, rows)) == multiset(rows)
  {
    if order != [] {
      var rest := Reject(key, order[0], rows);
      SelectRejectCounts(key, order[0], rows);
      RejectKeys(key, order[0], rows);
      assert forall b :: b in order && b != order[0] ==> b in order[1..];
      GroupedPermutes(key, order[1..], rest);
      GroupedAfterReject(key, order[0], order[1..], rows);
    }
  }

  lemma CountedTwice(rows: seq<Row>, i: int, j: int)
    requires 0 <= i < j < |rows| && rows[i] == rows[j]
    ensures multiset(rows)[rows[i]] >= 2
  {
    assert rows == rows[..j] + [rows[j]] + rows[j + 1..];
    assert rows[i] in rows[..j];
  }

  lemma CountedOnce(rows: seq<Row>, r: Row)
    requires forall i, j :: 0 <= i < j < |rows| ==> rows[i] != rows[j]
    ensures multiset(rows)[r] <= 1
    decreases |rows|
  {
    if rows != [] {
      var init, last := rows[..|rows| - 1], rows[|rows| - 1];
      assert rows == init + [last];
      CountedOnce(init, r);
      if r == last {
        assert r !in init;
      }
    }
  }

  lemma WellFormedPermutes(a: seq<Row>, b: seq<Row>)
    requires WellFormed(a) && multiset(a) == multiset(b)
    ensures WellFormed(b)
  {
    forall i | 0 <= i < |b|
      ensures b[i] in a
    {
      assert b[i] in multiset(b);
    }
    forall i, j | 0 <= i < j < |b|
      ensures Old(b[i]) != Old(b[j])
    {
      CountedOnce(a, b[i]);
      if b[i] == b[j] {
        CountedTwice(b, i, j);
      }
      assert b[i] in a && b[j] in a;
    }
  }

  lemma MovesPermutes(g: Graph, a: seq<Row>, b: seq<Row>, l: Link)
    requires multiset(a) == multiset(b)
    ensures Moves(g, a, l) <==> Moves(g, b, l)
  {
    if Moves(g, a, l) {
      MovesWith(g, a, b, l);
    }
    if Moves(g, b, l) {
      MovesWith(g, b, a, l);
    }
  }

  lemma MovesWith(g: Graph, a: seq<Row>, b: seq<Row>, l: Link)
    requires multiset(a) == multiset(b) && Moves(g, a, l)
    ensures Moves(g, b, l)
  {
    var i :| 0 <= i < |a| && Matches(g, a[i]) && Old(a[i]) == l;
    assert a[i] in multiset(a);
    assert a[i] in b;
  }

  lemma {:induction false} LastHitAppend(g: Graph, a: seq<Row>, b: seq<Row>, l: Link)
    ensures LastHit(g, a + b, l) == if LastHit(g, b, l).Some? then LastHit(g, b, l) else LastHit(g, a, l)
  {
    if b == [] {
      assert a + b == a;
    } else {
      assert (a + b)[..|a + b| - 1] == a + b[..|b| - 1];
      LastHitAppend(g, a, b[..|b| - 1], l);
    }
  }

  /** Only the batch of a link's relation and target label can lead to it. */
  lemma {:induction false} LastHitInBatch(g: Graph, b: Batch, rows: seq<Row>, l: Link)
    ensures LastHit(g, Select(BatchOf(), b, rows), l) ==
      if l.rel.Use? && b == Batch(l.rel.kind, l.dst.Type?) then LastHit(g, rows, l) else None
  {
    if rows != [] {
      var init, last := rows[..|rows| - 1], rows[|rows| - 1];
      assert rows == init + [last];
      LastHitInBatch(g, b, init, l);
      Folds.SelectSnoc(BatchOf(), b, init, last);
      LastHitAppend(g, Select(BatchOf(), b, init), [last], l);
      assert [last][..0] == [];
    }
  }

  lemma {:induction false} LastHitGrouped(g: Graph, order: seq<Batch>, rows: seq<Row>, l: Link)
    ensures LastHit(g, GroupedBy(BatchOf(), order, rows), l) ==
      if l.rel.Use? && Batch(l.rel.kind, l.dst.Type?) in order then LastHit(g, rows, l) else None
  {
    if order != [] {
      LastHitGrouped(g, order[1..], rows, l);
      LastHitInBatch(g, order[0], rows, l);
      LastHitAppend(g, Select(BatchOf(), order[0], rows), GroupedBy(BatchOf(), order[1..], rows), l);
    }
  }

  lemma LastHitBatched(g: Graph, rows: seq<Row>, l: Link)
    ensures LastHit(g, Batched(rows), l) == LastHit(g, rows, l)
  {
    LastHitGrouped(g, BATCHES, rows, l);
    LastHitIsAHit(g, rows, l);
    BatchesListed(rows);
    if LastHit(g, rows, l).Some? {
      var r := LastHit(g, rows, l).value;
      assert BatchOf()(r) in BATCHES;
    }
  }

  /** The grouping into six queries is invisible: links, confidences and
      assemblies are those of the resolutions in their own order. */
  lemma BatchesAreImage(g: Graph, rows: seq<Row>)
    requires WellFormed(rows)
    ensures IsImage(g, rows, Fold(RowStep(), g, Batched(rows)))
  {
    var ordered := Batched(rows);
    BatchesListed(rows);
    GroupedPermutes(BatchOf(), BATCHES, rows);
    WellFormedPermutes(rows, ordered);
    WritebackIsImage(g, ordered, |ordered|);
    assert ordered[..|ordered|] == ordered;
    forall l
      ensures Image(g, ordered, l) == Image(g, rows, l)
    {
      LastHitBatched(g, rows, l);
      MovesPermutes(g, rows, ordered, l);
    }
  }

  // ---------------------------------------------------------------- orphans

  function Placeholders(g: Graph): set<Node> {
    set n | n in g.nodes && Placeholder(n)
  }

  predicate PointedAt(g: Graph, n: Node) {
    exists l :: l in g.links && l.dst == n && l.rel.Use?
  }

  /** The graph without its orphaned placeholders; a node takes its links along. */
  function Cleaned(g: Graph): Graph {
    var gone := set n | n in g.nodes && Placeholder(n) && !PointedAt(g, n);
    Graph(g.nodes - gone, map l | l in g.links && l.src !in gone && l.dst !in gone :: g.links[l])
  }

  ghost predicate NoDangling(g: Graph) {
    forall l :: l in g.links ==> l.src in g.nodes && l.dst in g.nodes
  }

  /** Links start at files, and only the three relations end at placeholders. */
  ghost predicate Shaped(g: Graph) {
    forall l :: l in g.links ==> !Placeholder(l.src) && (Placeholder(l.dst) ==> l.rel.Use?)
  }

  class Writeback {
    var graph: Graph

    constructor (g: Graph)
      ensures graph == g
    {
      graph := g;
    }

    /** One UNWIND query. */
    method RunBatch(rows: seq<Row>)
      modifies this
      ensures graph == Fold(RowStep(), old(graph), rows)
    {
      for i := 0 to |rows|
        invariant graph == Fold(RowStep(), old(graph), rows[..i])
      {
        FoldStep(RowStep(), old(graph), rows, i);
        var r := rows[i];
        if Matches(graph, r) {
          graph := graph.(links := graph.links - {Old(r)});
          graph := graph.(links := graph.links[New(r) := Settled(Lookup(graph, New(r)), r)]);
        }
      }
      assert rows[..|rows|] == rows;
    }

    /** Six batches, of which the empty ones send no query. */
    method ApplyResolutions(rows: seq<Row>)
      modifies this
      ensures graph == Fold(RowStep(), old(graph), Batched(rows))
      ensures WellFormed(rows) ==> IsImage(old(graph), rows, graph)
    {
      for b := 0 to |BATCHES|
        invariant graph == Fold(RowStep(), old(graph), GroupedBy(BatchOf(), BATCHES[..b], rows))
      {
        var bucket := Select(BatchOf(), BATCHES[b], rows);
        GroupAppend(RowStep(), BatchOf(), old(graph), BATCHES, b, rows);
        if bucket != [] {
          RunBatch(bucket);
        }
      }
      assert BATCHES[..|BATCHES|] == BATCHES;
      BatchesWhenWellFormed(old(graph), rows);
    }

    /** Deletes the orphans, unless the snapshot had no placeholder at all. */
    method CleanupOrphans(known: set<Node>)
      requires Placeholders(graph) <= known
      modifies this
      ensures graph == Cleaned(old(graph))
    {
      if known == {} {
        NothingToClean(graph);
        return;
      }
      graph := Cleaned(graph);
    }

    /** The write-back half of a resolver pass. */
    method Finish(rows: seq<Row>, known: set<Node>)
      requires WellFormed(rows) && Placeholders(graph) <= known
      modifies this
      ensures exists mid :: IsImage(old(graph), rows, mid) && graph == Cleaned(mid)
    {
      ApplyResolutions(rows);
      ghost var mid := graph;
      assert IsImage(old(graph), rows, mid);
      CleanupOrphans(known);
    }
  }

  lemma BatchesWhenWellFormed(g: Graph, rows: seq<Row>)
    ensures WellFormed(rows) ==> IsImage(g, rows, Fold(RowStep(), g, Batched(rows)))
  {
    if WellFormed(rows) {
      BatchesAreImage(g, rows);
    }
  }

  lemma NothingToClean(g: Graph)
    requires Placeholders(g) == {}
    ensures Cleaned(g) == g
  {
    assert forall n :: n in g.nodes && Placeholder(n) ==> n in Placeholders(g);
    assert Cleaned(g).nodes == g.nodes;
    assert Cleaned(g).links == g.links;
  }

  // ---------------------------------------------------------------- what a file ends up using

  /** A file's targets under one relation. */
  function Targets(g: Graph, kind: R.EdgeKind, file: string): set<Node> {
    set l | l in g.links && l.src == File(file) && l.rel == Use(kind) :: l.dst
  }

  /** The old target, or what its row replaces it by. */
  ghost function Replaced(g: Graph, rows: seq<Row>, l: Link): Node {
    if i: int :| 0 <= i < |rows| && Matches(g, rows[i]) && Old(rows[i]) == l then TargetNode(rows[i]) else l.dst
  }

  lemma ReplacedIs(g: Graph, rows: seq<Row>, l: Link, i: int)
    requires WellFormed(rows) && 0 <= i < |rows| && Matches(g, rows[i]) && Old(rows[i]) == l
    ensures Replaced(g, rows, l) == TargetNode(rows[i])
  {
    var k: int :| 0 <= k < |rows| && Matches(g, rows[k]) && Old(rows[k]) == l &&
      Replaced(g, rows, l) == TargetNode(rows[k]);
    assert k == i;
  }

  /** A file's targets are its old ones with the resolved placeholders replaced. */
  lemma TargetsAreReplaced(g: Graph, rows: seq<Row>, after: Graph, kind: R.EdgeKind, file: string)
    requires WellFormed(rows) && IsImage(g, rows, after)
    ensures forall n :: n in Targets(after, kind, file) <==>
      exists l :: l in g.links && l.src == File(file) && l.rel == Use(kind) && Replaced(g, rows, l) == n
  {
    forall n
      ensures n in Targets(after, kind, file) <==>
        exists l :: l in g.links && l.src == File(file) && l.rel == Use(kind) && Replaced(g, rows, l) == n
    {
      var here := Link(File(file), Use(kind), n);
      LastHitIsAHit(g, rows, here);
      assert Lookup(after, here) == Image(g, rows, here);
      assert n in Targets(after, kind, file) <==> here in after.links;
      if here in after.links {
        if LastHit(g, rows, here).Some? {
          var i :| 0 <= i < |rows| && Matches(g, rows[i]) && New(rows[i]) == here;
          ReplacedIs(g, rows, Old(rows[i]), i);
        } else {
          assert Replaced(g, rows, here) == n;
        }
      }
      if l :| l in g.links && l.src == File(file) && l.rel == Use(kind) && Replaced(g, rows, l) == n {
        if Moves(g, rows, l) {
          var i :| 0 <= i < |rows| && Matches(g, rows[i]) && Old(rows[i]) == l;
          ReplacedIs(g, rows, l, i);
          assert New(rows[i]) == here;
        } else {
          assert l == here;
        }
      }
    }
  }

  /** No later row leads to the same node. */
  ghost predicate LastTo(g: Graph, rows: seq<Row>, i: nat)
    requires i < |rows|
  {
    forall j :: i < j < |rows| && Matches(g, rows[j]) ==> New(rows[j]) != New(rows[i])
  }

  lemma {:induction false} LastHitAt(g: Graph, rows: seq<Row>, i: nat)
    requires i < |rows| && Matches(g, rows[i]) && LastTo(g, rows, i)
    ensures LastHit(g, rows, New(rows[i])) == Some(rows[i])
  {
    if i < |rows| - 1 {
      LastHitAt(g, rows[..|rows| - 1], i);
    }
  }

  /** What the edge of a resolved row says afterwards: an edge to a symbol carries the row's confidence, and as
      `via_assembly` what was there before; an edge to a type is external and carries the assembly. */
  lemma ResolvedCarries(g: Graph, rows: seq<Row>, after: Graph, i: nat)
    requires WellFormed(rows) && IsImage(g, rows, after) && i < |rows| && LastTo(g, rows, i)
    requires
      var r := rows[i];
      && Link(File(r.file), Use(r.kind), Symbol(r.placeholder)) in g.links
      && (if r.target.InProject? then Symbol(r.target.key) else Type(r.target.key)) in g.nodes
    ensures
      var r := rows[i];
      match r.target
      case InProject(key, confidence) =>
        var l := Link(File(r.file), Use(r.kind), Symbol(key));
        && l in after.links && after.links[l].confidence == Some(confidence) && after.links[l].resolved
        && after.links[l].via == (if l in g.links then g.links[l].via else None)
      case FromAssembly(key, assembly) =>
        var l := Link(File(r.file), Use(r.kind), Type(key));
        l in after.links && after.links[l] == Props(Some(R.External), true, Some(assembly))
  {
    LastHitAt(g, rows, i);
    assert Lookup(after, New(rows[i])) == Image(g, rows, New(rows[i]));
  }

  /** Links of other relations, and links that no row names, are left alone. */
  lemma OthersAreKept(g: Graph, rows: seq<Row>, after: Graph, l: Link)
    requires WellFormed(rows) && IsImage(g, rows, after)
    requires forall i :: 0 <= i < |rows| ==> l != Old(rows[i]) && l != New(rows[i])
    ensures Lookup(after, l) == Lookup(g, l)
  {
    LastHitIsAHit(g, rows, l);
  }

  /** Writing the same resolutions again finds nothing to do. */
  lemma {:induction false} SecondTimeIsIdle(g: Graph, rows: seq<Row>, after: Graph, i: nat)
    requires WellFormed(rows) && IsImage(g, rows, after) && i <= |rows|
    ensures Fold(RowStep(), after, rows[..i]) == after
  {
    if i > 0 {
      SecondTimeIsIdle(g, rows, after, i - 1);
      FoldStep(RowStep(), after, rows, i - 1);
      var r := rows[i - 1];
      assert Lookup(after, Old(r)) == Image(g, rows, Old(r));
      LastHitIsAHit(g, rows, Old(r));
      if Matches(g, r) {
        assert Moves(g, rows, Old(r));
      }
      assert !Matches(after, r);
    }
  }

  // ---------------------------------------------------------------- after the clean-up

  /** No edge dangles: not after the rows, and not after the clean-up. */
  lemma NothingDangles(g: Graph, rows: seq<Row>, after: Graph)
    requires WellFormed(rows) && IsImage(g, rows, after) && NoDangling(g) && Shaped(g)
    ensures NoDangling(after) && Shaped(after)
    ensures NoDangling(Cleaned(after)) && Shaped(Cleaned(after))
  {
    forall l | l in after.links
      ensures l.src in after.nodes && l.dst in after.nodes
      ensures !Placeholder(l.src) && (Placeholder(l.dst) ==> l.rel.Use?)
    {
      assert Lookup(after, l) == Image(g, rows, l);
      LastHitIsAHit(g, rows, l);
      if LastHit(g, rows, l).Some? {
        var i :| 0 <= i < |rows| && Matches(g, rows[i]) && New(rows[i]) == l;
        assert Old(rows[i]) in g.links;
      }
    }
  }

  /** Cleaning removes exactly the placeholders that nothing points at, and no edge. */
  lemma CleaningIsExact(g: Graph)
    requires NoDangling(g) && Shaped(g)
    ensures Cleaned(g).links == g.links
    ensures forall n :: n in Cleaned(g).nodes <==> n in g.nodes && (Placeholder(n) ==> PointedAt(g, n))
    ensures forall n :: n in Cleaned(g).nodes && Placeholder(n) ==> PointedAt(Cleaned(g), n)
    ensures Cleaned(Cleaned(g)) == Cleaned(g)
  {
    var gone := set n | n in g.nodes && Placeholder(n) && !PointedAt(g, n);
    forall l | l in g.links
      ensures l.src !in gone && l.dst !in gone
    {
      if Placeholder(l.dst) {
        assert PointedAt(g, l.dst);
      }
    }
    assert Cleaned(g).links == g.links;
    forall n
      ensures PointedAt(Cleaned(g), n) <==> PointedAt(g, n)
    {
    }
    var again := set n | n in Cleaned(g).nodes && Placeholder(n) && !PointedAt(Cleaned(g), n);
    assert again == {};
    assert Cleaned(Cleaned(g)).links == g.links;
  }

  /** The placeholder of a resolved edge survives exactly when some other file's
      edge to it was left unresolved. */
  lemma PlaceholderSurvivesIff(g: Graph, rows: seq<Row>, after: Graph, p: Node)
    requires WellFormed(rows) && IsImage(g, rows, after) && NoDangling(g) && Shaped(g)
    requires p in g.nodes && Placeholder(p)
    ensures p in Cleaned(after).nodes <==> exists l :: l in g.links && l.dst == p && l.rel.Use? && !Moves(g, rows, l)
  {
    NothingDangles(g, rows, after);
    CleaningIsExact(after);
    if l :| l in after.links && l.dst == p && l.rel.Use? {
      assert Lookup(after, l) == Image(g, rows, l);
      LastHitIsAHit(g, rows, l);
    }
    if l :| l in g.links && l.dst == p && l.rel.Use? && !Moves(g, rows, l) {
      assert Lookup(after, l) == Image(g, rows, l);
      assert l in after.links;
    }
  }

  /** The placeholders are the nodes under which the pipeline writes calls, references and injections; no symbol that a
      file declares is one. */
  lemma PlaceholdersAreNamed(name: string, path: string, s: Extraction.Sym)
    requires SymbolKeys.GoodPath(path)
    ensures Placeholder(Symbol(SymbolKeys.PlaceholderKey(name)))
    ensures !Placeholder(Symbol(SymbolKeys.SymbolKey(path, s)))
  {
    var key := SymbolKeys.SymbolKey(path, s);
    SymbolKeys.OwnerOfSymbolKey(path, s);
    if Placeholder(Symbol(key)) {
      assert key == SymbolKeys.PlaceholderKey(key[6..]);
      SymbolKeys.OwnerOfPlaceholder(key[6..]);
    }
  }

  // ---------------------------------------------------------------- the rows of a pass

  /** The load query returns each edge once. */
  ghost predicate EachOnce(edges: seq<R.Edge>) {
    forall i, j :: 0 <= i < j < |edges| ==>
      edges[i].file != edges[j].file || edges[i].placeholder != edges[j].placeholder
  }

  /** `f` never answers with a placeholder. */
  ghost predicate Proper(f: R.Edge -> R.Outcome) {
    forall e :: f(e).target.Some? && f(e).target.value.InProject? ==> !(Prefix() <= f(e).target.value.key)
  }

  ghost predicate ComesFrom(f: R.Edge -> R.Outcome, kind: R.EdgeKind, edges: seq<R.Edge>, r: Row) {
    r.kind == kind && exists i ::
      && 0 <= i < |edges| && r.file == edges[i].file
      && r.placeholder == edges[i].placeholder && f(edges[i]).target == Some(r.target)
  }

  lemma {:induction false} ResolutionsComeFrom(f: R.Edge -> R.Outcome, kind: R.EdgeKind, edges: seq<R.Edge>)
    ensures forall r :: r in ResolverPass.ResolutionsOf(f, kind, edges) ==> ComesFrom(f, kind, edges, r)
  {
    if edges != [] {
      var init := edges[..|edges| - 1];
      ResolutionsComeFrom(f, kind, init);
      forall r | r in ResolverPass.ResolutionsOf(f, kind, edges)
        ensures ComesFrom(f, kind, edges, r)
      {
        if r in ResolverPass.ResolutionsOf(f, kind, init) {
          assert ComesFrom(f, kind, init, r);
        } else {
          assert f(edges[|init|]).target == Some(r.target);
        }
      }
    }
  }

  lemma {:induction false} ResolutionsDistinct(f: R.Edge -> R.Outcome, kind: R.EdgeKind, edges: seq<R.Edge>)
    requires EachOnce(edges)
    ensures DistinctSources(ResolverPass.ResolutionsOf(f, kind, edges))
  {
    if edges != [] {
      var init, last := edges[..|edges| - 1], edges[|edges| - 1];
      ResolutionsDistinct(f, kind, init);
      ResolutionsComeFrom(f, kind, init);
      var before := ResolverPass.ResolutionsOf(f, kind, init);
      forall i | 0 <= i < |before|
        ensures before[i].file != last.file || before[i].placeholder != last.placeholder
      {
        assert before[i] in before && ComesFrom(f, kind, init, before[i]);
        var k :| 0 <= k < |init| && before[i].file == init[k].file && before[i].placeholder == init[k].placeholder;
        assert init[k] == edges[k] && edges[|edges| - 1] == last;
      }
      var rows := ResolverPass.ResolutionsOf(f, kind, edges);
      if f(last).target.Some? {
        var r := ResolverPass.Resolution(kind, last.file, last.placeholder, f(last).target.value);
        assert rows == before + [r];
        forall i | 0 <= i < |before|
          ensures Old(before[i]) != Old(r)
        {
          assert before[i].file != last.file || before[i].placeholder != last.placeholder;
        }
      } else {
        assert rows == before;
      }
    }
  }

  lemma NormalisedOnce(edges: seq<R.Edge>)
    requires EachOnce(edges)
    ensures EachOnce(ResolverPass.Normalised(edges))
  {
  }

  ghost predicate Prefixed(edges: seq<R.Edge>) {
    forall i :: 0 <= i < |edges| ==> Prefix() <= edges[i].placeholder
  }

  lemma KindWellFormed(f: R.Edge -> R.Outcome, kind: R.EdgeKind, edges: seq<R.Edge>)
    requires EachOnce(edges) && Prefixed(edges) && Proper(f)
    ensures WellFormed(ResolverPass.ResolutionsOf(f, kind, edges))
    ensures forall r :: r in ResolverPass.ResolutionsOf(f, kind, edges) ==> r.kind == kind
  {
    var rows := ResolverPass.ResolutionsOf(f, kind, edges);
    ResolutionsComeFrom(f, kind, edges);
    ResolutionsDistinct(f, kind, edges);
    forall i | 0 <= i < |rows|
      ensures Placeholder(Old(rows[i]).dst) && !Placeholder(TargetNode(rows[i]))
    {
      assert rows[i] in rows;
      assert ComesFrom(f, kind, edges, rows[i]);
      var k :| 0 <= k < |edges| && rows[i].placeholder == edges[k].placeholder &&
        f(edges[k]).target == Some(rows[i].target);
    }
  }

  lemma WellFormedAppend(a: seq<Row>, b: seq<Row>)
    requires WellFormed(a) && WellFormed(b)
    requires forall r, t :: r in a && t in b ==> r.kind != t.kind
    ensures WellFormed(a + b)
  {
    forall i, j | 0 <= i < j < |a + b|
      ensures Old((a + b)[i]) != Old((a + b)[j])
    {
      if i < |a| <= j {
        assert a[i] in a && b[j - |a|] in b;
      }
    }
  }

  lemma KindsWellFormed(f: R.Edge -> R.Outcome, s: R.Snapshot)
    requires EachOnce(s.calls) && EachOnce(s.injects) && EachOnce(s.references)
    requires Prefixed(s.calls) && Prefixed(s.injects) && Prefixed(s.references) && Proper(f)
    ensures WellFormed(ResolverPass.AllResolutions(f, s))
  {
    NormalisedOnce(s.injects);
    NormalisedOnce(s.references);
    KindWellFormed(f, R.Calls, s.calls);
    KindWellFormed(f, R.Injects, ResolverPass.Normalised(s.injects));
    KindWellFormed(f, R.References, ResolverPass.Normalised(s.references));
    var a, b, c := ResolverPass.ResolutionsOf(f, R.Calls, s.calls),
      ResolverPass.ResolutionsOf(f, R.Injects, ResolverPass.Normalised(s.injects)),
      ResolverPass.ResolutionsOf(f, R.References, ResolverPass.Normalised(s.references));
    WellFormedAppend(a, b);
    WellFormedAppend(a + b, c);
  }

  /** Every pass over a snapshot hands over well-formed rows: defined symbols are
      no placeholders, so an answer never is one. */
  lemma PassIsWellFormed(defs: seq<R.Def>, s: R.Snapshot)
    requires EachOnce(s.calls) && EachOnce(s.injects) && EachOnce(s.references)
    requires Prefixed(s.calls) && Prefixed(s.injects) && Prefixed(s.references)
    requires forall d :: d in defs ==> !(Prefix() <= d.key)
    ensures WellFormed(ResolverPass.AllResolutions(ResolverPass.CascadeOf(defs, s), s))
  {
    forall e | R.Resolve(defs, s, e).target.Some? && R.Resolve(defs, s, e).target.value.InProject?
      ensures !(Prefix() <= R.Resolve(defs, s, e).target.value.key)
    {
      R.ResolutionIsGrounded(defs, s, e);
      NamedKeyIsProper(defs, R.Resolve(defs, s, e).target.value.key, R.NameOf(s, e).value);
    }
    CascadeIsProper(defs, s);
    KindsWellFormed(ResolverPass.CascadeOf(defs, s), s);
  }

  lemma NamedKeyIsProper(defs: seq<R.Def>, key: string, name: string)
    requires forall d :: d in defs ==> !(Prefix() <= d.key)
    requires R.DefinedAs(defs, key, name)
    ensures !(Prefix() <= key)
  {
    var i :| 0 <= i < |defs| && defs[i].key == key && defs[i].name == name;
    assert defs[i] in defs;
  }

  lemma CascadeIsProper(defs: seq<R.Def>, s: R.Snapshot)
    requires forall e :: (R.Resolve(defs, s, e).target.Some? && R.Resolve(defs, s, e).target.value.InProject?
      ==> !(Prefix() <= R.Resolve(defs, s, e).target.value.key))
    ensures Proper(ResolverPass.CascadeOf(defs, s))
  {
    forall e
      ensures ResolverPass.CascadeOf(defs, s)(e) == R.Resolve(defs, s, e)
    {
      ResolverPass.CascadeIs(defs, s, e);
    }
  }
}
