/** The vector index over the claims table, and its count-only synchronisation check. */
module ClaimsIndex {
  import opened Wrappers
  import opened ClaimsStore

  /** The payload of one vector point. */
  datatype Payload = Payload(open: bool, subject: string, pred: string, obj: string, polarity: bool,
                             confidence: real, validAt: real, headSha: Option<string>)

  type Points = map<string, Payload>

  function PayloadFor(c: Claim, open: bool): Payload {
    Payload(open, c.subject, c.pred, c.obj, c.polarity, c.confidence, c.validAt, c.headSha)
  }

  /** `set_payload` writes to the points that exist and ignores other ids. */
  function WithPayload(points: Points, id: string, p: Payload): Points {
    if id in points then points[id := p] else points
  }

  function MarkClosed(points: Points, ids: seq<string>): Points {
    map id | id in points :: if id in ids then points[id].(open := false) else points[id]
  }

  /** The rows by id, the primary key. */
  function ById(rows: Table): map<string, Claim> {
    if rows == [] then map[]
    else ById(rows[..|rows| - 1])[rows[|rows| - 1].id := rows[|rows| - 1]]
  }

  /** All rows, written over whatever points there were. */
  function Backfilled(rows: Table, points: Points): Points {
    if rows == [] then points
    else
      var last := rows[|rows| - 1];
      Backfilled(rows[..|rows| - 1], points)[last.id := PayloadFor(last, last.Open())]
  }

  /** The table, the points, and whether this indexer has checked them once. */
  datatype World = World(rows: Table, points: Points, checked: bool)

  /** `ensure_backfilled`: once per indexer, and only row counts are compared. */
  function Ensured(w: World): World {
    if w.checked then w
    else if w.rows == [] || |w.points| >= |w.rows| then w.(checked := true)
    else World(w.rows, Backfilled(w.rows, w.points), true)
  }

  /** What the semantic search may return as a near duplicate: an open point of
      the same polarity that does not carry the same triple. */
  predicate NearDuplicate(points: Points, claim: Claim, near: Option<string>) {
    near.Some? ==>
      && near.value in points && points[near.value].open && points[near.value].polarity == claim.polarity
      && !(points[near.value].subject == claim.subject && points[near.value].pred == claim.pred
           && points[near.value].obj == claim.obj)
  }

  function ClosedIds(rows: Table, claim: Claim): seq<string> {
    if claim.pred in SingleValued() then ConflictIds(rows, claim) else []
  }

  function Collapsed(w: World, claim: Claim, near: string): World {
    var rows := Refresh(w.rows, near, claim);
    World(rows, if near in ById(rows) then WithPayload(w.points, near, PayloadFor(ById(rows)[near], true))
          else w.points, w.checked)
  }

  /** The points after the table write: predecessors closed, then the claim itself. */
  function PointsAfter(w: World, claim: Claim): Points {
    var points := MarkClosed(w.points, ClosedIds(w.rows, claim));
    match FindOpenDuplicate(Closing(w.rows, claim), claim)
    case Some(id) => WithPayload(points, id, PayloadFor(claim, true))
    case None => if HasId(w.rows, claim.id) then w.points else points[claim.id := PayloadFor(claim, true)]
  }

  function Indexed(w: World, claim: Claim, near: Option<string>): World {
    var w1 := Ensured(w);
    match near
    case Some(id) => Collapsed(w1, claim, id)
    case None => World(Upserted(w1.rows, claim), PointsAfter(w1, claim), w1.checked)
  }

  class Indexer {
    const store: Store
    var points: Points
    var backfilled: bool

    constructor (store: Store, points: Points)
      ensures this.store == store && this.points == points && !backfilled
    {
      this.store, this.points, this.backfilled := store, points, false;
    }

    function W(): World
      reads this, store
    {
      World(store.rows, points, backfilled)
    }

    method EnsureBackfilled() returns (embedded: nat)
      modifies this
      ensures W() == Ensured(old(W())) && backfilled
      ensures embedded ==
        if old(backfilled) || store.rows == [] || |old(points)| >= |store.rows| then 0 else |store.rows|
    {
      if backfilled {
        return 0;
      }
      if |store.rows| == 0 || |points| >= |store.rows| {
        backfilled := true;
        return 0;
      }
      var rows := store.rows;
      var all := points;
      for i := 0 to |rows|
        invariant all == Backfilled(rows[..i], points)
      {
        assert rows[..i + 1][..i] == rows[..i];
        all := all[rows[i].id := PayloadFor(rows[i], rows[i].Open())];
      }
      assert rows[..|rows|] == rows;
      points, backfilled := all, true;
      embedded := |rows|;
    }

    /** `near` is what the semantic search finds once the index is there. */
    method Upsert(claim: Claim, near: Option<string>) returns (r: Result<UpsertResult, DbError>)
      requires NearDuplicate(Ensured(W()).points, claim, near)
      modifies this, store
      ensures W() == Indexed(old(W()), claim, near)
    {
      var _ := EnsureBackfilled();
      if near.Some? {
        store.RefreshExisting(near.value, claim);
        var table := ById(store.rows);
        if near.value in table {
          points := WithPayload(points, near.value, PayloadFor(table[near.value], true));
        }
        return Ok(UpsertResult(near.value, [], false));
      }
      ghost var rows := store.rows;
      r := store.Upsert(claim);
      SameIds(rows, claim);
      if r.Ok? {
        if r.value.closedIds != [] {
          points := MarkClosed(points, r.value.closedIds);
        } else {
          assert MarkClosed(points, []) == points;
        }
        if r.value.wasNew {
          points := points[r.value.claimId := PayloadFor(claim, true)];
        } else {
          points := WithPayload(points, r.value.claimId, PayloadFor(claim, true));
        }
      }
    }
  }

  lemma SameIds(rows: Table, claim: Claim)
    ensures HasId(Closing(rows, claim), claim.id) <==> HasId(rows, claim.id)
  {
    var closed := Closing(rows, claim);
    assert forall i :: 0 <= i < |rows| ==> closed[i].id == rows[i].id;
  }

  // ---------------------------------------------------------------- what every step keeps

  /** No id twice. */
  predicate UniqueIds(rows: Table) {
    rows == [] || (UniqueIds(rows[..|rows| - 1]) && rows[|rows| - 1].id !in ById(rows[..|rows| - 1]))
  }

  /** A single-valued key has at most one open row. */
  ghost predicate OneOpenEach(table: map<string, Claim>, single: set<string>) {
    forall a, b ::
      (a in table && b in table && a != b && table[a].Open() && table[b].Open() && table[a].pred in single) ==>
      !SameKey(table[a], table[b])
  }

  lemma {:induction false} HasIdIs(rows: Table, id: string)
    ensures HasId(rows, id) <==> id in ById(rows)
  {
    if rows != [] {
      var n := |rows| - 1;
      HasIdIs(rows[..n], id);
      if HasId(rows[..n], id) {
        var i :| 0 <= i < n && rows[..n][i].id == id;
        assert rows[i].id == id;
      }
      if HasId(rows, id) && rows[n].id != id {
        var i :| 0 <= i < |rows| && rows[i].id == id;
        assert rows[..n][i].id == id;
      }
    }
  }

  lemma {:induction false} RowCount(rows: Table)
    requires UniqueIds(rows)
    ensures |ById(rows)| == |rows|
  {
    if rows != [] {
      RowCount(rows[..|rows| - 1]);
    }
  }

  /** The point says about the row what a search filters on. */
  predicate Mirrors(p: Payload, row: Claim) {
    p.subject == row.subject && p.pred == row.pred && p.obj == row.obj && p.polarity == row.polarity
  }

  ghost predicate PointsMirror(points: Points, table: map<string, Claim>) {
    forall id :: id in points ==> id in table && Mirrors(points[id], table[id])
  }

  ghost predicate FlagsAgree(points: Points, table: map<string, Claim>) {
    forall id :: id in points && id in table ==> (points[id].open <==> table[id].Open())
  }

  /** Same ids, same triples, and a point is open exactly when its row is. */
  ghost predicate InSync(points: Points, table: map<string, Claim>) {
    PointsMirror(points, table) && points.Keys == table.Keys && FlagsAgree(points, table)
  }

  /** If a flag is wrong, then some row has no point yet. */
  ghost predicate Detectable(points: Points, table: map<string, Claim>) {
    PointsMirror(points, table) && (points.Keys == table.Keys ==> FlagsAgree(points, table))
  }

  lemma SubsetOfSameSize<T>(a: set<T>, b: set<T>)
    requires a <= b && |a| >= |b|
    ensures a == b
  {
    assert b == a + (b - a);
    assert |b| == |a| + |b - a|;
  }

  lemma NoneMissing(points: Points, table: map<string, Claim>)
    requires PointsMirror(points, table) && |points| >= |table|
    ensures points.Keys == table.Keys
  {
    assert points.Keys <= table.Keys;
    assert |points.Keys| == |points| && |table.Keys| == |table|;
    SubsetOfSameSize(points.Keys, table.Keys);
  }

  lemma {:induction false} BackfilledAll(rows: Table, points: Points)
    ensures Backfilled(rows, points).Keys == points.Keys + ById(rows).Keys
    ensures forall id :: id in ById(rows) ==>
      Backfilled(rows, points)[id] == PayloadFor(ById(rows)[id], ById(rows)[id].Open())
  {
    if rows != [] {
      BackfilledAll(rows[..|rows| - 1], points);
    }
  }

  /** A fresh indexer's count check restores full agreement, however the table was changed. */
  lemma FreshCheckRestores(w: World)
    requires UniqueIds(w.rows) && Detectable(w.points, ById(w.rows)) && !w.checked
    ensures Ensured(w).rows == w.rows && InSync(Ensured(w).points, ById(w.rows))
  {
    RowCount(w.rows);
    if |w.points| >= |w.rows| {
      NoneMissing(w.points, ById(w.rows));
    } else {
      BackfillSyncs(w.rows, w.points);
    }
  }

  lemma BackfillSyncs(rows: Table, points: Points)
    requires PointsMirror(points, ById(rows))
    ensures InSync(Backfilled(rows, points), ById(rows))
  {
    BackfilledAll(rows, points);
    assert points.Keys <= ById(rows).Keys;
  }

  lemma {:induction false} ClosedTable(rows: Table, claim: Claim)
    ensures UniqueIds(CloseConflicting(rows, claim)) <==> UniqueIds(rows)
    ensures ById(CloseConflicting(rows, claim)) == map id | id in ById(rows) :: CloseRow(ById(rows)[id], claim)
  {
    if rows != [] {
      var n := |rows| - 1;
      ClosedTable(rows[..n], claim);
      assert CloseConflicting(rows, claim)[..n] == CloseConflicting(rows[..n], claim);
    }
  }

  lemma {:induction false} RefreshedById(rows: Table, id: string, claim: Claim)
    ensures ById(Refresh(rows, id, claim)) ==
      map k | k in ById(rows) :: if k == id then RefreshRow(ById(rows)[k], claim) else ById(rows)[k]
  {
    if rows != [] {
      var n := |rows| - 1;
      RefreshedById(rows[..n], id, claim);
      assert Refresh(rows, id, claim)[..n] == Refresh(rows[..n], id, claim);
      assert Refresh(rows, id, claim)[n].id == rows[n].id;
    }
  }

  lemma {:induction false} RefreshedTable(rows: Table, id: string, claim: Claim)
    ensures UniqueIds(Refresh(rows, id, claim)) <==> UniqueIds(rows)
    ensures ById(Refresh(rows, id, claim)) ==
      map k | k in ById(rows) :: if k == id then RefreshRow(ById(rows)[k], claim) else ById(rows)[k]
  {
    RefreshedById(rows, id, claim);
    if rows != [] {
      var n := |rows| - 1;
      RefreshedTable(rows[..n], id, claim);
      assert Refresh(rows, id, claim)[..n] == Refresh(rows[..n], id, claim);
      assert Refresh(rows, id, claim)[n].id == rows[n].id;
    }
  }

  lemma {:induction false} ConflictIdsAre(rows: Table, claim: Claim)
    requires UniqueIds(rows)
    ensures forall id :: id in ConflictIds(rows, claim) <==> id in ById(rows) && Conflicts(ById(rows)[id], claim)
  {
    if rows != [] {
      ConflictIdsAre(rows[..|rows| - 1], claim);
    }
  }

  lemma {:induction false} DuplicateInTable(rows: Table, claim: Claim)
    requires UniqueIds(rows)
    ensures match FindOpenDuplicate(rows, claim)
      case Some(id) => id in ById(rows) && IsDuplicate(ById(rows)[id], claim)
      case None => forall id :: id in ById(rows) ==> !IsDuplicate(ById(rows)[id], claim)
  {
    if rows != [] {
      DuplicateInTable(rows[..|rows| - 1], claim);
    }
  }

  /** `closed` are the conflicting rows, and `table'` has them closed. */
  ghost predicate ClosedView(table: map<string, Claim>, table': map<string, Claim>, claim: Claim, single: set<string>,
                             closed: seq<string>) {
    && table'.Keys == table.Keys
    && (forall id :: id in table ==> table'[id] == if id in closed then CloseRow(table[id], claim) else table[id])
    && (forall id :: id in closed <==> claim.pred in single && id in table && Conflicts(table[id], claim))
  }

  lemma ClosingTable(rows: Table, claim: Claim)
    requires UniqueIds(rows)
    ensures UniqueIds(Closing(rows, claim))
    ensures ClosedView(ById(rows), ById(Closing(rows, claim)), claim, SingleValued(), ClosedIds(rows, claim))
  {
    ClosedTable(rows, claim);
    ConflictIdsAre(rows, claim);
  }

  /** Whenever an upsert closes a row, it also inserts one: so the row count moves
      with every change to the set of open rows. */
  lemma ClosingInserts(rows: Table, claim: Claim)
    requires UniqueIds(rows) && OneOpenEach(ById(rows), SingleValued()) && ClosedIds(rows, claim) != []
    requires !HasId(rows, claim.id)
    ensures Upserted(rows, claim) == Closing(rows, claim) + [claim]
  {
    ClosingTable(rows, claim);
    assert ClosedIds(rows, claim)[0] in ClosedIds(rows, claim);
    SameIds(rows, claim);
    DuplicateInTable(Closing(rows, claim), claim);
  }

  /** What an upsert does to the table: which rows stay open, and what is new. */
  ghost predicate TableStep(table: map<string, Claim>, table': map<string, Claim>, claim: Claim, single: set<string>,
                            closed: seq<string>, dup: Option<string>) {
    && claim.id !in table
    && table'.Keys == table.Keys + (if dup.None? then {claim.id} else {})
    && (dup.None? ==> table'[claim.id] == claim)
    && (forall id :: id in table ==>
          SameAssertion(table'[id], table[id]) && (table'[id].Open() <==> table[id].Open() && id !in closed))
    && (dup.Some? ==> dup.value in table && table'[dup.value].Open() && SameAssertion(table[dup.value], claim))
    && (dup.None? && claim.pred in single ==>
          forall id :: id in table && SameKey(table[id], claim) ==> !table'[id].Open())
  }

  lemma InsertStep(table: map<string, Claim>, mid: map<string, Claim>, claim: Claim, single: set<string>,
                   closed: seq<string>)
    requires ClosedView(table, mid, claim, single, closed) && claim.id !in table && claim.Open()
    requires forall id :: id in mid ==> !IsDuplicate(mid[id], claim)
    ensures TableStep(table, mid[claim.id := claim], claim, single, closed, None)
  {
    var table' := mid[claim.id := claim];
    forall id | id in table
      ensures SameAssertion(table'[id], table[id]) && (table'[id].Open() <==> table[id].Open() && id !in closed)
      ensures claim.pred in single && SameKey(table[id], claim) ==> !table'[id].Open()
    {
      assert table'[id] == mid[id] && !IsDuplicate(mid[id], claim);
    }
  }

  lemma RefreshStep(table: map<string, Claim>, mid: map<string, Claim>, table': map<string, Claim>, claim: Claim,
                    single: set<string>, closed: seq<string>, dup: string)
    requires ClosedView(table, mid, claim, single, closed) && claim.id !in table
    requires dup in mid && IsDuplicate(mid[dup], claim)
    requires table' == map k | k in mid :: if k == dup then RefreshRow(mid[k], claim) else mid[k]
    ensures TableStep(table, table', claim, single, closed, Some(dup))
  {
    forall id | id in table
      ensures SameAssertion(table'[id], table[id]) && (table'[id].Open() <==> table[id].Open() && id !in closed)
    {
      assert id in mid;
    }
  }

  lemma TableAfterUpsert(rows: Table, claim: Claim)
    requires UniqueIds(rows) && !HasId(rows, claim.id) && claim.Open()
    ensures UniqueIds(Upserted(rows, claim))
    ensures TableStep(ById(rows), ById(Upserted(rows, claim)), claim, SingleValued(), ClosedIds(rows, claim),
                      FindOpenDuplicate(Closing(rows, claim), claim))
  {
    var mid := Closing(rows, claim);
    ClosingTable(rows, claim);
    SameIds(rows, claim);
    HasIdIs(rows, claim.id);
    DuplicateInTable(mid, claim);
    var dup := FindOpenDuplicate(mid, claim);
    if dup.Some? {
      RefreshedTable(mid, dup.value, claim);
      RefreshStep(ById(rows), ById(mid), ById(Refresh(mid, dup.value, claim)), claim, SingleValued(),
                  ClosedIds(rows, claim), dup.value);
    } else {
      assert (mid + [claim])[..|mid|] == mid;
      InsertStep(ById(rows), ById(mid), claim, SingleValued(), ClosedIds(rows, claim));
    }
  }

  lemma StepKeepsOneOpen(table: map<string, Claim>, table': map<string, Claim>, claim: Claim, single: set<string>,
                         closed: seq<string>, dup: Option<string>)
    requires TableStep(table, table', claim, single, closed, dup) && OneOpenEach(table, single) && claim.Open()
    ensures OneOpenEach(table', single)
  {
    forall a, b | a in table' && b in table' && a != b && table'[a].Open() && table'[b].Open() &&
      table'[a].pred in single
      ensures !SameKey(table'[a], table'[b])
    {
      if a in table && b in table {
        assert table[a].Open() && table[b].Open();
      }
    }
  }

  /** Points written in full after an upsert keep agreement, and keep drift detectable. */
  lemma UpsertKeepsPoints(w: World, claim: Claim)
    requires UniqueIds(w.rows) && !HasId(w.rows, claim.id) && claim.Open()
    ensures
      var table, table' := ById(w.rows), ById(Upserted(w.rows, claim));
      && (InSync(w.points, table) ==> InSync(PointsAfter(w, claim), table'))
      && (Detectable(w.points, table) ==> Detectable(PointsAfter(w, claim), table'))
  {
    TableAfterUpsert(w.rows, claim);
    var closed, dup := ClosedIds(w.rows, claim), FindOpenDuplicate(Closing(w.rows, claim), claim);
    if PointsMirror(w.points, ById(w.rows)) {
      PointsStep(w.points, ById(w.rows), ById(Upserted(w.rows, claim)), claim, SingleValued(), closed, dup);
    }
  }

  /** The points written for one upsert. */
  function PointsWritten(points: Points, claim: Claim, closed: seq<string>, dup: Option<string>): Points {
    match dup
    case Some(id) => WithPayload(MarkClosed(points, closed), id, PayloadFor(claim, true))
    case None => MarkClosed(points, closed)[claim.id := PayloadFor(claim, true)]
  }

  lemma PointWritten(points: Points, table: map<string, Claim>, table': map<string, Claim>, claim: Claim,
                     single: set<string>, closed: seq<string>, dup: Option<string>, id: string)
    requires TableStep(table, table', claim, single, closed, dup) && claim.Open() && PointsMirror(points, table)
    requires id in PointsWritten(points, claim, closed, dup)
    ensures id in table' && Mirrors(PointsWritten(points, claim, closed, dup)[id], table'[id])
    ensures FlagsAgree(points, table) ==> (PointsWritten(points, claim, closed, dup)[id].open <==> table'[id].Open())
  {
    if id in points {
      assert id in table && Mirrors(points[id], table[id]);
    }
  }

  lemma PointsStep(points: Points, table: map<string, Claim>, table': map<string, Claim>, claim: Claim,
                   single: set<string>, closed: seq<string>, dup: Option<string>)
    requires TableStep(table, table', claim, single, closed, dup) && claim.Open() && PointsMirror(points, table)
    ensures PointsMirror(PointsWritten(points, claim, closed, dup), table')
    ensures FlagsAgree(points, table) ==> FlagsAgree(PointsWritten(points, claim, closed, dup), table')
    ensures PointsWritten(points, claim, closed, dup).Keys == table'.Keys <==> points.Keys == table.Keys
  {
    var points' := PointsWritten(points, claim, closed, dup);
    forall id | id in points' {
      PointWritten(points, table, table', claim, single, closed, dup, id);
    }
    SameGrowth(points.Keys, table.Keys, points'.Keys, table'.Keys, if dup.None? then {claim.id} else {});
  }

  lemma SameGrowth<T>(a: set<T>, b: set<T>, a': set<T>, b': set<T>, more: set<T>)
    requires a' == a + more && b' == b + more && a <= b && b !! more
    ensures a' == b' <==> a == b
  {
    assert a == a' - more && b == b' - more;
  }

  /** A near duplicate only refreshes metadata. */
  lemma CollapseKeeps(w: World, claim: Claim, near: string)
    requires UniqueIds(w.rows) && near in w.points && w.points[near].open
    ensures
      var w', table, table' := Collapsed(w, claim, near), ById(w.rows), ById(Collapsed(w, claim, near).rows);
      && UniqueIds(w'.rows) && w'.checked == w.checked
      && (forall single :: OneOpenEach(table, single) ==> OneOpenEach(table', single))
      && (InSync(w.points, table) ==> InSync(w'.points, table'))
      && (Detectable(w.points, table) ==> Detectable(w'.points, table'))
  {
    var w', table, table' := Collapsed(w, claim, near), ById(w.rows), ById(Collapsed(w, claim, near).rows);
    RefreshedTable(w.rows, near, claim);
    assert w'.points.Keys == w.points.Keys && table'.Keys == table.Keys;
    forall id | id in table
      ensures SameAssertion(table'[id], table[id]) && (table'[id].Open() <==> table[id].Open())
    {
    }
    CollapsedPoints(w.points, w'.points, table, table', near);
  }

  lemma CollapsedPoints(points: Points, points': Points, table: map<string, Claim>, table': map<string, Claim>,
                        near: string)
    requires table'.Keys == table.Keys && points'.Keys == points.Keys && near in points && points[near].open
    requires forall id :: id in table ==>
      SameAssertion(table'[id], table[id]) && (table'[id].Open() <==> table[id].Open())
    requires forall id :: id in points ==>
      points'[id] == if id == near && id in table' then PayloadFor(table'[id], true) else points[id]
    ensures forall single :: OneOpenEach(table, single) ==> OneOpenEach(table', single)
    ensures PointsMirror(points, table) ==> PointsMirror(points', table')
    ensures FlagsAgree(points, table) ==> FlagsAgree(points', table')
  {
  }

  // ---------------------------------------------------------------- runs

  /** What can happen around the index. A crash stops `Indexer.Upsert` after the
      table write, before or after the predecessors are marked closed. */
  datatype Step =
    | Index(claim: Claim, near: Option<string>)
    | StoreOnly(claim: Claim)
    | RefreshOnly(id: string, claim: Claim)
    | CrashAfterStore(claim: Claim)
    | CrashAfterClosing(claim: Claim)
    | NewIndexer

  ghost predicate Enabled(w: World, step: Step) {
    match step
    case Index(claim, near) => !HasId(w.rows, claim.id) && claim.Open() && NearDuplicate(Ensured(w).points, claim, near)
    case StoreOnly(claim) => !HasId(w.rows, claim.id) && claim.Open()
    case RefreshOnly(_, _) => true
    case CrashAfterStore(claim) => !HasId(w.rows, claim.id) && claim.Open()
    case CrashAfterClosing(claim) => !HasId(w.rows, claim.id) && claim.Open()
    case NewIndexer => true
  }

  function Do(w: World, step: Step): World {
    match step
    case Index(claim, near) => Indexed(w, claim, near)
    case StoreOnly(claim) => w.(rows := Upserted(w.rows, claim))
    case RefreshOnly(id, claim) => w.(rows := Refresh(w.rows, id, claim))
    case CrashAfterStore(claim) => var w1 := Ensured(w); w1.(rows := Upserted(w1.rows, claim))
    case CrashAfterClosing(claim) =>
      var w1 := Ensured(w);
      w1.(rows := Upserted(w1.rows, claim), points := MarkClosed(w1.points, ClosedIds(w1.rows, claim)))
    case NewIndexer => w.(checked := false)
  }

  /** What holds after any steps, failures included. */
  ghost predicate Recoverable(w: World) {
    UniqueIds(w.rows) && OneOpenEach(ById(w.rows), SingleValued()) && Detectable(w.points, ById(w.rows))
  }

  lemma EnsuredKeeps(w: World)
    requires Recoverable(w)
    ensures Recoverable(Ensured(w)) && Ensured(w).rows == w.rows
  {
    if !w.checked {
      FreshCheckRestores(w);
    }
  }

  /** A table write that the points do not follow leaves a row without a point. */
  lemma LaggingPoints(w: World, claim: Claim)
    requires Recoverable(w) && !HasId(w.rows, claim.id) && claim.Open()
    ensures
      var rows' := Upserted(w.rows, claim);
      && Recoverable(World(rows', w.points, w.checked))
      && Recoverable(World(rows', MarkClosed(w.points, ClosedIds(w.rows, claim)), w.checked))
  {
    var table, table' := ById(w.rows), ById(Upserted(w.rows, claim));
    var closed, dup := ClosedIds(w.rows, claim), FindOpenDuplicate(Closing(w.rows, claim), claim);
    TableAfterUpsert(w.rows, claim);
    StepKeepsOneOpen(table, table', claim, SingleValued(), closed, dup);
    if closed != [] {
      ClosingInserts(w.rows, claim);
      RowCount(w.rows);
      RowCount(Upserted(w.rows, claim));
    }
    Lagging(w.points, table, table', claim, SingleValued(), closed, dup);
  }

  lemma Lagging(points: Points, table: map<string, Claim>, table': map<string, Claim>, claim: Claim,
                single: set<string>, closed: seq<string>, dup: Option<string>)
    requires TableStep(table, table', claim, single, closed, dup) && Detectable(points, table)
    requires closed != [] ==> |table'| > |table|
    ensures Detectable(points, table') && Detectable(MarkClosed(points, closed), table')
  {
    forall id | id in points
      ensures id in table' && Mirrors(points[id], table'[id])
    {
      assert id in table;
    }
    if dup.None? {
      assert claim.id in table' && claim.id !in points;
      MarkedMirror(points, table', closed);
    } else {
      assert table'.Keys == table.Keys && |table'.Keys| == |table'| && |table.Keys| == |table|;
      assert MarkClosed(points, closed) == points;
    }
  }

  lemma MarkedMirror(points: Points, table: map<string, Claim>, closed: seq<string>)
    requires PointsMirror(points, table)
    ensures PointsMirror(MarkClosed(points, closed), table) && MarkClosed(points, closed).Keys == points.Keys
  {
  }

  lemma RefreshKeeps(w: World, id: string, claim: Claim)
    requires Recoverable(w)
    ensures Recoverable(w.(rows := Refresh(w.rows, id, claim)))
  {
    RefreshedTable(w.rows, id, claim);
    RefreshedSame(w.rows, id, claim);
    RefreshedPoints(w.points, ById(w.rows), ById(Refresh(w.rows, id, claim)));
  }

  lemma RefreshedSame(rows: Table, id: string, claim: Claim)
    ensures
      var table, table' := ById(rows), ById(Refresh(rows, id, claim));
      && table'.Keys == table.Keys
      && forall k :: k in table ==> SameAssertion(table'[k], table[k]) && (table'[k].Open() <==> table[k].Open())
  {
    RefreshedTable(rows, id, claim);
  }

  lemma RefreshedPoints(points: Points, table: map<string, Claim>, table': map<string, Claim>)
    requires table'.Keys == table.Keys
    requires forall id :: id in table ==>
      SameAssertion(table'[id], table[id]) && (table'[id].Open() <==> table[id].Open())
    requires Detectable(points, table)
    ensures Detectable(points, table')
    ensures forall single :: OneOpenEach(table, single) ==> OneOpenEach(table', single)
  {
  }

  lemma IndexedKeeps(w: World, claim: Claim, near: Option<string>)
    requires Recoverable(w) && !HasId(w.rows, claim.id) && claim.Open() && NearDuplicate(Ensured(w).points, claim, near)
    ensures Recoverable(Indexed(w, claim, near))
  {
    EnsuredKeeps(w);
    var w1 := Ensured(w);
    match near
    case Some(id) => CollapseKeeps(w1, claim, id);
    case None =>
      TableAfterUpsert(w1.rows, claim);
      StepKeepsOneOpen(ById(w1.rows), ById(Upserted(w1.rows, claim)), claim, SingleValued(), ClosedIds(w1.rows, claim),
                       FindOpenDuplicate(Closing(w1.rows, claim), claim));
      UpsertKeepsPoints(w1, claim);
  }

  lemma StepKeepsRecoverable(w: World, step: Step)
    requires Recoverable(w) && Enabled(w, step)
    ensures Recoverable(Do(w, step))
  {
    EnsuredKeeps(w);
    match step
    case Index(claim, near) => IndexedKeeps(w, claim, near);
    case StoreOnly(claim) => LaggingPoints(w, claim);
    case RefreshOnly(id, claim) => RefreshKeeps(w, id, claim);
    case CrashAfterStore(claim) => LaggingPoints(Ensured(w), claim);
    case CrashAfterClosing(claim) => LaggingPoints(Ensured(w), claim);
    case NewIndexer =>
  }

  const NOTHING := World([], map[], false)

  function WorldAfter(steps: seq<Step>): World {
    if steps == [] then NOTHING
    else Do(WorldAfter(steps[..|steps| - 1]), steps[|steps| - 1])
  }

  ghost predicate Possible(steps: seq<Step>) {
    forall i :: 0 <= i < |steps| ==> Enabled(WorldAfter(steps[..i]), steps[i])
  }

  lemma {:induction false} AlwaysRecoverable(steps: seq<Step>)
    requires Possible(steps)
    ensures Recoverable(WorldAfter(steps))
  {
    if steps != [] {
      var n := |steps| - 1;
      assert forall i :: 0 <= i < n ==> steps[..n][..i] == steps[..i];
      AlwaysRecoverable(steps[..n]);
      StepKeepsRecoverable(WorldAfter(steps[..n]), steps[n]);
    }
  }

  /** Whatever happened, crashes and writes past the index included, the next
      indexer's first check makes the index agree with the table. */
  lemma NewIndexerRecovers(steps: seq<Step>)
    requires Possible(steps)
    ensures
      var w := WorldAfter(steps);
      InSync(Ensured(w.(checked := false)).points, ById(w.rows))
  {
    AlwaysRecoverable(steps);
    FreshCheckRestores(WorldAfter(steps).(checked := false));
  }

  /** With every write going through indexers and none failing, the index agrees at all times. */
  lemma {:induction false} FailureFreeRunsAgree(steps: seq<Step>)
    requires Possible(steps) && forall i :: 0 <= i < |steps| ==> steps[i].Index? || steps[i].NewIndexer?
    ensures Recoverable(WorldAfter(steps)) && InSync(WorldAfter(steps).points, ById(WorldAfter(steps).rows))
  {
    if steps != [] {
      var n := |steps| - 1;
      assert forall i :: 0 <= i < n ==> steps[..n][..i] == steps[..i] && steps[..n][i] == steps[i];
      FailureFreeRunsAgree(steps[..n]);
      var w := WorldAfter(steps[..n]);
      StepKeepsRecoverable(w, steps[n]);
      SyncStep(w, steps[n]);
    }
  }

  lemma SyncStep(w: World, step: Step)
    requires Recoverable(w) && InSync(w.points, ById(w.rows)) && Enabled(w, step) && (step.Index? || step.NewIndexer?)
    ensures InSync(Do(w, step).points, ById(Do(w, step).rows))
  {
    if !w.checked {
      FreshCheckRestores(w);
    }
    match step
    case Index(claim, near) =>
      var w1 := Ensured(w);
      match near {
        case Some(id) => CollapseKeeps(w1, claim, id);
        case None => UpsertKeepsPoints(w1, claim);
      }
    case NewIndexer =>
  }

  /** A row that has no point gets none from an indexer that has already checked:
      only a new indexer brings it back. */
  lemma {:induction false} MissingUntilNewIndexer(w: World, steps: seq<Step>, id: string)
    requires w.checked && id !in w.points && HasId(w.rows, id)
    requires forall i :: 0 <= i < |steps| ==> steps[i] != NewIndexer
    requires forall i :: 0 <= i < |steps| ==> Enabled(AfterFrom(w, steps[..i]), steps[i])
    ensures AfterFrom(w, steps).checked && id !in AfterFrom(w, steps).points && HasId(AfterFrom(w, steps).rows, id)
  {
    if steps != [] {
      var n := |steps| - 1;
      assert forall i :: 0 <= i < n ==> steps[..n][..i] == steps[..i] && steps[..n][i] == steps[i];
      MissingUntilNewIndexer(w, steps[..n], id);
      StaysMissing(AfterFrom(w, steps[..n]), steps[n], id);
    }
  }

  function AfterFrom(w: World, steps: seq<Step>): World {
    if steps == [] then w
    else Do(AfterFrom(w, steps[..|steps| - 1]), steps[|steps| - 1])
  }

  lemma StaysMissing(w: World, step: Step, id: string)
    requires w.checked && id !in w.points && HasId(w.rows, id) && step != NewIndexer && Enabled(w, step)
    ensures Do(w, step).checked && id !in Do(w, step).points && HasId(Do(w, step).rows, id)
  {
    var i :| 0 <= i < |w.rows| && w.rows[i].id == id;
    RowsStay(w, step, i);
  }

  lemma RowsStay(w: World, step: Step, i: nat)
    requires i < |w.rows| && Enabled(w, step)
    ensures i < |Do(w, step).rows| && Do(w, step).rows[i].id == w.rows[i].id
  {
    match step
    case Index(claim, near) => UpsertKeepsIds(w.rows, claim, i);
    case StoreOnly(claim) => UpsertKeepsIds(w.rows, claim, i);
    case CrashAfterStore(claim) => UpsertKeepsIds(w.rows, claim, i);
    case CrashAfterClosing(claim) => UpsertKeepsIds(w.rows, claim, i);
    case _ =>
  }

  lemma UpsertKeepsIds(rows: Table, claim: Claim, i: nat)
    requires i < |rows|
    ensures i < |Upserted(rows, claim)| && Upserted(rows, claim)[i].id == rows[i].id
  {
  }

  /** A new claim's point carries the claim. */
  lemma InsertedPoint(w: World, claim: Claim)
    requires w.checked && FindOpenDuplicate(Closing(w.rows, claim), claim).None? && !HasId(w.rows, claim.id)
    ensures
      var points := Indexed(w, claim, None).points;
      && claim.id in points
      && points[claim.id] == Payload(true, claim.subject, claim.pred, claim.obj, claim.polarity, claim.confidence,
                                     claim.validAt, claim.headSha)
  {
  }

  /** A check that embeds leaves the point of every row with what the row says, ended rows as closed. */
  lemma BackfilledPoint(w: World, id: string)
    requires !w.checked && |w.points| < |w.rows| && id in ById(w.rows)
    ensures
      var row, points := ById(w.rows)[id], Ensured(w).points;
      && id in points
      && points[id] == Payload(row.validTo.None?, row.subject, row.pred, row.obj, row.polarity, row.confidence,
                               row.validAt, row.headSha)
  {
    BackfilledAll(w.rows, w.points);
  }

  /** The payload is the claim's own, not what the row keeps. Re-asserting a triple leaves point and row with one
      confidence exactly when the new one is at least the old one, with one start exactly when the claims start at the
      same time, and with one commit exactly when the claim names one or the row had none. */
  lemma RefreshedFields(w: World, claim: Claim, id: string)
    requires w.checked && UniqueIds(w.rows) && id in w.points
    requires FindOpenDuplicate(Closing(w.rows, claim), claim) == Some(id)
    ensures
      var w' := Indexed(w, claim, None);
      && id in w'.points && id in ById(w'.rows) && id in ById(w.rows)
      && var point, row, before := w'.points[id], ById(w'.rows)[id], ById(w.rows)[id];
      && point == Payload(true, claim.subject, claim.pred, claim.obj, claim.polarity, claim.confidence, claim.validAt,
                          claim.headSha)
      && (point.confidence == row.confidence <==> claim.confidence >= before.confidence)
      && (point.validAt == row.validAt <==> claim.validAt == before.validAt)
      && (point.headSha == row.headSha <==> claim.headSha.Some? || before.headSha.None?)
  {
    ClosingTable(w.rows, claim);
    DuplicateInTable(Closing(w.rows, claim), claim);
    RefreshedTable(Closing(w.rows, claim), id, claim);
  }
}
