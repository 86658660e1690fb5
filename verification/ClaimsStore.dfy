/** The bi-temporal claims table: `ClaimsStore` over its one SQL table. */
module ClaimsStore {
  import opened Wrappers

  /** Predicates that hold one object at a time. */
  function SingleValued(): set<string> {
    {"prefers", "uses", "deployed-to", "is-located-at", "is-a", "owns", "assigned-to", "depends-on"}
  }

  datatype Claim = Claim(
    id: string, subject: string, pred: string, obj: string, polarity: bool,
    confidence: real, evidence: string, validAt: real, validTo: Option<real>, recordedAt: real,
    headSha: Option<string>, sessionId: Option<string>, promptId: Option<string>,
    entitySubject: Option<string>, entityObject: Option<string>)
  {
    predicate Open() {
      validTo.None?
    }
  }

  /** The table, rows in insertion order. */
  type Table = seq<Claim>

  datatype UpsertResult = UpsertResult(claimId: string, closedIds: seq<string>, wasNew: bool)
  datatype DbError = IntegrityError

  predicate SameKey(a: Claim, b: Claim) {
    a.subject == b.subject && a.pred == b.pred
  }

  predicate SameAssertion(a: Claim, b: Claim) {
    SameKey(a, b) && a.obj == b.obj && a.polarity == b.polarity
  }

  /** An open row about the same thing that says something else. */
  predicate Conflicts(row: Claim, claim: Claim) {
    SameKey(row, claim) && row.Open() && (row.obj != claim.obj || row.polarity != claim.polarity)
  }

  function CloseRow(row: Claim, claim: Claim): Claim {
    if Conflicts(row, claim) then row.(validTo := Some(claim.validAt)) else row
  }

  function CloseConflicting(rows: Table, claim: Claim): (closed: Table)
    ensures |closed| == |rows|
  {
    seq(|rows|, i requires 0 <= i < |rows| => CloseRow(rows[i], claim))
  }

  function ConflictIds(rows: Table, claim: Claim): seq<string> {
    if rows == [] then []
    else
      var ids, last := ConflictIds(rows[..|rows| - 1], claim), rows[|rows| - 1];
      if Conflicts(last, claim) then ids + [last.id] else ids
  }

  predicate IsDuplicate(row: Claim, claim: Claim) {
    row.Open() && SameAssertion(row, claim)
  }

  /** `SELECT id ... LIMIT 1`. */
  function FindOpenDuplicate(rows: Table, claim: Claim): Option<string> {
    if rows == [] then None
    else
      var earlier, last := FindOpenDuplicate(rows[..|rows| - 1], claim), rows[|rows| - 1];
      if earlier.Some? then earlier else if IsDuplicate(last, claim) then Some(last.id) else None
  }

  function Max(a: real, b: real): real {
    if a >= b then a else b
  }

  /** The triple and its validity are left alone; the metadata moves. */
  function RefreshRow(row: Claim, claim: Claim): Claim {
    row.(confidence := Max(row.confidence, claim.confidence),
         evidence := if claim.evidence != "" then claim.evidence else row.evidence,
         recordedAt := claim.recordedAt,
         headSha := Coalesce(claim.headSha, row.headSha),
         sessionId := Coalesce(row.sessionId, claim.sessionId),
         promptId := Coalesce(row.promptId, claim.promptId),
         entitySubject := Coalesce(row.entitySubject, claim.entitySubject),
         entityObject := Coalesce(row.entityObject, claim.entityObject))
  }

  /** `UPDATE claims SET ... WHERE id = ?`. */
  function Refresh(rows: Table, id: string, claim: Claim): (after: Table)
    ensures |after| == |rows|
  {
    seq(|rows|, i requires 0 <= i < |rows| => if rows[i].id == id then RefreshRow(rows[i], claim) else rows[i])
  }

  predicate HasId(rows: Table, id: string) {
    exists i :: 0 <= i < |rows| && rows[i].id == id
  }

  /** The table after the closing update, which comes first. */
  function Closing(rows: Table, claim: Claim): (closed: Table)
    ensures |closed| == |rows|
  {
    if claim.pred in SingleValued() then CloseConflicting(rows, claim) else rows
  }

  /** The table after an upsert. A repeated id fails after the closing update. */
  function Upserted(rows: Table, claim: Claim): Table {
    var rows1 := Closing(rows, claim);
    match FindOpenDuplicate(rows1, claim)
    case Some(id) => Refresh(rows1, id, claim)
    case None => if HasId(rows1, claim.id) then rows1 else rows1 + [claim]
  }

  predicate ValidAt(row: Claim, t: real) {
    row.validAt <= t && (row.validTo.None? || row.validTo.value > t)
  }

  /** The rows that satisfy `keep`, in order. */
  function Filter(rows: Table, keep: Claim -> bool): Table {
    if rows == [] then []
    else
      var init, last := Filter(rows[..|rows| - 1], keep), rows[|rows| - 1];
      if keep(last) then init + [last] else init
  }

  function About(subject: string, pred: string): Claim -> bool {
    (c: Claim) => c.subject == subject && c.pred == pred
  }

  function HoldsAt(t: real): Claim -> bool {
    (c: Claim) => ValidAt(c, t)
  }

  class Store {
    var rows: Table

    constructor ()
      ensures rows == []
    {
      rows := [];
    }

    method CloseConflictingRows(claim: Claim) returns (closedIds: seq<string>)
      modifies this
      ensures rows == CloseConflicting(old(rows), claim)
      ensures closedIds == ConflictIds(old(rows), claim)
    {
      closedIds := [];
      for i := 0 to |rows|
        invariant rows == old(rows) && closedIds == ConflictIds(rows[..i], claim)
      {
        assert rows[..i + 1][..i] == rows[..i];
        if Conflicts(rows[i], claim) {
          closedIds := closedIds + [rows[i].id];
        }
      }
      assert rows[..|rows|] == rows;
      if closedIds != [] {
        rows := CloseConflicting(rows, claim);
      } else {
        NothingToClose(rows, claim);
      }
    }

    method Upsert(claim: Claim) returns (r: Result<UpsertResult, DbError>)
      modifies this
      ensures rows == Upserted(old(rows), claim)
      ensures
        var closed := Closing(old(rows), claim);
        var ids := if claim.pred in SingleValued() then ConflictIds(old(rows), claim) else [];
        r == match FindOpenDuplicate(closed, claim)
             case Some(id) => Ok(UpsertResult(id, ids, false))
             case None => if HasId(closed, claim.id) then Err(IntegrityError) else Ok(UpsertResult(claim.id, ids, true))
    {
      var closedIds := [];
      if claim.pred in SingleValued() {
        closedIds := CloseConflictingRows(claim);
      }
      var existing := FindOpenDuplicate(rows, claim);
      if existing.Some? {
        rows := Refresh(rows, existing.value, claim);
        return Ok(UpsertResult(existing.value, closedIds, false));
      }
      if HasId(rows, claim.id) {
        return Err(IntegrityError);
      }
      rows := rows + [claim];
      r := Ok(UpsertResult(claim.id, closedIds, true));
    }

    method RefreshExisting(id: string, claim: Claim)
      modifies this
      ensures rows == Refresh(old(rows), id, claim)
    {
      rows := Refresh(rows, id, claim);
    }
  }

  lemma {:induction false} NothingToClose(rows: Table, claim: Claim)
    requires ConflictIds(rows, claim) == []
    ensures CloseConflicting(rows, claim) == rows
    ensures forall i :: 0 <= i < |rows| ==> !Conflicts(rows[i], claim)
  {
    if rows != [] {
      NothingToClose(rows[..|rows| - 1], claim);
      assert forall i :: 0 <= i < |rows| - 1 ==> rows[..|rows| - 1][i] == rows[i];
    }
  }

  // ---------------------------------------------------------------- the past is fixed

  /** What a row asserts, apart from its metadata and its end. */
  datatype Assertion = Assertion(id: string, subject: string, pred: string, obj: string, polarity: bool, validAt: real)

  function AssertionOf(c: Claim): Assertion {
    Assertion(c.id, c.subject, c.pred, c.obj, c.polarity, c.validAt)
  }

  function AsOf(rows: Table, t: real): Table {
    Filter(rows, HoldsAt(t))
  }

  function Assertions(rows: Table): (a: seq<Assertion>)
    ensures |a| == |rows|
  {
    seq(|rows|, i requires 0 <= i < |rows| => AssertionOf(rows[i]))
  }

  /** Row by row the same assertion, valid at `t` or not alike. */
  ghost predicate LooksAlike(a: Table, b: Table, t: real) {
    |a| == |b| && forall i :: 0 <= i < |a| ==>
      AssertionOf(a[i]) == AssertionOf(b[i]) && (ValidAt(a[i], t) <==> ValidAt(b[i], t))
  }

  lemma {:induction false} AlikeFilter(a: Table, b: Table, t: real)
    requires LooksAlike(a, b, t)
    ensures Assertions(AsOf(a, t)) == Assertions(AsOf(b, t))
  {
    if a != [] {
      var n := |a| - 1;
      AlikeFilter(a[..n], b[..n], t);
      if ValidAt(a[n], t) {
        assert Assertions(AsOf(a, t)) == Assertions(AsOf(a[..n], t)) + [AssertionOf(a[n])];
        assert Assertions(AsOf(b, t)) == Assertions(AsOf(b[..n], t)) + [AssertionOf(b[n])];
      }
    }
  }

  /** Whatever the table holds, an upsert leaves every earlier point in time as it was. */
  lemma UpsertKeepsThePast(rows: Table, claim: Claim, t: real)
    requires t < claim.validAt
    ensures Assertions(AsOf(Upserted(rows, claim), t)) == Assertions(AsOf(rows, t))
  {
    var rows1, rows2 := Closing(rows, claim), Upserted(rows, claim);
    assert LooksAlike(rows, rows1, t);
    if |rows2| == |rows| {
      assert LooksAlike(rows, rows2, t);
      AlikeFilter(rows, rows2, t);
    } else {
      assert rows2[..|rows1|] == rows1;
      AlikeFilter(rows, rows1, t);
    }
  }
}
