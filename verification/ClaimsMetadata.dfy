/** What the row of a turn remembers of the claims that said the same thing. */
module ClaimsMetadata {
  import opened Wrappers
  import opened ClaimsStore
  import opened ClaimsTimeline

  /** The claims of every turn, from the one that begins it to the last that repeats it. */
  function Stretches(said: seq<Claim>): (all: seq<seq<Claim>>)
    ensures forall i :: 0 <= i < |all| ==> all[i] != []
  {
    if said == [] then []
    else
      var before, c := Stretches(said[..|said| - 1]), said[|said| - 1];
      var n := |before| - 1;
      if before != [] && SameAssertion(before[n][0], c) then before[n := before[n] + [c]] else before + [[c]]
  }

  /** A turn is begun by the first claim of its stretch. */
  lemma {:induction false} StretchesBegin(said: seq<Claim>)
    ensures |Stretches(said)| == |Turns(said)|
    ensures forall i :: 0 <= i < |Turns(said)| ==> Turns(said)[i] == Stretches(said)[i][0]
  {
    if said != [] {
      StretchesBegin(said[..|said| - 1]);
    }
  }

  // ---------------------------------------------------------------- first and last values

  /** The first value that a claim of the stretch gives; none if none gives one. */
  ghost predicate IsFirst<T>(r: Option<T>, stretch: seq<Claim>, f: Claim -> Option<T>) {
    || (r.None? && forall i :: 0 <= i < |stretch| ==> f(stretch[i]).None?)
    || (r.Some? && exists i :: 0 <= i < |stretch| && f(stretch[i]) == r && forall j :: 0 <= j < i ==>
          f(stretch[j]).None?)
  }

  ghost predicate IsLast<T>(r: Option<T>, stretch: seq<Claim>, f: Claim -> Option<T>) {
    || (r.None? && forall i :: 0 <= i < |stretch| ==> f(stretch[i]).None?)
    || (r.Some? && exists i :: 0 <= i < |stretch| && f(stretch[i]) == r && forall j :: i < j < |stretch| ==>
          f(stretch[j]).None?)
  }

  lemma FirstMore<T>(r: Option<T>, stretch: seq<Claim>, c: Claim, f: Claim -> Option<T>)
    requires IsFirst(r, stretch, f)
    ensures IsFirst(Coalesce(r, f(c)), stretch + [c], f)
  {
    var more := stretch + [c];
    if r.Some? {
      var i :| 0 <= i < |stretch| && f(stretch[i]) == r && forall j :: 0 <= j < i ==> f(stretch[j]).None?;
      assert f(more[i]) == r && forall j :: 0 <= j < i ==> more[j] == stretch[j];
    } else {
      assert more[|stretch|] == c && forall j :: 0 <= j < |stretch| ==> more[j] == stretch[j];
    }
  }

  lemma LastMore<T>(r: Option<T>, stretch: seq<Claim>, c: Claim, f: Claim -> Option<T>)
    requires IsLast(r, stretch, f)
    ensures IsLast(Coalesce(f(c), r), stretch + [c], f)
  {
    var more := stretch + [c];
    assert more[|stretch|] == c && forall j :: 0 <= j < |stretch| ==> more[j] == stretch[j];
    if f(c).None? && r.Some? {
      var i :| 0 <= i < |stretch| && f(stretch[i]) == r && forall j :: i < j < |stretch| ==> f(stretch[j]).None?;
      assert f(more[i]) == r;
    }
  }

  // ---------------------------------------------------------------- one row

  function Given(text: string): Option<string> {
    if text == "" then None else Some(text)
  }

  function EvidenceOf(): Claim -> Option<string> {
    (c: Claim) => Given(c.evidence)
  }

  function HeadOf(): Claim -> Option<string> {
    (c: Claim) => c.headSha
  }

  function SessionOf(): Claim -> Option<string> {
    (c: Claim) => c.sessionId
  }

  function PromptOf(): Claim -> Option<string> {
    (c: Claim) => c.promptId
  }

  function SubjectOf(): Claim -> Option<string> {
    (c: Claim) => c.entitySubject
  }

  function ObjectOf(): Claim -> Option<string> {
    (c: Claim) => c.entityObject
  }

  ghost predicate IsStrongest(confidence: real, stretch: seq<Claim>) {
    && (forall i :: 0 <= i < |stretch| ==> stretch[i].confidence <= confidence)
    && exists i :: 0 <= i < |stretch| && stretch[i].confidence == confidence
  }

  /** Confidence is the highest given; evidence and head are the last given; the time of recording is the last; the
      session, the prompt and the entities are the first given. */
  ghost predicate Remembers(row: Claim, stretch: seq<Claim>)
    requires stretch != []
  {
    && IsStrongest(row.confidence, stretch) && row.recordedAt == stretch[|stretch| - 1].recordedAt
    && IsLast(Given(row.evidence), stretch, EvidenceOf()) && IsLast(row.headSha, stretch, HeadOf())
    && IsFirst(row.sessionId, stretch, SessionOf()) && IsFirst(row.promptId, stretch, PromptOf())
    && IsFirst(row.entitySubject, stretch, SubjectOf()) && IsFirst(row.entityObject, stretch, ObjectOf())
  }

  lemma RemembersOne(c: Claim)
    ensures Remembers(c, [c])
  {
    assert [c][0] == c;
  }

  lemma RemembersMore(row: Claim, stretch: seq<Claim>, c: Claim)
    requires stretch != [] && Remembers(row, stretch)
    ensures Remembers(RefreshRow(row, c), stretch + [c])
  {
    StrongestMore(row.confidence, stretch, c);
    LastMore(Given(row.evidence), stretch, c, EvidenceOf());
    LastMore(row.headSha, stretch, c, HeadOf());
    FirstMore(row.sessionId, stretch, c, SessionOf());
    FirstMore(row.promptId, stretch, c, PromptOf());
    FirstMore(row.entitySubject, stretch, c, SubjectOf());
    FirstMore(row.entityObject, stretch, c, ObjectOf());
  }

  lemma StrongestMore(confidence: real, stretch: seq<Claim>, c: Claim)
    requires IsStrongest(confidence, stretch)
    ensures IsStrongest(Max(confidence, c.confidence), stretch + [c])
  {
    var more := stretch + [c];
    assert more[|stretch|] == c && forall j :: 0 <= j < |stretch| ==> more[j] == stretch[j];
    var i :| 0 <= i < |stretch| && stretch[i].confidence == confidence;
    assert more[i].confidence == confidence;
  }

  /** Closing a row changes its end only. */
  lemma RemembersClosed(row: Claim, claim: Claim, stretch: seq<Claim>)
    requires stretch != [] && Remembers(row, stretch)
    ensures Remembers(CloseRow(row, claim), stretch)
  {
  }

  // ---------------------------------------------------------------- all rows of one key

  ghost predicate AllRemember(rows: Table, stretches: seq<seq<Claim>>) {
    && |rows| == |stretches|
    && forall i :: 0 <= i < |rows| ==> stretches[i] != [] && Remembers(rows[i], stretches[i])
  }

  ghost predicate DistinctIds(rows: Table) {
    forall i, j :: 0 <= i < j < |rows| ==> rows[i].id != rows[j].id
  }

  lemma {:induction false} DistinctSelected(rows: Table, keep: Claim -> bool)
    requires DistinctIds(rows)
    ensures DistinctIds(Filter(rows, keep))
  {
    if rows != [] {
      var init, last := rows[..|rows| - 1], rows[|rows| - 1];
      DistinctSelected(init, keep);
      FilterKeeps(init, keep);
      forall i | 0 <= i < |Filter(init, keep)|
        ensures Filter(init, keep)[i].id != last.id
      {
        assert Filter(init, keep)[i] in init;
      }
    }
  }

  lemma DistinctAfter(rows: Table, claim: Claim)
    requires DistinctIds(rows) && !HasId(Closing(rows, claim), claim.id)
    ensures DistinctIds(Upserted(rows, claim))
  {
    var closed := Closing(rows, claim);
    assert forall i :: 0 <= i < |rows| ==> closed[i].id == rows[i].id;
  }

  lemma {:induction false} DistinctInRun(claims: seq<Claim>)
    requires FreshIds(claims)
    ensures DistinctIds(TableAfter(claims))
  {
    if claims != [] {
      var n := |claims| - 1;
      DistinctInRun(claims[..n]);
      NoClash(claims, n);
      DistinctAfter(TableAfter(claims[..n]), claims[n]);
    }
  }

  lemma AllRememberClosed(rows: Table, claim: Claim, stretches: seq<seq<Claim>>)
    requires AllRemember(rows, stretches)
    ensures AllRemember(CloseConflicting(rows, claim), stretches)
  {
    forall i | 0 <= i < |rows|
      ensures Remembers(CloseRow(rows[i], claim), stretches[i])
    {
      RemembersClosed(rows[i], claim, stretches[i]);
    }
  }

  /** Refreshing another row's id changes nothing; the last row's id, the last row. */
  lemma AllRememberRefreshed(rows: Table, c: Claim, stretches: seq<seq<Claim>>)
    requires rows != [] && AllRemember(rows, stretches) && DistinctIds(rows)
    ensures
      var n := |rows| - 1;
      AllRemember(Refresh(rows, rows[n].id, c), stretches[n := stretches[n] + [c]])
  {
    var n := |rows| - 1;
    RemembersMore(rows[n], stretches[n], c);
  }

  lemma RefreshedElsewhere(rows: Table, id: string, c: Claim)
    requires forall i :: 0 <= i < |rows| ==> rows[i].id != id
    ensures Refresh(rows, id, c) == rows
  {
  }

  /** The stretches of a key after one more claim about it. */
  function NextStretches(stretches: seq<seq<Claim>>, c: Claim): seq<seq<Claim>>
    requires forall i :: 0 <= i < |stretches| ==> stretches[i] != []
  {
    var n := |stretches| - 1;
    if stretches != [] && SameAssertion(stretches[n][0], c) then stretches[n := stretches[n] + [c]]
      else stretches + [[c]]
  }

  // ---------------------------------------------------------------- one upsert

  /** The open duplicate of a claim is the last row of its key. */
  lemma DuplicateIsLast(rows: Table, mine: Table, turns: seq<Claim>, c: Claim)
    requires mine == Filter(rows, About(c.subject, c.pred)) && Chained(mine, turns)
    requires FindOpenDuplicate(rows, c).Some?
    ensures mine != [] && FindOpenDuplicate(rows, c).value == mine[|mine| - 1].id
  {
    DuplicateFound(rows, c);
    var i :| 0 <= i < |rows| && IsDuplicate(rows[i], c) && FindOpenDuplicate(rows, c) == Some(rows[i].id);
    FilterIndex(rows, About(c.subject, c.pred), i);
    var k :| 0 <= k < |mine| && mine[k] == rows[i];
    assert mine[k].validTo == EndOf(turns, k);
  }

  /** The claim repeats the last turn. */
  lemma RepeatRemembers(rows: Table, turns: seq<Claim>, stretches: seq<seq<Claim>>, c: Claim)
    requires FindOpenDuplicate(rows, c).Some?
    requires Chained(Filter(rows, About(c.subject, c.pred)), turns)
    requires DistinctIds(Filter(rows, About(c.subject, c.pred)))
    requires stretches != [] && AllRemember(Filter(rows, About(c.subject, c.pred)), stretches)
    ensures
      var n := |stretches| - 1;
      AllRemember(Filter(Refresh(rows, FindOpenDuplicate(rows, c).value, c), About(c.subject, c.pred)),
                  stretches[n := stretches[n] + [c]])
  {
    var mine := Filter(rows, About(c.subject, c.pred));
    DuplicateIsLast(rows, mine, turns, c);
    RefreshedLast(rows, mine, stretches, c);
  }

  lemma RefreshedLast(rows: Table, mine: Table, stretches: seq<seq<Claim>>, c: Claim)
    requires mine == Filter(rows, About(c.subject, c.pred)) && mine != [] && DistinctIds(mine)
    requires AllRemember(mine, stretches)
    ensures
      var n := |stretches| - 1;
      AllRemember(Filter(Refresh(rows, mine[|mine| - 1].id, c), About(c.subject, c.pred)),
                  stretches[n := stretches[n] + [c]])
  {
    RefreshSelected(rows, mine[|mine| - 1].id, c, c.subject, c.pred);
    AllRememberRefreshed(mine, c, stretches);
  }

  /** The claim begins a turn. */
  lemma BeginRemembers(rows: Table, stretches: seq<seq<Claim>>, c: Claim)
    requires AllRemember(rows, stretches)
    ensures AllRemember(rows + [c], stretches + [[c]])
  {
    RemembersOne(c);
  }

  /** Which of the two it is. */
  lemma RepeatsIff(rows: Table, turns: seq<Claim>, c: Claim)
    requires c.pred in SingleValued() && c.Open() && Chained(Filter(rows, About(c.subject, c.pred)), turns)
    requires forall i :: 0 <= i < |turns| ==> SameKey(turns[i], c)
    ensures
      var closed, about := Closing(rows, c), About(c.subject, c.pred);
      if turns != [] && SameAssertion(turns[|turns| - 1], c) then
        Filter(closed, about) == Filter(rows, about) && FindOpenDuplicate(closed, c).Some?
      else
        Filter(closed, about) == CloseConflicting(Filter(rows, about), c) && FindOpenDuplicate(closed, c).None?
  {
    var about, closed := About(c.subject, c.pred), Closing(rows, c);
    var mine := Filter(rows, about);
    ClosingSelected(rows, c, c.subject, c.pred);
    ChainedStep(mine, turns, c);
    DuplicateFound(closed, c);
    if turns != [] && SameAssertion(turns[|turns| - 1], c) {
      assert mine[|mine| - 1] in Filter(closed, about);
    }
  }

  lemma SameKeyRemembers(rows: Table, turns: seq<Claim>, stretches: seq<seq<Claim>>, c: Claim)
    requires c.pred in SingleValued() && c.Open() && DistinctIds(rows)
    requires Chained(Filter(rows, About(c.subject, c.pred)), turns)
    requires forall i :: 0 <= i < |turns| ==> SameKey(turns[i], c)
    requires !HasId(Closing(rows, c), c.id)
    requires AllRemember(Filter(rows, About(c.subject, c.pred)), stretches)
    requires forall i :: 0 <= i < |turns| ==> turns[i] == stretches[i][0]
    ensures AllRemember(Filter(Upserted(rows, c), About(c.subject, c.pred)), NextStretches(stretches, c))
  {
    var about, closed := About(c.subject, c.pred), Closing(rows, c);
    RepeatsIff(rows, turns, c);
    if turns != [] && SameAssertion(turns[|turns| - 1], c) {
      DistinctSelected(rows, about);
      RepeatRemembers(closed, turns, stretches, c);
    } else {
      AllRememberClosed(Filter(rows, about), c, stretches);
      BeginRemembers(Filter(closed, about), stretches, c);
      FilterSnoc(closed, c, about);
    }
  }

  lemma OtherKeyRemembers(rows: Table, stretches: seq<seq<Claim>>, c: Claim, s: string, p: string)
    requires (c.subject != s || c.pred != p) && DistinctIds(rows)
    requires AllRemember(Filter(rows, About(s, p)), stretches)
    ensures AllRemember(Filter(Upserted(rows, c), About(s, p)), stretches)
  {
    var rows1, mine := Closing(rows, c), Filter(rows, About(s, p));
    ClosingSelected(rows, c, s, p);
    FilterSnoc(rows1, c, About(s, p));
    if FindOpenDuplicate(rows1, c).Some? {
      var id := FindOpenDuplicate(rows1, c).value;
      RefreshSelected(rows1, id, c, s, p);
      DuplicateElsewhere(rows1, c, s, p);
      RefreshedElsewhere(mine, id, c);
    }
  }

  lemma DuplicateElsewhere(rows: Table, c: Claim, s: string, p: string)
    requires (c.subject != s || c.pred != p) && DistinctIds(rows) && FindOpenDuplicate(rows, c).Some?
    ensures
      var mine := Filter(rows, About(s, p));
      forall k :: 0 <= k < |mine| ==> mine[k].id != FindOpenDuplicate(rows, c).value
  {
    FirstDuplicate(rows, c);
    FilterKeeps(rows, About(s, p));
    var mine := Filter(rows, About(s, p));
    var i :| 0 <= i < |rows| && IsDuplicate(rows[i], c) && FindOpenDuplicate(rows, c) == Some(rows[i].id);
    forall k | 0 <= k < |mine|
      ensures mine[k].id != rows[i].id
    {
      assert mine[k] in rows;
      var j :| 0 <= j < |rows| && rows[j] == mine[k];
    }
  }

  // ---------------------------------------------------------------- whole runs

  /** After every run, the row of each turn of a single-valued key carries the metadata of exactly the claims of that
      turn, however claims about other keys come between. */
  lemma {:induction false} MetadataOfTurns(claims: seq<Claim>, s: string, p: string)
    requires FreshIds(claims) && p in SingleValued() && OpenInserts(Said(claims, s, p))
    ensures AllRemember(Filter(TableAfter(claims), About(s, p)), Stretches(Said(claims, s, p)))
  {
    if claims != [] {
      var n := |claims| - 1;
      var c, rows, said := claims[n], TableAfter(claims[..n]), Said(claims[..n], s, p);
      DistinctInRun(claims[..n]);
      if About(s, p)(c) {
        SaidOpen(said, c);
        MetadataOfTurns(claims[..n], s, p);
        RowsAreTurns(claims[..n], s, p);
        TurnsOfSaid(claims[..n], s, p);
        StretchesBegin(said);
        NoClash(claims, n);
        SameKeyRemembers(rows, Turns(said), Stretches(said), c);
        assert (said + [c])[..|said|] == said;
      } else {
        MetadataOfTurns(claims[..n], s, p);
        OtherKeyRemembers(rows, Stretches(said), c, s, p);
      }
    }
  }

  lemma SaidOpen(said: seq<Claim>, c: Claim)
    requires OpenInserts(said + [c])
    ensures OpenInserts(said) && c.Open()
  {
    assert forall i :: 0 <= i < |said| ==> said[i] == (said + [c])[i];
    assert (said + [c])[|said|] == c;
  }
}
