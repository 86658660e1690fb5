/** Point-in-time answers over whole runs of `upsert`. */
module ClaimsTimeline {
  import opened Wrappers
  import opened ClaimsStore

  /** The table after a run of upserts on an empty store. */
  function TableAfter(claims: seq<Claim>): Table {
    if claims == [] then []
    else Upserted(TableAfter(claims[..|claims| - 1]), claims[|claims| - 1])
  }

  /** The run gives every claim an id of its own. */
  ghost predicate FreshIds(claims: seq<Claim>) {
    forall i, j :: 0 <= i < j < |claims| ==> claims[i].id != claims[j].id
  }

  /** The claims about one (subject, predicate), in the order they were made. */
  function Said(claims: seq<Claim>, s: string, p: string): seq<Claim> {
    Filter(claims, About(s, p))
  }

  predicate OpenInserts(claims: seq<Claim>) {
    forall i :: 0 <= i < |claims| ==> claims[i].Open()
  }

  /** The first claim of every stretch in which the same thing is said again and again. */
  function Turns(said: seq<Claim>): seq<Claim> {
    if said == [] then []
    else
      var turns, c := Turns(said[..|said| - 1]), said[|said| - 1];
      if turns != [] && SameAssertion(turns[|turns| - 1], c) then turns else turns + [c]
  }

  /** When the turn ends: when the next one begins. */
  function EndOf(turns: seq<Claim>, i: nat): Option<real>
    requires i < |turns|
  {
    if i + 1 < |turns| then Some(turns[i + 1].validAt) else None
  }

  /** The rows are the turns, each closed by the next. */
  ghost predicate Chained(rows: Table, turns: seq<Claim>) {
    |rows| == |turns| && forall i :: 0 <= i < |rows| ==>
      AssertionOf(rows[i]) == AssertionOf(turns[i]) && rows[i].validTo == EndOf(turns, i)
  }

  // ---------------------------------------------------------------- one upsert, seen at one key

  lemma {:induction false} FilterIndex(rows: Table, keep: Claim -> bool, i: nat)
    requires i < |rows| && keep(rows[i])
    ensures rows[i] in Filter(rows, keep)
  {
    if i < |rows| - 1 {
      FilterIndex(rows[..|rows| - 1], keep, i);
    }
  }

  lemma {:induction false} FilterKeeps(rows: Table, keep: Claim -> bool)
    ensures forall i :: 0 <= i < |Filter(rows, keep)| ==> keep(Filter(rows, keep)[i]) && Filter(rows, keep)[i] in rows
  {
    if rows != [] {
      FilterKeeps(rows[..|rows| - 1], keep);
    }
  }

  lemma FilterSnoc(rows: Table, row: Claim, keep: Claim -> bool)
    ensures Filter(rows + [row], keep) == if keep(row) then Filter(rows, keep) + [row] else Filter(rows, keep)
  {
    assert (rows + [row])[..|rows|] == rows;
  }

  /** Closing works inside the selection of the claim's own key, and nowhere else. */
  lemma {:induction false} ClosingSelected(rows: Table, claim: Claim, s: string, p: string)
    ensures Filter(CloseConflicting(rows, claim), About(s, p)) ==
      if claim.subject == s && claim.pred == p then CloseConflicting(Filter(rows, About(s, p)), claim)
        else Filter(rows, About(s, p))
  {
    if rows != [] {
      var n := |rows| - 1;
      ClosingSelected(rows[..n], claim, s, p);
      assert CloseConflicting(rows, claim)[..n] == CloseConflicting(rows[..n], claim);
    }
  }

  lemma {:induction false} RefreshSelected(rows: Table, id: string, claim: Claim, s: string, p: string)
    ensures Filter(Refresh(rows, id, claim), About(s, p)) == Refresh(Filter(rows, About(s, p)), id, claim)
  {
    if rows != [] {
      var n := |rows| - 1;
      RefreshSelected(rows[..n], id, claim, s, p);
      assert Refresh(rows, id, claim)[..n] == Refresh(rows[..n], id, claim);
    }
  }

  /** A duplicate is found exactly when the selection holds an open row that says the same. */
  lemma {:induction false} DuplicateFound(rows: Table, claim: Claim)
    ensures FindOpenDuplicate(rows, claim).Some? <==>
      exists r :: r in Filter(rows, About(claim.subject, claim.pred)) && IsDuplicate(r, claim)
    ensures FindOpenDuplicate(rows, claim).Some? ==>
      exists i :: 0 <= i < |rows| && IsDuplicate(rows[i], claim) && FindOpenDuplicate(rows, claim) == Some(rows[i].id)
    ensures FindOpenDuplicate(rows, claim).None? ==> forall i :: 0 <= i < |rows| ==> !IsDuplicate(rows[i], claim)
  {
    FirstDuplicate(rows, claim);
    var about := About(claim.subject, claim.pred);
    FilterKeeps(rows, about);
    if FindOpenDuplicate(rows, claim).Some? {
      var i :| 0 <= i < |rows| && IsDuplicate(rows[i], claim) && FindOpenDuplicate(rows, claim) == Some(rows[i].id);
      FilterIndex(rows, about, i);
    }
  }

  lemma {:induction false} FirstDuplicate(rows: Table, claim: Claim)
    ensures FindOpenDuplicate(rows, claim).Some? ==>
      exists i :: 0 <= i < |rows| && IsDuplicate(rows[i], claim) && FindOpenDuplicate(rows, claim) == Some(rows[i].id)
    ensures FindOpenDuplicate(rows, claim).None? ==> forall i :: 0 <= i < |rows| ==> !IsDuplicate(rows[i], claim)
  {
    if rows != [] {
      var n := |rows| - 1;
      FirstDuplicate(rows[..n], claim);
      assert forall i :: 0 <= i < n ==> rows[..n][i] == rows[i];
    }
  }

  /** An upsert adds no id but the claim's. */
  lemma IdsAfterOne(rows: Table, claim: Claim, r: Claim)
    requires r in Upserted(rows, claim)
    ensures r.id == claim.id || exists k :: 0 <= k < |rows| && rows[k].id == r.id
  {
    var after := Upserted(rows, claim);
    var k :| 0 <= k < |after| && after[k] == r;
    if k < |rows| {
      assert rows[k].id == r.id;
    }
  }

  /** Ids in the table come from the run. */
  lemma {:induction false} IdsFromRun(claims: seq<Claim>)
    ensures forall r :: r in TableAfter(claims) ==> exists i :: 0 <= i < |claims| && claims[i].id == r.id
  {
    if claims != [] {
      var n := |claims| - 1;
      IdsFromRun(claims[..n]);
      var rows := TableAfter(claims[..n]);
      forall r | r in TableAfter(claims)
        ensures exists i :: 0 <= i < |claims| && claims[i].id == r.id
      {
        IdsAfterOne(rows, claims[n], r);
        if r.id == claims[n].id {
          assert claims[n].id == r.id;
        } else {
          var k :| 0 <= k < |rows| && rows[k].id == r.id;
          assert rows[k] in rows;
          var i :| 0 <= i < n && claims[..n][i].id == rows[k].id;
          assert claims[i].id == r.id;
        }
      }
    }
  }

  lemma NoClash(claims: seq<Claim>, n: nat)
    requires FreshIds(claims) && n < |claims|
    ensures !HasId(Closing(TableAfter(claims[..n]), claims[n]), claims[n].id)
  {
    IdsFromRun(claims[..n]);
    var rows := TableAfter(claims[..n]);
    forall k | 0 <= k < |rows|
      ensures Closing(rows, claims[n])[k].id != claims[n].id
    {
      assert rows[k] in rows;
      var i :| 0 <= i < |claims[..n]| && claims[..n][i].id == rows[k].id;
    }
  }

  /** The turns of a key after one more claim. */
  lemma ChainedStep(rows: Table, turns: seq<Claim>, c: Claim)
    requires Chained(rows, turns) && c.Open()
    requires forall i :: 0 <= i < |turns| ==> SameKey(turns[i], c)
    ensures
      var closed := CloseConflicting(rows, c);
      if turns != [] && SameAssertion(turns[|turns| - 1], c) then closed == rows && IsDuplicate(rows[|rows| - 1], c)
      else Chained(closed + [c], turns + [c]) && forall r :: r in closed ==> !IsDuplicate(r, c)
  {
    var closed := CloseConflicting(rows, c);
    forall i | 0 <= i < |rows|
      ensures rows[i].Open() <==> i == |rows| - 1
      ensures SameKey(rows[i], c)
    {
      assert AssertionOf(rows[i]) == AssertionOf(turns[i]);
    }
  }

  lemma RefreshedChain(rows: Table, turns: seq<Claim>, id: string, c: Claim)
    requires Chained(rows, turns)
    ensures Chained(Refresh(rows, id, c), turns)
  {
  }

  function NextTurns(turns: seq<Claim>, c: Claim): seq<Claim> {
    if turns != [] && SameAssertion(turns[|turns| - 1], c) then turns else turns + [c]
  }

  /** A claim about another key leaves the turns alone. */
  lemma OtherKeyStep(rows: Table, turns: seq<Claim>, c: Claim, s: string, p: string)
    requires c.subject != s || c.pred != p
    requires Chained(Filter(rows, About(s, p)), turns)
    ensures Chained(Filter(Upserted(rows, c), About(s, p)), turns)
  {
    var rows1 := Closing(rows, c);
    ClosingSelected(rows, c, s, p);
    FilterSnoc(rows1, c, About(s, p));
    if FindOpenDuplicate(rows1, c).Some? {
      var id := FindOpenDuplicate(rows1, c).value;
      RefreshSelected(rows1, id, c, s, p);
      RefreshedChain(Filter(rows, About(s, p)), turns, id, c);
    }
  }

  /** A claim about the key continues the last turn or begins another. */
  lemma SameKeyStep(rows: Table, turns: seq<Claim>, c: Claim)
    requires c.pred in SingleValued() && c.Open()
    requires Chained(Filter(rows, About(c.subject, c.pred)), turns)
    requires forall i :: 0 <= i < |turns| ==> SameKey(turns[i], c)
    requires !HasId(Closing(rows, c), c.id)
    ensures Chained(Filter(Upserted(rows, c), About(c.subject, c.pred)), NextTurns(turns, c))
  {
    var about, rows1 := About(c.subject, c.pred), Closing(rows, c);
    var mine := Filter(rows, about);
    ClosingSelected(rows, c, c.subject, c.pred);
    DuplicateFound(rows1, c);
    FilterSnoc(rows1, c, about);
    ChainedStep(mine, turns, c);
    assert NextTurns(turns, c) == turns ==> mine[|mine| - 1] in Filter(rows1, about);
    if FindOpenDuplicate(rows1, c).Some? {
      var id := FindOpenDuplicate(rows1, c).value;
      RefreshSelected(rows1, id, c, c.subject, c.pred);
      RefreshedChain(mine, turns, id, c);
    }
  }

  /** After every run, in whatever order of time the claims come, the rows of a
      single-valued (subject, predicate) are its turns, each ending when the next begins. */
  lemma {:induction false} RowsAreTurns(claims: seq<Claim>, s: string, p: string)
    requires FreshIds(claims) && p in SingleValued() && OpenInserts(Said(claims, s, p))
    ensures Chained(Filter(TableAfter(claims), About(s, p)), Turns(Said(claims, s, p)))
  {
    if claims != [] {
      var n := |claims| - 1;
      var c, said := claims[n], Said(claims[..n], s, p);
      if About(s, p)(c) {
        assert Said(claims, s, p) == said + [c];
        assert OpenInserts(said) && c.Open() by {
          assert forall i :: 0 <= i < |said| ==> said[i] == (said + [c])[i];
          assert (said + [c])[|said|] == c;
        }
        RowsAreTurns(claims[..n], s, p);
        TurnsOfSaid(claims[..n], s, p);
        NoClash(claims, n);
        SameKeyStep(TableAfter(claims[..n]), Turns(said), c);
        assert (said + [c])[..|said|] == said;
      } else {
        RowsAreTurns(claims[..n], s, p);
        OtherKeyStep(TableAfter(claims[..n]), Turns(said), c, s, p);
      }
    }
  }

  lemma {:induction false} TurnsAreSaid(said: seq<Claim>)
    ensures forall i :: 0 <= i < |Turns(said)| ==> Turns(said)[i] in said
    ensures said != [] ==> Turns(said) != [] && Turns(said)[0] == said[0]
  {
    if said != [] {
      TurnsAreSaid(said[..|said| - 1]);
    }
  }

  lemma TurnsOfSaid(claims: seq<Claim>, s: string, p: string)
    ensures forall i :: 0 <= i < |Turns(Said(claims, s, p))| ==>
      Turns(Said(claims, s, p))[i].subject == s && Turns(Said(claims, s, p))[i].pred == p
  {
    var said := Said(claims, s, p);
    TurnsAreSaid(said);
    FilterKeeps(claims, About(s, p));
  }

  // ---------------------------------------------------------------- as_of

  /** The turn holds at time `t`. */
  predicate TurnHolds(turns: seq<Claim>, i: int, t: real) {
    0 <= i < |turns| && turns[i].validAt <= t && (i + 1 < |turns| ==> t < turns[i + 1].validAt)
  }

  /** What `as_of(t)` answers about one key. */
  function AsOfKey(claims: seq<Claim>, s: string, p: string, t: real): Table {
    Filter(AsOf(TableAfter(claims), t), About(s, p))
  }

  lemma {:induction false} FilterTwice(rows: Table, f: Claim -> bool, g: Claim -> bool)
    ensures Filter(Filter(rows, f), g) == Filter(Filter(rows, g), f)
  {
    if rows != [] {
      var n := |rows| - 1;
      FilterTwice(rows[..n], f, g);
      FilterSnoc(Filter(rows[..n], f), rows[n], g);
      FilterSnoc(Filter(rows[..n], g), rows[n], f);
    }
  }

  /** Narrowing the answer or asking the narrowed table is the same. */
  lemma AskedOfKey(claims: seq<Claim>, s: string, p: string, t: real)
    ensures AsOfKey(claims, s, p, t) == AsOf(Filter(TableAfter(claims), About(s, p)), t)
  {
    FilterTwice(TableAfter(claims), HoldsAt(t), About(s, p));
  }

  /** The positions of the rows that hold at `t`. */
  function Holding(rows: Table, t: real): (held: seq<nat>)
    ensures forall i :: 0 <= i < |held| ==> held[i] < |rows|
  {
    if rows == [] then []
    else
      var n := |rows| - 1;
      Holding(rows[..n], t) + if ValidAt(rows[n], t) then [n] else []
  }

  /** They are listed in order, and the rows at them are the answer. */
  lemma {:induction false} HoldingAre(rows: Table, t: real)
    ensures |Holding(rows, t)| == |AsOf(rows, t)|
    ensures forall i :: 0 <= i < |Holding(rows, t)| ==>
      ValidAt(rows[Holding(rows, t)[i]], t) && AsOf(rows, t)[i] == rows[Holding(rows, t)[i]]
    ensures forall k :: 0 <= k < |rows| && ValidAt(rows[k], t) ==> k in Holding(rows, t)
    ensures forall i, j :: 0 <= i < j < |Holding(rows, t)| ==> Holding(rows, t)[i] < Holding(rows, t)[j]
  {
    if rows != [] {
      HoldingAre(rows[..|rows| - 1], t);
    }
  }

  /** The answer at any time is exactly the turns that hold then. */
  lemma AsOfIsTurns(claims: seq<Claim>, s: string, p: string, t: real)
    requires FreshIds(claims) && p in SingleValued() && OpenInserts(Said(claims, s, p))
    ensures
      var turns, held := Turns(Said(claims, s, p)), Holding(Filter(TableAfter(claims), About(s, p)), t);
      && |AsOfKey(claims, s, p, t)| == |held|
      && (forall k :: k in held <==> TurnHolds(turns, k, t))
      && (forall i :: 0 <= i < |held| ==>
          TurnHolds(turns, held[i], t) && AssertionOf(AsOfKey(claims, s, p, t)[i]) == AssertionOf(turns[held[i]]))
  {
    RowsAreTurns(claims, s, p);
    AskedOfKey(claims, s, p, t);
    HoldingAre(Filter(TableAfter(claims), About(s, p)), t);
  }

  /** No turn that began by `t` comes after one that begins later. */
  ghost predicate Prefixed(turns: seq<Claim>, t: real) {
    forall i, j :: 0 <= i < j < |turns| && turns[j].validAt <= t ==> turns[i].validAt <= t
  }

  /** The last turn that began by `t`. */
  lemma {:induction false} LastBegun(turns: seq<Claim>, t: real, i: nat) returns (k: nat)
    requires i < |turns| && turns[i].validAt <= t
    ensures i <= k < |turns| && TurnHolds(turns, k, t)
    ensures forall j :: k < j < |turns| ==> turns[j].validAt > t
  {
    k := |turns| - 1;
    while turns[k].validAt > t
      invariant i <= k < |turns|
      invariant forall j :: k < j < |turns| ==> turns[j].validAt > t
      decreases k
    {
      k := k - 1;
    }
  }

  /** A turn before `i` holds at `t` if the first began by `t` and the `i`-th had not. */
  lemma {:induction false} HoldsBefore(turns: seq<Claim>, t: real, i: nat) returns (k: nat)
    requires 0 < i < |turns| && turns[0].validAt <= t < turns[i].validAt
    ensures k < i && TurnHolds(turns, k, t)
  {
    k := i - 1;
    while turns[k].validAt > t
      invariant k < i && turns[k + 1].validAt > t
      decreases k
    {
      k := k - 1;
    }
  }

  ghost predicate ExactlyOneHolds(turns: seq<Claim>, t: real) {
    exists k :: TurnHolds(turns, k, t) && forall j :: TurnHolds(turns, j, t) ==> j == k
  }

  lemma OneHoldsIff(turns: seq<Claim>, t: real)
    requires turns != [] && turns[0].validAt <= t
    ensures ExactlyOneHolds(turns, t) <==> Prefixed(turns, t)
  {
    var last := LastBegun(turns, t, 0);
    if !Prefixed(turns, t) {
      var i, j :| 0 <= i < j < |turns| && turns[j].validAt <= t && turns[i].validAt > t;
      var early := HoldsBefore(turns, t, i);
      var late := LastBegun(turns, t, j);
    } else {
      assert forall j :: 0 <= j <= last ==> turns[j].validAt <= t;
    }
  }

  lemma OneHeldIff(turns: seq<Claim>, held: seq<nat>, t: real)
    requires forall k :: k in held <==> TurnHolds(turns, k, t)
    requires forall i, j :: 0 <= i < j < |held| ==> held[i] < held[j]
    ensures |held| == 1 <==> ExactlyOneHolds(turns, t)
  {
    assert forall i :: 0 <= i < |held| ==> TurnHolds(turns, held[i], t);
    assert |held| >= 2 ==> held[0] < held[1];
    if |held| == 1 {
      assert TurnHolds(turns, held[0], t);
    }
    if ExactlyOneHolds(turns, t) {
      var k :| TurnHolds(turns, k, t) && forall j :: TurnHolds(turns, j, t) ==> j == k;
      assert k in held;
      assert forall i :: 0 <= i < |held| ==> held[i] == k;
    }
  }

  /** From the first claim's time on, `as_of(t)` returns exactly one row of a
      single-valued key if and only if the turns begun by `t` come before all
      others: no turn is back-dated across `t`. */
  lemma ExactlyOneRowIff(claims: seq<Claim>, s: string, p: string, t: real)
    requires FreshIds(claims) && p in SingleValued() && OpenInserts(Said(claims, s, p))
    requires Said(claims, s, p) != [] && Said(claims, s, p)[0].validAt <= t
    ensures |AsOfKey(claims, s, p, t)| == 1 <==> Prefixed(Turns(Said(claims, s, p)), t)
  {
    var turns, held := Turns(Said(claims, s, p)), Holding(Filter(TableAfter(claims), About(s, p)), t);
    TurnsAreSaid(Said(claims, s, p));
    AsOfIsTurns(claims, s, p, t);
    HoldingAre(Filter(TableAfter(claims), About(s, p)), t);
    OneHoldsIff(turns, t);
    OneHeldIff(turns, held, t);
  }

  /** The claims come in order of their times. */
  ghost predicate InOrder(said: seq<Claim>) {
    forall i, j :: 0 <= i < j < |said| ==> said[i].validAt <= said[j].validAt
  }

  /** The latest claim made by time `t`. */
  function LatestBy(said: seq<Claim>, t: real): Option<Claim> {
    if said == [] then None
    else if said[|said| - 1].validAt <= t then Some(said[|said| - 1])
    else LatestBy(said[..|said| - 1], t)
  }

  /** In time order, the turn that holds says what the latest claim says. */
  lemma {:induction false} HoldingTurnIsLatest(said: seq<Claim>, t: real, k: int)
    requires InOrder(said) && TurnHolds(Turns(said), k, t)
    ensures LatestBy(said, t).Some? && SameAssertion(Turns(said)[k], LatestBy(said, t).value)
  {
    if said != [] {
      var n := |said| - 1;
      var c, before, turns := said[n], Turns(said[..n]), Turns(said);
      if c.validAt > t {
        assert k < |before|;
        HoldingTurnIsLatest(said[..n], t, k);
      } else {
        TurnsNotAfter(said[..n], c.validAt);
        assert k == |turns| - 1;
      }
    }
  }

  lemma {:induction false} TurnsNotAfter(said: seq<Claim>, t: real)
    requires forall i :: 0 <= i < |said| ==> said[i].validAt <= t
    ensures forall i :: 0 <= i < |Turns(said)| ==> Turns(said)[i].validAt <= t
  {
    TurnsAreSaid(said);
  }

  lemma {:induction false} TurnsInOrder(said: seq<Claim>)
    requires InOrder(said)
    ensures InOrder(Turns(said))
  {
    if said != [] {
      var n := |said| - 1;
      TurnsInOrder(said[..n]);
      TurnsNotAfter(said[..n], said[n].validAt);
    }
  }

  /** For claims made in time order, `as_of(t)` of a single-valued key is exactly
      one row from the first claim on, saying what the latest claim by `t` said,
      and nothing before. */
  lemma AsOfIsLatest(claims: seq<Claim>, s: string, p: string, t: real)
    requires FreshIds(claims) && p in SingleValued() && OpenInserts(Said(claims, s, p))
    requires InOrder(Said(claims, s, p))
    ensures
      var said, answer := Said(claims, s, p), AsOfKey(claims, s, p, t);
      if said != [] && said[0].validAt <= t then
        |answer| == 1 && LatestBy(said, t).Some? && SameAssertion(answer[0], LatestBy(said, t).value)
      else answer == []
  {
    var said, turns := Said(claims, s, p), Turns(Said(claims, s, p));
    var held := Holding(Filter(TableAfter(claims), About(s, p)), t);
    TurnsAreSaid(said);
    TurnsInOrder(said);
    AsOfIsTurns(claims, s, p, t);
    assert |held| > 0 ==> held[0] in held;
    if said != [] && said[0].validAt <= t {
      ExactlyOneRowIff(claims, s, p, t);
      assert held[0] in held;
      HoldingTurnIsLatest(said, t, held[0]);
    } else {
      assert said == [] ==> turns == [];
      assert forall k :: 0 <= k < |turns| ==> turns[k].validAt >= turns[0].validAt > t;
    }
  }
}
