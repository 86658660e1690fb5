/** Folding a state over rows, one row at a time and grouped by a key. */
module Folds {

  /** Apply `f` to the rows from left to right. */
  function Fold<S, R>(f: (S, R) -> S, s: S, rows: seq<R>): S {
    if rows == [] then s else Fold(f, f(s, rows[0]), rows[1..])
  }

  /** The rows whose key is `k`, in order. */
  function Select<K(==), R>(key: R -> K, k: K, rows: seq<R>): seq<R> {
    if rows == [] then []
    else (if key(rows[0]) == k then [rows[0]] else []) + Select(key, k, rows[1..])
  }

  /** The rows whose key is not `k`, in order. */
  function Reject<K(==), R>(key: R -> K, k: K, rows: seq<R>): (r: seq<R>)
    ensures |r| <= |rows|
  {
    if rows == [] then []
    else (if key(rows[0]) != k then [rows[0]] else []) + Reject(key, k, rows[1..])
  }

  /** The rows group by group, the groups in the order of `order`. */
  function GroupedBy<K(==), R>(key: R -> K, order: seq<K>, rows: seq<R>): seq<R> {
    if order == [] then []
    else Select(key, order[0], rows) + GroupedBy(key, order[1..], rows)
  }

  /** `order` lists every key of the rows, each once. */
  ghost predicate Lists<K, R>(order: seq<K>, key: R -> K, rows: seq<R>) {
    && (forall i, j :: 0 <= i < j < |order| ==> order[i] != order[j])
    && (forall i :: 0 <= i < |rows| ==> key(rows[i]) in order)
  }

  lemma FoldAppend<S, R>(f: (S, R) -> S, s: S, a: seq<R>, b: seq<R>)
    ensures Fold(f, s, a + b) == Fold(f, Fold(f, s, a), b)
  {
    if a == [] {
      assert a + b == b;
    } else {
      assert (a + b)[1..] == a[1..] + b;
      FoldAppend(f, f(s, a[0]), a[1..], b);
    }
  }

  /** One more row of a batch. */
  lemma FoldStep<S, R>(f: (S, R) -> S, s: S, rows: seq<R>, i: nat)
    requires i < |rows|
    ensures Fold(f, s, rows[..i + 1]) == f(Fold(f, s, rows[..i]), rows[i])
  {
    FoldAppend(f, s, rows[..i], [rows[i]]);
    assert rows[..i + 1] == rows[..i] + [rows[i]];
    assert [rows[i]][1..] == [];
  }

  /** Rows with different keys may be applied in either order. */
  ghost predicate Commutes<S(!new), K, R(!new)>(f: (S, R) -> S, key: R -> K) {
    forall s, a, b :: key(a) != key(b) ==> f(f(s, a), b) == f(f(s, b), a)
  }

  /** A row moves past a block of rows with other keys. */
  lemma {:induction false} MovePast<S(!new), K, R(!new)>(f: (S, R) -> S, key: R -> K, s: S, r: R, block: seq<R>)
    requires Commutes(f, key)
    requires forall i :: 0 <= i < |block| ==> key(block[i]) != key(r)
    ensures Fold(f, f(s, r), block) == f(Fold(f, s, block), r)
  {
    if block != [] {
      assert f(f(s, r), block[0]) == f(f(s, block[0]), r);
      MovePast(f, key, f(s, block[0]), r, block[1..]);
    }
  }

  lemma {:induction false} SelectKeys<K, R>(key: R -> K, k: K, rows: seq<R>)
    ensures forall i :: 0 <= i < |Select(key, k, rows)| ==> key(Select(key, k, rows)[i]) == k
  {
    if rows != [] {
      SelectKeys(key, k, rows[1..]);
    }
  }

  /** Pulling one group to the front changes nothing. */
  lemma {:induction false} PullGroup<S(!new), K, R(!new)>(f: (S, R) -> S, key: R -> K, s: S, k: K, rows: seq<R>)
    requires Commutes(f, key)
    ensures Fold(f, s, rows) == Fold(f, s, Select(key, k, rows) + Reject(key, k, rows))
  {
    if rows == [] {
    } else {
      var sel, rej := Select(key, k, rows[1..]), Reject(key, k, rows[1..]);
      PullGroup(f, key, f(s, rows[0]), k, rows[1..]);
      FoldAppend(f, f(s, rows[0]), sel, rej);
      if key(rows[0]) == k {
        assert ([rows[0]] + sel) + rej == [rows[0]] + (sel + rej);
        assert ([rows[0]] + (sel + rej))[1..] == sel + rej;
        assert Select(key, k, rows) == [rows[0]] + sel && Reject(key, k, rows) == [] + rej;
        assert [] + rej == rej;
      } else {
        SelectKeys(key, k, rows[1..]);
        MovePast(f, key, s, rows[0], sel);
        assert Select(key, k, rows) == [] + sel && Reject(key, k, rows) == [rows[0]] + rej;
        assert [] + sel == sel;
        FoldAppend(f, s, sel, [rows[0]] + rej);
        assert ([rows[0]] + rej)[1..] == rej;
      }
    }
  }

  lemma {:induction false} SelectAfterReject<K, R>(key: R -> K, k: K, other: K, rows: seq<R>)
    requires k != other
    ensures Select(key, other, Reject(key, k, rows)) == Select(key, other, rows)
  {
    if rows != [] {
      SelectAfterReject(key, k, other, rows[1..]);
      var rest := Reject(key, k, rows[1..]);
      if key(rows[0]) != k {
        assert ([rows[0]] + rest)[1..] == rest;
      } else {
        assert [] + rest == rest;
        assert [] + Select(key, other, rows[1..]) == Select(key, other, rows[1..]);
      }
    }
  }

  lemma {:induction false} GroupedAfterReject<K, R>(key: R -> K, k: K, order: seq<K>, rows: seq<R>)
    requires k !in order
    ensures GroupedBy(key, order, Reject(key, k, rows)) == GroupedBy(key, order, rows)
  {
    if order != [] {
      SelectAfterReject(key, k, order[0], rows);
      GroupedAfterReject(key, k, order[1..], rows);
    }
  }

  lemma {:induction false} RejectKeys<K, R>(key: R -> K, k: K, rows: seq<R>)
    ensures forall i :: 0 <= i < |Reject(key, k, rows)| ==>
      key(Reject(key, k, rows)[i]) != k && Reject(key, k, rows)[i] in rows
  {
    if rows != [] {
      RejectKeys(key, k, rows[1..]);
    }
  }

  /** Writing group by group gives the state that writing row by row gives. */
  lemma {:induction false} GroupedFold<S(!new), K, R(!new)>(
    f: (S, R) -> S, key: R -> K, order: seq<K>, s: S, rows: seq<R>)
    requires Commutes(f, key) && Lists(order, key, rows)
    ensures Fold(f, s, GroupedBy(key, order, rows)) == Fold(f, s, rows)
  {
    assert rows != [] ==> key(rows[0]) in order;
    if order != [] {
      var k := order[0];
      var sel, rest := Select(key, k, rows), Reject(key, k, rows);
      PullGroup(f, key, s, k, rows);
      FoldAppend(f, s, sel, rest);
      GroupedAfterReject(key, k, order[1..], rows);
      FoldAppend(f, s, sel, GroupedBy(key, order[1..], rows));
      RejectKeys(key, k, rows);
      forall i | 0 <= i < |rest|
        ensures key(rest[i]) in order[1..]
      {
        var j :| 0 <= j < |rows| && rows[j] == rest[i];
        assert key(rows[j]) in order;
      }
      GroupedFold(f, key, order[1..], Fold(f, s, sel), rest);
    }
  }

  lemma {:induction false} SelectAppend<K, R>(key: R -> K, k: K, a: seq<R>, b: seq<R>)
    ensures Select(key, k, a + b) == Select(key, k, a) + Select(key, k, b)
  {
    if a == [] {
      assert a + b == b;
    } else {
      assert (a + b)[1..] == a[1..] + b && (a + b)[0] == a[0];
      SelectAppend(key, k, a[1..], b);
      Associates(if key(a[0]) == k then [a[0]] else [], Select(key, k, a[1..]), Select(key, k, b));
    }
  }

  lemma Associates<R>(a: seq<R>, b: seq<R>, c: seq<R>)
    ensures a + (b + c) == (a + b) + c
  {
  }

  lemma {:induction false} GroupedByAppend<K, R>(key: R -> K, a: seq<K>, b: seq<K>, rows: seq<R>)
    ensures GroupedBy(key, a + b, rows) == GroupedBy(key, a, rows) + GroupedBy(key, b, rows)
  {
    if a == [] {
      assert a + b == b;
    } else {
      assert (a + b)[1..] == a[1..] + b;
      GroupedByAppend(key, a[1..], b, rows);
    }
  }

  /** One more group of a batch. */
  lemma GroupAppend<S, K, R>(f: (S, R) -> S, key: R -> K, s: S, order: seq<K>, i: nat, rows: seq<R>)
    requires i < |order|
    ensures
      var done := GroupedBy(key, order[..i], rows);
      Fold(f, s, GroupedBy(key, order[..i + 1], rows)) == Fold(f, Fold(f, s, done), Select(key, order[i], rows))
  {
    var done, batch := GroupedBy(key, order[..i], rows), Select(key, order[i], rows);
    assert order[..i + 1] == order[..i] + [order[i]];
    GroupedByAppend(key, order[..i], [order[i]], rows);
    assert [order[i]][1..] == [];
    assert GroupedBy(key, [order[i]], rows) == batch;
    FoldAppend(f, s, done, batch);
  }

  /** `order` and `groups` are the rows brought together by key. */
  ghost predicate Grouping<K(!new), R>(order: seq<K>, groups: map<K, seq<R>>, key: R -> K, rows: seq<R>) {
    && Lists(order, key, rows)
    && groups.Keys == (set k | k in order)
    && (forall k :: k in groups ==> groups[k] == Select(key, k, rows))
  }

  lemma SelectSnoc<K, R>(key: R -> K, k: K, rows: seq<R>, r: R)
    ensures Select(key, k, rows + [r]) == if key(r) == k then Select(key, k, rows) + [r] else Select(key, k, rows)
  {
    SelectAppend(key, k, rows, [r]);
    assert [r][1..] == [];
    assert Select(key, k, rows) + [] == Select(key, k, rows);
  }

  lemma {:induction false} SelectOfAbsent<K, R>(key: R -> K, k: K, rows: seq<R>)
    requires forall i :: 0 <= i < |rows| ==> key(rows[i]) != k
    ensures Select(key, k, rows) == []
  {
    if rows != [] {
      SelectOfAbsent(key, k, rows[1..]);
    }
  }

  lemma GroupingStep<K(!new), R>(order: seq<K>, groups: map<K, seq<R>>, key: R -> K, rows: seq<R>, r: R)
    requires Grouping(order, groups, key, rows)
    ensures
      var k := key(r);
      if k in groups then Grouping(order, groups[k := groups[k] + [r]], key, rows + [r])
      else Grouping(order + [k], groups[k := [r]], key, rows + [r])
  {
    var k0 := key(r);
    var order', groups' :=
      if k0 in groups then order else order + [k0],
      if k0 in groups then groups[k0 := groups[k0] + [r]] else groups[k0 := [r]];
    assert Lists(order', key, rows + [r]);
    assert groups'.Keys == groups.Keys + {k0};
    assert (set k | k in order') == (set k | k in order) + {k0};
    if k0 !in groups {
      SelectOfAbsent(key, k0, rows);
    }
    forall k | k in groups'
      ensures groups'[k] == Select(key, k, rows + [r])
    {
      SelectSnoc(key, k, rows, r);
    }
  }

  /** Bring rows together by key, keys in order of first appearance. */
  method GroupRows<K(==, !new), R>(key: R -> K, rows: seq<R>) returns (order: seq<K>, groups: map<K, seq<R>>)
    ensures Grouping(order, groups, key, rows)
  {
    order, groups := [], map[];
    for i := 0 to |rows|
      invariant Grouping(order, groups, key, rows[..i])
    {
      var k := key(rows[i]);
      assert rows[..i + 1] == rows[..i] + [rows[i]];
      GroupingStep(order, groups, key, rows[..i], rows[i]);
      if k in groups {
        groups := groups[k := groups[k] + [rows[i]]];
      } else {
        order, groups := order + [k], groups[k := [rows[i]]];
      }
    }
    assert rows[..|rows|] == rows;
  }
}
