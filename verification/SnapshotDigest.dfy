/** The content digest of a snapshot, and what verification accepts. */
module SnapshotDigest {
  import opened Wrappers
  import opened EmbedCodec
  import opened Float32

  /** A dumped row; `body` stands for the fields that do not order it. */
  datatype Row =
    | VectorRow(id: string, body: string)
    | NodeRow(tag: string, key: string, body: string)
    | EdgeRow(etype: string, src: string, dst: string, body: string)
    | StateRow(body: string)

  /** What the rows of a kind are sorted by; an edge's labels are not part of it. */
  function KeyOf(r: Row): seq<string> {
    match r
    case VectorRow(id, _) => [id]
    case NodeRow(tag, key, _) => [tag, key]
    case EdgeRow(etype, src, dst, _) => [etype, src, dst]
    case StateRow(_) => []
  }

  // ---------------------------------------------------------------- order

  predicate StringLe(a: string, b: string) {
    a == "" || (b != "" && (a[0] < b[0] || (a[0] == b[0] && StringLe(a[1..], b[1..]))))
  }

  predicate KeyLe(a: seq<string>, b: seq<string>) {
    a == [] || (b != [] && if a[0] == b[0] then KeyLe(a[1..], b[1..]) else StringLe(a[0], b[0]))
  }

  lemma {:induction false} StringOrder(a: string, b: string)
    ensures StringLe(a, b) || StringLe(b, a)
    ensures StringLe(a, b) && StringLe(b, a) ==> a == b
  {
    if a != "" && b != "" && a[0] == b[0] {
      StringOrder(a[1..], b[1..]);
      assert a == [a[0]] + a[1..] && b == [b[0]] + b[1..];
    }
  }

  lemma {:induction false} StringTransitive(a: string, b: string, c: string)
    requires StringLe(a, b) && StringLe(b, c)
    ensures StringLe(a, c)
  {
    if a != "" && a[0] == b[0] == c[0] {
      StringTransitive(a[1..], b[1..], c[1..]);
    }
  }

  lemma {:induction false} KeyOrder(a: seq<string>, b: seq<string>)
    ensures KeyLe(a, b) || KeyLe(b, a)
    ensures KeyLe(a, b) && KeyLe(b, a) ==> a == b
  {
    if a != [] && b != [] {
      StringOrder(a[0], b[0]);
      if a[0] == b[0] {
        KeyOrder(a[1..], b[1..]);
        assert a == [a[0]] + a[1..] && b == [b[0]] + b[1..];
      }
    }
  }

  lemma {:induction false} KeyTransitive(a: seq<string>, b: seq<string>, c: seq<string>)
    requires KeyLe(a, b) && KeyLe(b, c)
    ensures KeyLe(a, c)
  {
    if a != [] {
      if a[0] == b[0] == c[0] {
        KeyTransitive(a[1..], b[1..], c[1..]);
      } else if a[0] != b[0] && b[0] != c[0] {
        StringTransitive(a[0], b[0], c[0]);
        StringOrder(a[0], b[0]);
      }
    }
  }

  // ---------------------------------------------------------------- stable sorting

  function Inserted(r: Row, list: seq<Row>): seq<Row> {
    if list == [] || KeyLe(KeyOf(r), KeyOf(list[0])) then [r] + list else [list[0]] + Inserted(r, list[1..])
  }

  /** Python's stable `sorted`. */
  function Sorted(rows: seq<Row>): seq<Row> {
    if rows == [] then [] else Inserted(rows[0], Sorted(rows[1..]))
  }

  ghost predicate Ascending(list: seq<Row>) {
    forall i, j :: 0 <= i < j < |list| ==> KeyLe(KeyOf(list[i]), KeyOf(list[j]))
  }

  lemma {:induction false} InsertedIs(r: Row, list: seq<Row>)
    requires Ascending(list)
    ensures Ascending(Inserted(r, list)) && multiset(Inserted(r, list)) == multiset{r} + multiset(list)
  {
    if list == [] {
      return;
    }
    var first := list[0];
    assert list == [first] + list[1..];
    KeyOrder(KeyOf(r), KeyOf(first));
    if KeyLe(KeyOf(r), KeyOf(first)) {
      forall i | 0 <= i < |list|
        ensures KeyLe(KeyOf(r), KeyOf(list[i]))
      {
        if i > 0 {
          KeyTransitive(KeyOf(r), KeyOf(first), KeyOf(list[i]));
        }
      }
    } else {
      InsertedIs(r, list[1..]);
      var tail := Inserted(r, list[1..]);
      forall i | 0 <= i < |tail|
        ensures KeyLe(KeyOf(first), KeyOf(tail[i]))
      {
        MemberOf(tail, r, list[1..], i);
      }
    }
  }

  lemma MemberOf(tail: seq<Row>, r: Row, list: seq<Row>, i: nat)
    requires multiset(tail) == multiset{r} + multiset(list) && i < |tail|
    ensures tail[i] == r || tail[i] in list
  {
    assert tail[i] in multiset(tail);
  }

  lemma {:induction false} SortedIs(rows: seq<Row>)
    ensures Ascending(Sorted(rows)) && multiset(Sorted(rows)) == multiset(rows)
  {
    if rows != [] {
      SortedIs(rows[1..]);
      InsertedIs(rows[0], Sorted(rows[1..]));
      assert rows == [rows[0]] + rows[1..];
    }
  }

  /** Two rows that the sort does not tell apart: points of one id, nodes of one label and key, edges of one type
      between the same keys. */
  predicate SamePlace(x: Row, y: Row) {
    match (x, y)
    case (VectorRow(i, _), VectorRow(j, _)) => i == j
    case (NodeRow(t, k, _), NodeRow(u, l, _)) => t == u && k == l
    case (EdgeRow(t, a, b, _), EdgeRow(u, c, d, _)) => t == u && a == c && b == d
    case (StateRow(_), StateRow(_)) => true
    case _ => false
  }

  lemma SamePlaceIs(x: Row, y: Row)
    ensures SamePlace(x, y) <==> KeyOf(x) == KeyOf(y)
  {
    assert |KeyOf(x)| == match x case VectorRow(_, _) => 1 case NodeRow(_, _, _) => 2 case EdgeRow(_, _, _, _) => 3
                           case StateRow(_) => 0;
    if KeyOf(x) == KeyOf(y) {
      assert forall i :: 0 <= i < |KeyOf(x)| ==> KeyOf(x)[i] == KeyOf(y)[i];
    }
  }

  /** Rows that sort equal are equal. */
  ghost predicate NoTies(rows: seq<Row>) {
    forall x, y :: x in rows && y in rows && SamePlace(x, y) ==> x == y
  }

  /** Code point by code point, and a prefix first: how Python compares strings. */
  lemma {:induction false} StringLeIs(a: string, b: string)
    ensures StringLe(a, b) <==>
      || a <= b
      || exists k :: 0 <= k < |a| && k < |b| && a[..k] == b[..k] && a[k] < b[k]
  {
    if a != "" && b != "" && a[0] == b[0] {
      StringLeIs(a[1..], b[1..]);
      assert a <= b <==> a[1..] <= b[1..];
      if k :| 0 <= k < |a| && k < |b| && a[..k] == b[..k] && a[k] < b[k] {
        assert k > 0;
        assert a[1..][..k - 1] == a[..k][1..] && b[1..][..k - 1] == b[..k][1..];
        assert a[1..][k - 1] < b[1..][k - 1];
      }
      if k :| 0 <= k < |a[1..]| && k < |b[1..]| && a[1..][..k] == b[1..][..k] && a[1..][k] < b[1..][k] {
        assert a[..k + 1] == [a[0]] + a[1..][..k] && b[..k + 1] == [b[0]] + b[1..][..k];
        assert a[k + 1] < b[k + 1];
      }
    } else if a != "" && b != "" {
      assert a[..0] == b[..0];
    }
  }

  /** The order of two rows of one kind. */
  predicate NotAfter(x: Row, y: Row) {
    match (x, y)
    case (VectorRow(i, _), VectorRow(j, _)) => StringLe(i, j)
    case (NodeRow(t, k, _), NodeRow(u, l, _)) => if t == u then StringLe(k, l) else StringLe(t, u)
    case (EdgeRow(t, a, b, _), EdgeRow(u, c, d, _)) =>
      if t != u then StringLe(t, u) else if a != c then StringLe(a, c) else StringLe(b, d)
    case _ => true
  }

  lemma NotAfterIs(x: Row, y: Row)
    requires KeyLe(KeyOf(x), KeyOf(y))
    ensures NotAfter(x, y)
  {
    var a, b := KeyOf(x), KeyOf(y);
    match (x, y)
    case (VectorRow(i, _), VectorRow(j, _)) => StringOrder(i, i);
    case (NodeRow(t, k, _), NodeRow(u, l, _)) =>
      assert a[0] == t && b[0] == u && a[1..] == [k] && b[1..] == [l];
      StringOrder(k, k);
    case (EdgeRow(t, f, g, _), EdgeRow(u, c, d, _)) =>
      assert a[0] == t && b[0] == u && a[1..] == [f, g] && b[1..] == [c, d];
      assert a[1..][1..] == [g] && b[1..][1..] == [d];
      if t == u {
        assert KeyLe([f, g], [c, d]);
        if f == c {
          assert KeyLe([g], [d]);
          StringOrder(g, g);
        }
      }
    case _ =>
  }

  /** The rows that share the place of `r`, in order. */
  function Tied(rows: seq<Row>, r: Row): seq<Row> {
    if rows == [] then [] else (if SamePlace(rows[0], r) then [rows[0]] else []) + Tied(rows[1..], r)
  }

  lemma {:induction false} InsertedTies(x: Row, list: seq<Row>, r: Row)
    ensures Tied(Inserted(x, list), r) == (if SamePlace(x, r) then [x] else []) + Tied(list, r)
  {
    if list == [] || KeyLe(KeyOf(x), KeyOf(list[0])) {
      assert ([x] + list)[1..] == list;
    } else {
      InsertedTies(x, list[1..], r);
      assert ([list[0]] + Inserted(x, list[1..]))[1..] == Inserted(x, list[1..]);
      SamePlaceIs(x, r);
      SamePlaceIs(list[0], r);
      KeyOrder(KeyOf(x), KeyOf(x));
    }
  }

  /** Rows that the order does not tell apart keep their order. */
  lemma {:induction false} SortIsStable(rows: seq<Row>, r: Row)
    ensures Tied(Sorted(rows), r) == Tied(rows, r)
  {
    if rows != [] {
      SortIsStable(rows[1..], r);
      InsertedTies(rows[0], Sorted(rows[1..]), r);
    }
  }

  lemma SameMembers(a: seq<Row>, b: seq<Row>)
    requires multiset(a) == multiset(b)
    ensures forall x :: x in a <==> x in b
    ensures |a| == |b|
  {
    forall x
      ensures x in a <==> x in b
    {
      assert x in multiset(a) <==> x in multiset(b);
    }
    assert |multiset(a)| == |a| && |multiset(b)| == |b|;
  }

  lemma SameHead(a: seq<Row>, b: seq<Row>)
    requires Ascending(a) && Ascending(b) && multiset(a) == multiset(b) && NoTies(a) && a != []
    ensures b != [] && a[0] == b[0]
  {
    SameMembers(a, b);
    assert a[0] in b && b[0] in a;
    var i :| 0 <= i < |b| && b[i] == a[0];
    var j :| 0 <= j < |a| && a[j] == b[0];
    KeyOrder(KeyOf(a[0]), KeyOf(b[0]));
    KeyOrder(KeyOf(a[0]), KeyOf(a[0]));
    assert KeyLe(KeyOf(b[0]), KeyOf(b[i]));
    assert KeyLe(KeyOf(a[0]), KeyOf(a[j]));
  }

  lemma TailsPermute(a: seq<Row>, b: seq<Row>)
    requires a != [] && b != [] && a[0] == b[0] && multiset(a) == multiset(b)
    ensures multiset(a[1..]) == multiset(b[1..]) && a == [a[0]] + a[1..] && b == [b[0]] + b[1..]
  {
    assert a == [a[0]] + a[1..] && b == [b[0]] + b[1..];
    assert multiset(a[1..]) == multiset(a) - multiset{a[0]};
    assert multiset(b[1..]) == multiset(b) - multiset{a[0]};
  }

  lemma TailIsSorted(a: seq<Row>)
    requires a != [] && Ascending(a)
    ensures Ascending(a[1..]) && (NoTies(a) ==> NoTies(a[1..]))
  {
    assert forall x :: x in a[1..] ==> x in a;
  }

  lemma {:induction false} SortedUnique(a: seq<Row>, b: seq<Row>)
    requires Ascending(a) && Ascending(b) && multiset(a) == multiset(b) && NoTies(a)
    ensures a == b
    decreases |a|
  {
    if a == [] {
      SameMembers(a, b);
    } else {
      SameHead(a, b);
      TailsPermute(a, b);
      TailIsSorted(a);
      TailIsSorted(b);
      SortedUnique(a[1..], b[1..]);
    }
  }

  lemma SortForgetsOrder(a: seq<Row>, b: seq<Row>)
    requires multiset(a) == multiset(b) && NoTies(a)
    ensures Sorted(a) == Sorted(b)
  {
    SortedIs(a);
    SortedIs(b);
    SameMembers(a, Sorted(a));
    SortedUnique(Sorted(a), Sorted(b));
  }

  // ---------------------------------------------------------------- the stream that is hashed

  type Canon = Row -> string

  /** A canonical line is never a prefix of another row's: a JSON object ends where
      its braces close, and sorted keys leave one spelling. */
  ghost predicate PrefixFree(canon: Canon) {
    (forall r :: canon(r) != "") && forall r, s :: canon(r) <= canon(s) ==> r == s
  }

  function Stream(canon: Canon, rows: seq<Row>): string {
    if rows == [] then "" else canon(rows[0]) + Stream(canon, rows[1..])
  }

  lemma {:induction false} StreamAppend(canon: Canon, a: seq<Row>, b: seq<Row>)
    ensures Stream(canon, a + b) == Stream(canon, a) + Stream(canon, b)
  {
    if a == [] {
      assert a + b == b;
    } else {
      assert (a + b)[1..] == a[1..] + b;
      StreamAppend(canon, a[1..], b);
    }
  }

  lemma CommonPrefix(all: string, s: string, t: string)
    requires s <= all && t <= all
    ensures s <= t || t <= s
  {
    assert s == all[..|s|] && t == all[..|t|];
    if |s| <= |t| {
      assert s == t[..|s|];
    } else {
      assert t == s[..|t|];
    }
  }

  /** The lines can be told apart in the stream. */
  lemma {:induction false} StreamInjective(canon: Canon, a: seq<Row>, b: seq<Row>)
    requires PrefixFree(canon) && Stream(canon, a) == Stream(canon, b)
    ensures a == b
  {
    if a == [] || b == [] {
      return;
    }
    var s, t := canon(a[0]), canon(b[0]);
    var all := Stream(canon, a);
    CommonPrefix(all, s, t);
    assert a[0] == b[0];
    assert all[|s|..] == Stream(canon, a[1..]) == Stream(canon, b[1..]);
    StreamInjective(canon, a[1..], b[1..]);
    assert a == [a[0]] + a[1..] && b == [b[0]] + b[1..];
  }

  datatype Snapshot = Snapshot(manifest: Manifest, vectors: seq<Row>, nodes: seq<Row>, edges: seq<Row>, state: Row)

  datatype Manifest = Manifest(formatVersion: nat, embedModel: string, embedDim: nat, contentSha: string)

  /** Each list holds rows of its kind. */
  ghost predicate Typed(s: Snapshot) {
    && (forall r :: r in s.vectors ==> r.VectorRow?) && (forall r :: r in s.nodes ==> r.NodeRow?)
    && (forall r :: r in s.edges ==> r.EdgeRow?) && s.state.StateRow?
  }

  function Canonical(s: Snapshot): seq<Row> {
    Sorted(s.vectors) + Sorted(s.nodes) + Sorted(s.edges) + [s.state]
  }

  function Digest(hash: string -> string, canon: Canon, s: Snapshot): string {
    hash(Stream(canon, Canonical(s)))
  }

  /** Feed the hash line by line. */
  method CanonicalDigest(hash: string -> string, canon: Canon, s: Snapshot) returns (digest: string)
    ensures digest == Digest(hash, canon, s)
  {
    var fed := FeedAll(canon, Sorted(s.vectors), Sorted(s.nodes), Sorted(s.edges), s.state);
    digest := hash(fed);
  }

  method FeedAll(canon: Canon, v: seq<Row>, n: seq<Row>, e: seq<Row>, st: Row) returns (fed: string)
    ensures fed == Stream(canon, v + n + e + [st])
  {
    fed := Feed(canon, "", v);
    fed := Feed(canon, fed, n);
    fed := Feed(canon, fed, e);
    fed := fed + canon(st);
    StreamOfFour(canon, v, n, e, st);
  }

  lemma StreamOfFour(canon: Canon, v: seq<Row>, n: seq<Row>, e: seq<Row>, st: Row)
    ensures Stream(canon, v + n + e + [st]) == Stream(canon, v) + Stream(canon, n) + Stream(canon, e) + canon(st)
  {
    StreamAppend(canon, v, n);
    StreamAppend(canon, v + n, e);
    StreamAppend(canon, v + n + e, [st]);
    assert [st][1..] == [];
    assert Stream(canon, [st]) == canon(st);
  }

  method Feed(canon: Canon, fed0: string, rows: seq<Row>) returns (fed: string)
    ensures fed == fed0 + Stream(canon, rows)
  {
    fed := fed0;
    for i := 0 to |rows|
      invariant fed == fed0 + Stream(canon, rows[..i])
    {
      StreamAppend(canon, rows[..i], [rows[i]]);
      assert rows[..i + 1] == rows[..i] + [rows[i]];
      assert [rows[i]][1..] == [];
      fed := fed + canon(rows[i]);
    }
    assert rows[..|rows|] == rows;
  }

  // ---------------------------------------------------------------- what the digest sees

  /** The same rows in any order, kind by kind. */
  ghost predicate Reordered(a: Snapshot, b: Snapshot) {
    && multiset(a.vectors) == multiset(b.vectors) && multiset(a.nodes) == multiset(b.nodes)
    && multiset(a.edges) == multiset(b.edges) && a.state == b.state
  }

  ghost predicate UniqueKeys(s: Snapshot) {
    NoTies(s.vectors) && NoTies(s.nodes) && NoTies(s.edges)
  }

  lemma DigestForgetsOrder(a: Snapshot, b: Snapshot)
    requires Reordered(a, b) && UniqueKeys(a)
    ensures Canonical(a) == Canonical(b)
  {
    SortForgetsOrder(a.vectors, b.vectors);
    SortForgetsOrder(a.nodes, b.nodes);
    SortForgetsOrder(a.edges, b.edges);
  }

  /** Equal lines mean equal contents: no row can pass from one list to another. */
  lemma LinesDetermineContents(a: Snapshot, b: Snapshot)
    requires Typed(a) && Typed(b) && Canonical(a) == Canonical(b)
    ensures Reordered(a, b)
  {
    SortedTyped(a);
    SortedTyped(b);
    SplitTyped(Sorted(a.vectors), Sorted(a.nodes), Sorted(a.edges), a.state, Sorted(b.vectors), Sorted(b.nodes),
               Sorted(b.edges), b.state);
    SortedIs(a.vectors);
    SortedIs(a.nodes);
    SortedIs(a.edges);
    SortedIs(b.vectors);
    SortedIs(b.nodes);
    SortedIs(b.edges);
  }

  ghost predicate AllOf(v: seq<Row>, n: seq<Row>, e: seq<Row>) {
    && (forall i :: 0 <= i < |v| ==> v[i].VectorRow?)
    && (forall i :: 0 <= i < |n| ==> n[i].NodeRow?)
    && (forall i :: 0 <= i < |e| ==> e[i].EdgeRow?)
  }

  lemma SortedTyped(s: Snapshot)
    requires Typed(s)
    ensures AllOf(Sorted(s.vectors), Sorted(s.nodes), Sorted(s.edges))
  {
    SortedIs(s.vectors);
    SortedIs(s.nodes);
    SortedIs(s.edges);
    SameMembers(Sorted(s.vectors), s.vectors);
    SameMembers(Sorted(s.nodes), s.nodes);
    SameMembers(Sorted(s.edges), s.edges);
  }

  lemma SplitTyped(v: seq<Row>, n: seq<Row>, e: seq<Row>, st: Row, v': seq<Row>, n': seq<Row>, e': seq<Row>, st': Row)
    requires AllOf(v, n, e) && AllOf(v', n', e') && st.StateRow? && st'.StateRow?
    requires v + n + e + [st] == v' + n' + e' + [st']
    ensures v == v' && n == n' && e == e' && st == st'
  {
    var all := v + n + e + [st];
    assert all == v + (n + e + [st]) == v' + (n' + e' + [st']);
    SplitAt(all, v, n + e + [st], v', n' + e' + [st'], (r: Row) => r.VectorRow?);
    var rest := n + e + [st];
    assert rest == n + (e + [st]) == n' + (e' + [st']);
    SplitAt(rest, n, e + [st], n', e' + [st'], (r: Row) => r.NodeRow?);
    SplitAt(e + [st], e, [st], e', [st'], (r: Row) => r.EdgeRow?);
    assert [st][0] == [st'][0];
  }

  /** The longest prefix of one kind is unique. */
  lemma SplitAt(all: seq<Row>, a: seq<Row>, b: seq<Row>, a': seq<Row>, b': seq<Row>, kind: Row -> bool)
    requires all == a + b == a' + b' && b != [] && b' != []
    requires (forall i :: 0 <= i < |a| ==> kind(a[i])) && (forall i :: 0 <= i < |a'| ==> kind(a'[i]))
    requires !kind(b[0]) && !kind(b'[0])
    ensures a == a' && b == b'
  {
    assert all[|a|] == b[0] && all[|a'|] == b'[0];
    assert forall i :: 0 <= i < |a| ==> all[i] == a[i];
    assert forall i :: 0 <= i < |a'| ==> all[i] == a'[i];
    assert |a| == |a'|;
    assert a == all[..|a|] && a' == all[..|a'|];
    assert b == all[|a|..] && b' == all[|a'|..];
  }

  function Rank(r: Row): nat {
    match r
    case VectorRow(_, _) => 0
    case NodeRow(_, _, _) => 1
    case EdgeRow(_, _, _, _) => 2
    case StateRow(_) => 3
  }

  ghost predicate Ranked(lines: seq<Row>) {
    forall i, j :: 0 <= i < j < |lines| ==>
      Rank(lines[i]) < Rank(lines[j]) || (Rank(lines[i]) == Rank(lines[j]) && NotAfter(lines[i], lines[j]))
  }

  /** What is hashed: every row once, points before nodes before edges before the state, each kind in order. */
  lemma LinesInOrder(s: Snapshot)
    requires Typed(s)
    ensures multiset(Canonical(s)) == multiset(s.vectors) + multiset(s.nodes) + multiset(s.edges) + multiset{s.state}
    ensures Ranked(Canonical(s))
  {
    var v, n, e := Sorted(s.vectors), Sorted(s.nodes), Sorted(s.edges);
    SortedIs(s.vectors);
    SortedIs(s.nodes);
    SortedIs(s.edges);
    SortedTyped(s);
    InOrder(v);
    InOrder(n);
    InOrder(e);
    JoinInOrder(v, n);
    JoinInOrder(v + n, e);
    JoinInOrder(v + n + e, [s.state]);
  }

  lemma InOrder(list: seq<Row>)
    requires Ascending(list) && forall i, j :: 0 <= i < j < |list| ==> Rank(list[i]) == Rank(list[j])
    ensures Ranked(list)
  {
    forall i, j | 0 <= i < j < |list|
      ensures NotAfter(list[i], list[j])
    {
      NotAfterIs(list[i], list[j]);
    }
  }

  lemma JoinInOrder(a: seq<Row>, b: seq<Row>)
    requires Ranked(a) && Ranked(b) && forall x, y :: x in a && y in b ==> Rank(x) < Rank(y)
    ensures Ranked(a + b)
  {
  }

  // ---------------------------------------------------------------- verification

  datatype Reason = FormatVersion | EmbedModel | EmbedDim | ContentDigest

  /** Checks in order; an empty expectation is none. */
  function Verify(hash: string -> string, canon: Canon, s: Snapshot, expectedModel: Option<string>,
                  expectedDim: Option<nat>): Result<(), Reason> {
    if s.manifest.formatVersion != 1 then Err(FormatVersion)
    else if expectedModel.GetOr("") != "" && s.manifest.embedModel != expectedModel.value then Err(EmbedModel)
    else if expectedDim.GetOr(0) != 0 && s.manifest.embedDim != expectedDim.value then Err(EmbedDim)
    else if Digest(hash, canon, s) != s.manifest.contentSha then Err(ContentDigest)
    else Ok(())
  }

  ghost predicate HashInjective(hash: string -> string) {
    forall x, y :: hash(x) == hash(y) ==> x == y
  }

  /** `s` was built with these contents: its manifest carries their digest. */
  ghost predicate BuiltFrom(hash: string -> string, canon: Canon, s: Snapshot) {
    s.manifest.formatVersion == 1 && s.manifest.contentSha == Digest(hash, canon, s)
  }

  /** The caller expects this model and this dimension, or does not say. */
  predicate AsExpected(m: Manifest, model: Option<string>, dim: Option<nat>) {
    && (model.None? || model == Some("") || model == Some(m.embedModel))
    && (dim.None? || dim == Some(0) || dim == Some(m.embedDim))
  }

  /** Verification accepts, under the manifest of a built snapshot and with what the caller
      expects, exactly the reorderings of its contents: nothing lost, added, changed or moved
      between lists. */
  lemma VerifyAcceptsExactlyReorderings(hash: string -> string, canon: Canon, built: Snapshot, got: Snapshot,
                                        model: Option<string>, dim: Option<nat>)
    requires HashInjective(hash) && PrefixFree(canon) && Typed(built) && Typed(got) && UniqueKeys(built)
    requires BuiltFrom(hash, canon, built) && got.manifest == built.manifest
    ensures Verify(hash, canon, got, model, dim) == Ok(()) <==>
      AsExpected(built.manifest, model, dim) && Reordered(built, got)
    ensures AsExpected(built.manifest, model, dim) && !Reordered(built, got) ==>
      Verify(hash, canon, got, model, dim) == Err(ContentDigest)
  {
    if Reordered(built, got) {
      DigestForgetsOrder(built, got);
    }
    if Digest(hash, canon, got) == Digest(hash, canon, built) {
      StreamInjective(canon, Canonical(got), Canonical(built));
      LinesDetermineContents(built, got);
    }
  }

  /** The first mismatch is the one reported. */
  lemma FirstMismatch(hash: string -> string, canon: Canon, s: Snapshot, model: Option<string>, dim: Option<nat>)
    ensures Verify(hash, canon, s, model, dim) == Err(FormatVersion) <==> s.manifest.formatVersion != 1
    ensures Verify(hash, canon, s, model, dim) == Err(EmbedModel) <==>
      s.manifest.formatVersion == 1 && !AsExpected(s.manifest, model, None)
    ensures Verify(hash, canon, s, model, dim) == Err(EmbedDim) <==>
      s.manifest.formatVersion == 1 && AsExpected(s.manifest, model, None) && !AsExpected(s.manifest, None, dim)
  {
  }

  // ---------------------------------------------------------------- ties

  lemma {:induction false} InsertedTwice(x: Row, y: Row, list: seq<Row>)
    requires KeyOf(x) == KeyOf(y) && x != y
    ensures Inserted(x, Inserted(y, list)) != Inserted(y, Inserted(x, list))
  {
    KeyOrder(KeyOf(x), KeyOf(y));
    if list != [] && !KeyLe(KeyOf(x), KeyOf(list[0])) {
      InsertedTwice(x, y, list[1..]);
      var a, b := Inserted(x, Inserted(y, list[1..])), Inserted(y, Inserted(x, list[1..]));
      assert ([list[0]] + a)[1..] == a && ([list[0]] + b)[1..] == b;
      assert ([list[0]] + Inserted(y, list[1..]))[1..] == Inserted(y, list[1..]);
      assert ([list[0]] + Inserted(x, list[1..]))[1..] == Inserted(x, list[1..]);
    } else {
      assert Inserted(x, Inserted(y, list)) == [x] + ([y] + list);
      assert Inserted(y, Inserted(x, list)) == [y] + ([x] + list);
      assert ([x] + ([y] + list))[0] == x && ([y] + ([x] + list))[0] == y;
    }
  }

  lemma StillIn(rows: seq<Row>, one: seq<Row>, x: Row, y: Row)
    requires multiset(rows) == multiset(one) + multiset{x} && y in rows && y != x
    ensures y in one
  {
    assert y in multiset(rows);
    assert y in multiset(one);
  }

  lemma PairDiffers(x: Row, y: Row, rest: seq<Row>)
    requires x != y && KeyOf(x) == KeyOf(y)
    ensures Sorted([x, y] + rest) != Sorted([y, x] + rest)
  {
    SortedPair(x, y, rest);
    SortedPair(y, x, rest);
    InsertedTwice(x, y, Sorted(rest));
  }

  /** Two rows moved to the front. */
  lemma TieBreaksTheDigest(rows: seq<Row>, x: Row, y: Row) returns (a: seq<Row>, b: seq<Row>)
    requires x in rows && y in rows && x != y && KeyOf(x) == KeyOf(y)
    ensures multiset(a) == multiset(rows) && multiset(b) == multiset(rows) && Sorted(a) != Sorted(b)
  {
    var one := TakenOut(rows, x);
    StillIn(rows, one, x, y);
    var rest := TakenOut(one, y);
    TwoInFront(rows, one, rest, x, y);
    PairDiffers(x, y, rest);
    a, b := [x, y] + rest, [y, x] + rest;
  }

  lemma TakenOut(rows: seq<Row>, x: Row) returns (rest: seq<Row>)
    requires x in rows
    ensures multiset(rows) == multiset(rest) + multiset{x}
  {
    var i :| 0 <= i < |rows| && rows[i] == x;
    rest := rows[..i] + rows[i + 1..];
    assert rows == rows[..i] + [x] + rows[i + 1..];
  }

  lemma TwoInFront(rows: seq<Row>, one: seq<Row>, rest: seq<Row>, x: Row, y: Row)
    requires multiset(rows) == multiset(one) + multiset{x} && multiset(one) == multiset(rest) + multiset{y}
    ensures multiset([x, y] + rest) == multiset(rows) && multiset([y, x] + rest) == multiset(rows)
  {
  }

  lemma SortedPair(x: Row, y: Row, rest: seq<Row>)
    ensures Sorted([x, y] + rest) == Inserted(x, Inserted(y, Sorted(rest)))
  {
    assert ([x, y] + rest)[1..] == [y] + rest && ([y] + rest)[1..] == rest;
    assert Sorted([y] + rest) == Inserted(y, Sorted(rest));
  }

  /** The sorted rows, and with them the digest, are the same for every order exactly
      when no two different rows share their sort key. */
  lemma OrderInvisibleIff(rows: seq<Row>)
    ensures (forall other :: multiset(other) == multiset(rows) ==> Sorted(other) == Sorted(rows)) <==> NoTies(rows)
  {
    if NoTies(rows) {
      forall other | multiset(other) == multiset(rows)
        ensures Sorted(other) == Sorted(rows)
      {
        SortForgetsOrder(rows, other);
      }
    } else {
      var x, y :| x in rows && y in rows && KeyOf(x) == KeyOf(y) && x != y;
      var a, b := TieBreaksTheDigest(rows, x, y);
    }
  }

  lemma OnlyEdges(a: Snapshot, b: Snapshot)
    requires a.vectors == b.vectors == [] && a.nodes == b.nodes == [] && a.state == b.state
    ensures Canonical(a) == Canonical(b) ==> Sorted(a.edges) == Sorted(b.edges)
  {
    if Canonical(a) == Canonical(b) {
      assert Canonical(a) == Sorted(a.edges) + [a.state] && Canonical(b) == Sorted(b.edges) + [b.state];
      assert Sorted(a.edges) == Canonical(a)[..|Canonical(a)| - 1];
      assert Sorted(b.edges) == Canonical(b)[..|Canonical(b)| - 1];
    }
  }

  lemma StreamsDiffer(canon: Canon, a: seq<Row>, b: seq<Row>)
    requires PrefixFree(canon) && a != b
    ensures Stream(canon, a) != Stream(canon, b)
  {
    if Stream(canon, a) == Stream(canon, b) {
      StreamInjective(canon, a, b);
    }
  }

  /** One file that calls a symbol and an assembly type under one key is enough: the
      labels are not in the sort key, and the reordered snapshot is rejected. */
  lemma SameEndsRejected(hash: string -> string, canon: Canon, m: Manifest, etype: string, src: string, dst: string,
                         one: string, two: string)
    requires HashInjective(hash) && PrefixFree(canon) && one != two
    ensures
      var x, y := EdgeRow(etype, src, dst, one), EdgeRow(etype, src, dst, two);
      var built := Snapshot(m.(formatVersion := 1), [], [], [x, y], StateRow(""));
      var sealed := built.(manifest := built.manifest.(contentSha := Digest(hash, canon, built)));
      && Verify(hash, canon, sealed, None, None) == Ok(())
      && Reordered(sealed, sealed.(edges := [y, x]))
      && Verify(hash, canon, sealed.(edges := [y, x]), None, None) == Err(ContentDigest)
  {
    var x, y := EdgeRow(etype, src, dst, one), EdgeRow(etype, src, dst, two);
    var built := Snapshot(m.(formatVersion := 1), [], [], [x, y], StateRow(""));
    PairDiffers(x, y, []);
    assert [x, y] + [] == [x, y] && [y, x] + [] == [y, x];
    OnlyEdges(built, built.(edges := [y, x]));
    StreamsDiffer(canon, Canonical(built), Canonical(built.(edges := [y, x])));
    assert multiset([x, y]) == multiset([y, x]);
  }

  // ---------------------------------------------------------------- vectors out and back

  datatype Sparse = Sparse(indices: seq<int>, values: seq<Number>)

  /** A point's vector as the store returns it: named slots, or a legacy bare list. */
  datatype StoredVec = Missing | Named(dense: Option<seq<Number>>, sparse: Option<Sparse>) | Bare(numbers: seq<Number>)

  /** A vector in a dump; older dumps hold a bare list. */
  datatype DumpedVec = DumpedMap(dense: Option<seq<Number>>, sparse: Option<Sparse>) | DumpedList(numbers: seq<Number>)

  /** What an upsert stores: no sparse slot without indices. */
  function Upserted(v: HybridVec): StoredVec {
    Named(Some(v.dense), if v.indices != [] then Some(Sparse(v.indices, v.values)) else None)
  }

  function Normalized(v: StoredVec): DumpedVec {
    match v
    case Missing => DumpedMap(None, None)
    case Named(dense, sparse) => DumpedMap(dense, if sparse.Some? && sparse.value.indices != [] then sparse else None)
    case Bare(numbers) => DumpedMap(Some(numbers), None)
  }

  function Restored(d: DumpedVec): HybridVec {
    match d
    case DumpedList(numbers) => HybridVec(numbers, [], [])
    case DumpedMap(dense, sparse) =>
      var s := sparse.GetOr(Sparse([], []));
      HybridVec(dense.GetOr([]), s.indices, s.values)
  }

  /** Dump and restore give back every vector without sparse values that lack indices. */
  lemma DumpRoundTripIff(v: HybridVec)
    ensures Restored(Normalized(Upserted(v))) == v <==> (v.indices == [] ==> v.values == [])
  {
  }

  /** Restoring a dump and dumping again gives the same dump, exactly for points that
      have a dense vector, in either layout. */
  lemma RedumpIff(v: StoredVec)
    ensures Normalized(Upserted(Restored(Normalized(v)))) == Normalized(v) <==> v.Bare? || (v.Named? && v.dense.Some?)
  {
  }

  /** An older dump holds a bare list: it restores as a dense vector, and is dumped as one from then on. */
  lemma OlderDump(numbers: seq<Number>)
    ensures Restored(DumpedList(numbers)) == HybridVec(numbers, [], [])
    ensures Normalized(Upserted(Restored(DumpedList(numbers)))) == DumpedMap(Some(numbers), None)
  {
  }
}
