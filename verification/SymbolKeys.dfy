/** Graph keys of Symbol nodes, and which file a key belongs to. */
module SymbolKeys {
  import opened Wrappers
  import opened Extraction

  function Digit(d: nat): char
    requires d < 10
  {
    '0' + d as char
  }

  /** Decimal rendering, as Python prints a line number. */
  function Decimal(n: nat): (s: string)
    ensures s != [] && forall i :: 0 <= i < |s| ==> '0' <= s[i] <= '9'
  {
    if n < 10 then [Digit(n)] else Decimal(n / 10) + [Digit(n % 10)]
  }

  lemma {:induction false} DecimalInjective(m: nat, n: nat)
    requires Decimal(m) == Decimal(n)
    ensures m == n
  {
    if m < 10 || n < 10 {
      assert Decimal(m)[0] == Decimal(n)[0];
    } else {
      var a, b := Decimal(m / 10), Decimal(n / 10);
      assert |a| + 1 == |Decimal(m)| == |Decimal(n)| == |b| + 1;
      assert Decimal(m)[|a|] == Decimal(n)[|b|];
      assert Decimal(m)[..|a|] == a && Decimal(n)[..|b|] == b;
      DecimalInjective(m / 10, n / 10);
    }
  }

  /** A partial declaration with a namespace is one node for all its files. */
  predicate Shared(s: Sym) {
    s.partial && s.namespace.Some? && s.namespace.value != ""
  }

  function FileScopedKey(path: string, name: string, line: nat): string {
    path + "::" + name + "#" + Decimal(line)
  }

  function SymbolKey(path: string, s: Sym): string {
    if Shared(s) then "partial::" + s.namespace.value + "." + s.name
    else FileScopedKey(path, s.name, s.startLine)
  }

  function PlaceholderKey(name: string): string {
    "name::" + name
  }

  /** Everything in front of the first `::`. */
  function Owner(key: string): string {
    if |key| < 2 then key
    else if key[0] == ':' && key[1] == ':' then ""
    else [key[0]] + Owner(key[1..])
  }

  /** No `::` starts inside the path, not even with its last character. */
  predicate SeparatorFree(path: string) {
    forall i {:trigger path[i]} :: 0 <= i < |path| ==> !(path[i] == ':' && (i + 1 == |path| || path[i + 1] == ':'))
  }

  /** A file path whose keys cannot be confused with another file's.
      Every absolute path without `::` and without a trailing colon qualifies. */
  predicate GoodPath(path: string) {
    SeparatorFree(path) && path != "partial" && path != "name"
  }

  /** A key that belongs to exactly one file. */
  predicate FileScoped(key: string) {
    Owner(key) != "partial" && Owner(key) != "name"
  }

  lemma {:induction false} OwnerOfJoined(path: string, rest: string)
    requires SeparatorFree(path)
    ensures Owner(path + "::" + rest) == path
  {
    var key := path + "::" + rest;
    if path == "" {
      assert key[0] == ':' && key[1] == ':';
    } else {
      assert key[1..] == path[1..] + "::" + rest;
      assert !(key[0] == ':' && key[1] == ':') by {
        assert key[0] == path[0];
        if |path| > 1 {
          assert key[1] == path[1];
        }
      }
      forall i {:trigger path[1..][i]} | 0 <= i < |path[1..]|
        ensures !(path[1..][i] == ':' && (i + 1 == |path[1..]| || path[1..][i + 1] == ':'))
      {
        assert path[1..][i] == path[i + 1];
        if i + 1 < |path[1..]| {
          assert path[1..][i + 1] == path[i + 2];
        }
      }
      OwnerOfJoined(path[1..], rest);
      assert [path[0]] + path[1..] == path;
    }
  }

  /** The owner of a key is the file that wrote it, or one of the two pools. */
  lemma OwnerOfSymbolKey(path: string, s: Sym)
    requires GoodPath(path)
    ensures Owner(SymbolKey(path, s)) == if Shared(s) then "partial" else path
    ensures FileScoped(SymbolKey(path, s)) <==> !(s.partial && s.namespace.GetOr("") != "")
  {
    if Shared(s) {
      var rest := s.namespace.value + "." + s.name;
      assert SymbolKey(path, s) == "partial" + "::" + rest;
      OwnerOfJoined("partial", rest);
    } else {
      var rest := s.name + "#" + Decimal(s.startLine);
      assert SymbolKey(path, s) == path + "::" + rest;
      OwnerOfJoined(path, rest);
    }
  }

  /** The parts of a partial class are one symbol, whatever their files and lines. */
  lemma PartsShareAKey(p: string, s: Sym, q: string, t: Sym)
    requires s.partial && t.partial && s.namespace == t.namespace && s.namespace.GetOr("") != "" && s.name == t.name
    ensures SymbolKey(p, s) == SymbolKey(q, t)
  {
  }

  lemma OwnerOfPlaceholder(name: string)
    ensures Owner(PlaceholderKey(name)) == "name"
  {
    assert PlaceholderKey(name) == "name" + "::" + name;
    OwnerOfJoined("name", name);
  }

  /** Two files, or two (name, line) pairs of one file, never share a key:
      symbol names may contain `:` and `#` freely. */
  lemma KeyInjective(p: string, n: string, l: nat, q: string, m: string, k: nat)
    requires SeparatorFree(p) && SeparatorFree(q)
    requires FileScopedKey(p, n, l) == FileScopedKey(q, m, k)
    ensures p == q && n == m && l == k
  {
    var a, b := n + "#" + Decimal(l), m + "#" + Decimal(k);
    assert FileScopedKey(p, n, l) == p + "::" + a && FileScopedKey(q, m, k) == q + "::" + b;
    OwnerOfJoined(p, a);
    OwnerOfJoined(q, b);
    assert a == FileScopedKey(p, n, l)[|p| + 2..] && b == FileScopedKey(q, m, k)[|q| + 2..];
    LastHashSplits(n, Decimal(l), m, Decimal(k));
    DecimalInjective(l, k);
  }

  lemma LastHashSplits(a: string, x: string, b: string, y: string)
    requires a + "#" + x == b + "#" + y
    requires forall i :: 0 <= i < |x| ==> x[i] != '#'
    requires forall i :: 0 <= i < |y| ==> y[i] != '#'
    ensures a == b && x == y
  {
    var s, t := a + "#" + x, b + "#" + y;
    assert s[|a|] == '#' && t[|b|] == '#';
    assert forall i :: |a| < i < |s| ==> s[i] == x[i - |a| - 1] != '#';
    assert forall i :: |b| < i < |t| ==> t[i] == y[i - |b| - 1] != '#';
    assert |a| == |b|;
    assert a == s[..|a|] && b == t[..|b|];
    assert x == s[|a| + 1..] && y == t[|b| + 1..];
  }

  /** `q` continues `p` in a way that a symbol name of `p` can imitate. */
  predicate Imitates(p: string, q: string) {
    q == p + ":" || p + "::" <= q
  }

  ghost predicate SomeKeyClash(p: string, q: string) {
    exists n: string, l: nat, m: string, k: nat :: FileScopedKey(p, n, l) == FileScopedKey(q, m, k)
  }

  /** Without a condition on paths keys do clash; exactly these pairs of files can. */
  lemma ClashIff(p: string, q: string)
    ensures SomeKeyClash(p, q) <==> p == q || Imitates(p, q) || Imitates(q, p)
  {
    if SomeKeyClash(p, q) && p != q {
      var n, l, m, k :| FileScopedKey(p, n, l) == FileScopedKey(q, m, k);
      if |p| <= |q| {
        ClashMeansImitates(p, n, l, q, m, k);
      } else {
        ClashMeansImitates(q, m, k, p, n, l);
      }
    }
    if p == q {
      assert FileScopedKey(p, "", 0) == FileScopedKey(q, "", 0);
    }
    if Imitates(p, q) {
      var n, m := ImitationClashes(p, q);
    }
    if Imitates(q, p) {
      var n, m := ImitationClashes(q, p);
      assert FileScopedKey(p, m, 0) == FileScopedKey(q, n, 0);
    }
  }

  lemma ClashMeansImitates(p: string, n: string, l: nat, q: string, m: string, k: nat)
    requires p != q && |p| <= |q|
    requires FileScopedKey(p, n, l) == FileScopedKey(q, m, k)
    ensures Imitates(p, q)
  {
    var key := FileScopedKey(p, n, l);
    assert p == key[..|p|] && q == key[..|q|];
    assert p == q[..|p|];
    assert key[|p|] == ':' && key[|p| + 1] == ':';
    assert q[|p|] == ':';
    if |q| == |p| + 1 {
      assert q == p + ":";
    } else {
      assert q[|p| + 1] == ':';
      assert q[..|p| + 2] == p + "::";
    }
  }

  lemma ImitationClashes(p: string, q: string) returns (n: string, m: string)
    requires Imitates(p, q)
    ensures FileScopedKey(p, n, 0) == FileScopedKey(q, m, 0)
  {
    m := "";
    if q == p + ":" {
      n := ":";
      assert FileScopedKey(p, n, 0) == p + ":::#0" == FileScopedKey(q, m, 0);
    } else {
      var u := q[|p| + 2..];
      n := u + "::";
      assert q == p + "::" + u;
      assert FileScopedKey(p, n, 0) == FileScopedKey(q, m, 0);
    }
  }
}
