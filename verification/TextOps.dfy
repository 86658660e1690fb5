/** Searching and trimming text, as Python's string methods do. */
module TextOps {
  import opened Wrappers

  /** `sub` occurs in `s` at position `i`. */
  predicate At(sub: string, s: string, i: nat) {
    i + |sub| <= |s| && forall k :: 0 <= k < |sub| ==> sub[k] == s[i + k]
  }

  /** `s.index(sub, from)`; `None` is the ValueError. */
  function IndexOf(sub: string, s: string, from: nat): (r: Option<nat>)
    ensures r.Some? ==> from <= r.value && At(sub, s, r.value)
    decreases |s| - from
  {
    if At(sub, s, from) then Some(from)
    else if from >= |s| then None
    else IndexOf(sub, s, from + 1)
  }

  predicate Contains(sub: string, s: string) {
    IndexOf(sub, s, 0).Some?
  }

  /** The result is the first occurrence at or after `from`. */
  lemma {:induction false} IndexOfIs(sub: string, s: string, from: nat)
    requires sub != ""
    ensures
      match IndexOf(sub, s, from)
      case Some(i) => from <= i && At(sub, s, i) && forall j :: from <= j < i ==> !At(sub, s, j)
      case None => forall j :: j >= from ==> !At(sub, s, j)
    decreases |s| - from
  {
    if !At(sub, s, from) && from < |s| {
      IndexOfIs(sub, s, from + 1);
    }
  }

  lemma FirstAt(sub: string, s: string, from: nat, i: nat)
    requires sub != "" && from <= i && At(sub, s, i) && forall j :: from <= j < i ==> !At(sub, s, j)
    ensures IndexOf(sub, s, from) == Some(i)
  {
    IndexOfIs(sub, s, from);
  }

  lemma ContainsIff(sub: string, s: string)
    requires sub != ""
    ensures Contains(sub, s) <==> exists i :: At(sub, s, i)
  {
    IndexOfIs(sub, s, 0);
  }

  lemma AtChar(sub: string, s: string, i: nat, k: nat)
    requires At(sub, s, i) && k < |sub|
    ensures sub[k] == s[i + k] && s[i + k] in sub
  {
  }

  /** An occurrence cannot straddle a character that it does not have. */
  lemma Separated(sub: string, a: string, c: char, b: string, i: nat)
    requires sub != "" && c !in sub
    ensures At(sub, a + [c] + b, i) <==> At(sub, a, i) || (i > |a| && At(sub, b, i - |a| - 1))
  {
    var s := a + [c] + b;
    assert s[|a|] == c;
    if At(sub, s, i) && i <= |a| < i + |sub| {
      AtChar(sub, s, i, |a| - i);
    }
  }

  lemma ContainsSeparated(sub: string, a: string, c: char, b: string)
    requires sub != "" && c !in sub
    ensures Contains(sub, a + [c] + b) <==> Contains(sub, a) || Contains(sub, b)
  {
    var s := a + [c] + b;
    ContainsIff(sub, s);
    ContainsIff(sub, a);
    ContainsIff(sub, b);
    if i: nat :| At(sub, s, i) {
      Separated(sub, a, c, b, i);
    }
    if i: nat :| At(sub, a, i) {
      Separated(sub, a, c, b, i);
    }
    if i: nat :| At(sub, b, i) {
      Separated(sub, a, c, b, i + |a| + 1);
      assert At(sub, s, i + |a| + 1);
    }
  }

  lemma WithoutFirstChar(sub: string, s: string)
    requires sub != "" && sub[0] !in s
    ensures !Contains(sub, s)
  {
    ContainsIff(sub, s);
    if i: nat :| At(sub, s, i) {
      AtChar(sub, s, i, 0);
    }
  }

  // ---------------------------------------------------------------- trimming

  /** The characters that `str.strip` removes. */
  predicate IsSpace(c: char) {
    var u := c as int;
    || 0x09 <= u <= 0x0d || 0x1c <= u <= 0x20 || u == 0x85 || u == 0xa0 || u == 0x1680
    || 0x2000 <= u <= 0x200a || u == 0x2028 || u == 0x2029 || u == 0x202f || u == 0x205f || u == 0x3000
  }

  function Rstrip(s: string): (r: string)
    ensures r <= s && (r != "" ==> !IsSpace(r[|r| - 1]))
  {
    if s == "" || !IsSpace(s[|s| - 1]) then s else Rstrip(s[..|s| - 1])
  }

  function Lstrip(s: string): (r: string)
    ensures r != "" ==> !IsSpace(r[0])
  {
    if s == "" || !IsSpace(s[0]) then s else Lstrip(s[1..])
  }

  function Strip(s: string): string {
    Rstrip(Lstrip(s))
  }

  predicate Blank(s: string) {
    forall i :: 0 <= i < |s| ==> IsSpace(s[i])
  }

  lemma {:induction false} RstripBlank(s: string, blank: string)
    requires Blank(blank)
    ensures Rstrip(s + blank) == Rstrip(s)
  {
    if blank == "" {
      assert s + blank == s;
    } else {
      var n := |blank| - 1;
      assert (s + blank)[..|s| + n] == s + blank[..n];
      RstripBlank(s, blank[..n]);
    }
  }

  lemma {:induction false} RstripLoses(s: string)
    ensures exists blank :: Blank(blank) && s == Rstrip(s) + blank
  {
    if s == "" || !IsSpace(s[|s| - 1]) {
      assert Blank("") && s == Rstrip(s) + "";
    } else {
      var n := |s| - 1;
      RstripLoses(s[..n]);
      var blank :| Blank(blank) && s[..n] == Rstrip(s[..n]) + blank;
      assert Blank(blank + [s[n]]) && s == Rstrip(s) + (blank + [s[n]]);
    }
  }

  lemma {:induction false} LstripAppend(s: string, t: string)
    requires Lstrip(s) != ""
    ensures Lstrip(s + t) == Lstrip(s) + t
  {
    if IsSpace(s[0]) {
      assert (s + t)[1..] == s[1..] + t;
      LstripAppend(s[1..], t);
    }
  }

  lemma {:induction false} LstripBlank(s: string)
    ensures Lstrip(s) == "" <==> Blank(s)
  {
    if s != "" && IsSpace(s[0]) {
      LstripBlank(s[1..]);
      assert Blank(s) <==> Blank(s[1..]);
    }
  }

  /** Trailing blanks do not matter to `strip`. */
  lemma StripBlank(s: string, blank: string)
    requires Blank(blank)
    ensures Strip(s + blank) == Strip(s)
  {
    LstripBlank(s);
    if Lstrip(s) == "" {
      LstripBlank(s + blank);
    } else {
      LstripAppend(s, blank);
      RstripBlank(Lstrip(s), blank);
    }
  }

  lemma StripOfRstrip(s: string)
    ensures Strip(Rstrip(s)) == Strip(s)
  {
    RstripLoses(s);
    var blank :| Blank(blank) && s == Rstrip(s) + blank;
    StripBlank(Rstrip(s), blank);
  }

  lemma BlankTail(r: string, blank: string, k: nat)
    requires Blank(blank) && k < |r + blank|
    ensures k >= |r| ==> IsSpace((r + blank)[k])
  {
  }

  lemma EndsBeforeBlank(sub: string, r: string, blank: string, i: nat)
    requires sub != "" && !IsSpace(sub[|sub| - 1]) && Blank(blank) && At(sub, r + blank, i)
    ensures At(sub, r, i)
  {
    AtChar(sub, r + blank, i, |sub| - 1);
    BlankTail(r, blank, i + |sub| - 1);
  }

  lemma OccursBefore(sub: string, r: string, more: string, i: nat)
    requires At(sub, r, i)
    ensures At(sub, r + more, i)
  {
  }

  /** A text whose last character is no blank survives right-trimming. */
  lemma OccursInTrimmed(sub: string, s: string)
    requires sub != "" && !IsSpace(sub[|sub| - 1])
    ensures Contains(sub, Rstrip(s)) <==> Contains(sub, s)
  {
    RstripLoses(s);
    var blank :| Blank(blank) && s == Rstrip(s) + blank;
    ContainsIff(sub, s);
    ContainsIff(sub, Rstrip(s));
    if i: nat :| At(sub, s, i) {
      EndsBeforeBlank(sub, Rstrip(s), blank, i);
    }
    if i: nat :| At(sub, Rstrip(s), i) {
      OccursBefore(sub, Rstrip(s), blank, i);
    }
  }

  lemma SameLength(sub: string, s: string)
    requires |sub| == |s| && sub != ""
    ensures Contains(sub, s) <==> sub == s
  {
    IndexOfIs(sub, s, 0);
    if Contains(sub, s) {
      assert IndexOf(sub, s, 0).value == 0;
    }
  }

  lemma StripTwice(s: string)
    ensures Strip(Strip(s)) == Strip(s)
  {
    var l := Lstrip(s);
    var r := Rstrip(l);
    if r != "" {
      assert r[0] == l[0];
    }
  }

  // ---------------------------------------------------------------- first occurrences

  /** Searching behind a part that ends in a character which the text does not have. */
  lemma IndexSeparated(sub: string, a: string, c: char, b: string)
    requires sub != "" && c !in sub
    ensures IndexOf(sub, a + [c] + b, 0) ==
      if Contains(sub, a) then IndexOf(sub, a, 0)
      else match IndexOf(sub, b, 0) case Some(i) => Some(|a| + 1 + i) case None => None
  {
    var s := a + [c] + b;
    IndexOfIs(sub, a, 0);
    IndexOfIs(sub, b, 0);
    IndexOfIs(sub, s, 0);
    forall i: nat
      ensures At(sub, s, i) <==> At(sub, a, i) || (i > |a| && At(sub, b, i - |a| - 1))
    {
      Separated(sub, a, c, b, i);
    }
    if Contains(sub, a) {
      FirstAt(sub, s, 0, IndexOf(sub, a, 0).value);
    } else if IndexOf(sub, b, 0).Some? {
      var i := IndexOf(sub, b, 0).value;
      assert At(sub, b, |a| + 1 + i - |a| - 1);
      FirstAt(sub, s, 0, |a| + 1 + i);
    }
  }

  lemma AtShift(sub: string, a: string, b: string, i: nat)
    ensures At(sub, a + b, |a| + i) <==> At(sub, b, i)
  {
    var s := a + b;
    if At(sub, s, |a| + i) {
      forall k | 0 <= k < |sub|
        ensures sub[k] == b[i + k]
      {
        assert s[|a| + i + k] == b[i + k];
      }
    }
  }

  lemma {:induction false} IndexShift(sub: string, a: string, b: string, from: nat)
    requires sub != ""
    ensures IndexOf(sub, a + b, |a| + from) == match IndexOf(sub, b,
                                                             from) case Some(i) => Some(|a| + i) case None => None
    decreases |b| - from
  {
    var s := a + b;
    AtShift(sub, a, b, from);
    if from < |b| && !At(sub, b, from) {
      IndexShift(sub, a, b, from + 1);
    }
  }

  lemma AtFront(sub: string, rest: string)
    ensures At(sub, sub + rest, 0) && IndexOf(sub, sub + rest, 0) == Some(0)
  {
  }

  predicate FoundAt(found: Option<nat>, i: nat) {
    found.Some? && found.value == i
  }

  lemma FoundBehind(sub: string, a: string, c: char, b: string, k: nat)
    requires sub != "" && c !in sub && !Contains(sub, a) && FoundAt(IndexOf(sub, b, 0), k)
    ensures FoundAt(IndexOf(sub, a + [c] + b, 0), |a| + 1 + k)
  {
    IndexSeparated(sub, a, c, b);
  }

  lemma FoundInSecond(sub: string, second: string, c: char, rest: string)
    requires sub != "" && c !in sub
    ensures FoundAt(IndexOf(sub, second + [c] + (sub + rest), 0), if Contains(sub, second) then
                    IndexOf(sub, second, 0).value else |second| + 1)
  {
    AtFront(sub, rest);
    IndexSeparated(sub, second, c, sub + rest);
  }

  /** Searching through three parts with newlines between them, the first of which
      does not hold the text while the third starts with it. */
  lemma IndexInParts(sub: string, first: string, second: string, rest: string)
    requires sub != "" && '\n' !in sub && !Contains(sub, first)
    ensures FoundAt(IndexOf(sub, first + ['\n'] + (second + ['\n'] + (sub + rest)), 0),
      |first| + 1 + if Contains(sub, second) then IndexOf(sub, second, 0).value else |second| + 1)
  {
    FoundInSecond(sub, second, '\n', rest);
    FoundBehind(sub, first, '\n', second + ['\n'] + (sub + rest), if Contains(sub, second) then
                IndexOf(sub, second, 0).value else |second| + 1);
  }
}
