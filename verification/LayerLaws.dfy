/** Which layer a path belongs to, told on its segments and the table of rules. */
module LayerLaws {
  import opened Wrappers
  import opened Architecture

  /** Rule `k` is the last that spells the word. */
  predicate Spells(rules: Rules, word: string, k: int) {
    0 <= k < |rules| && word in rules[k].1.segments && forall j :: k < j < |rules| ==> word !in rules[j].1.segments
  }

  predicate Unspelled(rules: Rules, word: string) {
    forall k :: 0 <= k < |rules| ==> word !in rules[k].1.segments
  }

  /** The last delimiter of the segment is at `d`, and something stands on either side of it. */
  predicate Splits(part: string, delimiters: set<char>, d: int) {
    0 < d < |part| - 1 && part[d] in delimiters && forall j :: d < j < |part| ==> part[j] !in delimiters
  }

  predicate Generic(lower: string -> string, part: string) {
    lower(part) in {"src", "lib", "app", "source"}
  }

  /** The nearest ancestor of segment `i` that is not generic; "root" if there is none. */
  predicate IsContext(lower: string -> string, parts: seq<string>, i: nat, context: string)
    requires i <= |parts|
  {
    || (context == "root" && forall k :: 0 <= k < i ==> Generic(lower, parts[k]))
    || exists j :: 0 <= j < i && context == parts[j] && !Generic(lower, parts[j])
                   && forall k :: j < k < i ==> Generic(lower, parts[k])
  }

  predicate Gives(rules: Rules, k: int, class_: Class) {
    0 <= k < |rules| && class_.name == rules[k].1.name && class_.rank == rules[k].1.rank
  }

  /** The whole segment is spelled by a rule. */
  ghost predicate WholeSays(layers: Layers, parts: seq<string>, i: nat, class_: Class)
    requires i < |parts|
  {
    && IsContext(layers.lower, parts, i, class_.context)
    && exists k :: Spells(layers.rules, layers.lower(parts[i]), k) && Gives(layers.rules, k, class_)
  }

  predicate TailSpelled(layers: Layers, part: string, d: int, k: int) {
    Splits(part, {'.', '-'}, d) && Spells(layers.rules, layers.lower(part[d + 1..]), k)
  }

  /** Only what stands behind its last dot or dash is. */
  ghost predicate TailSays(layers: Layers, part: string, class_: Class) {
    && Unspelled(layers.rules, layers.lower(part))
    && exists d, k :: TailSpelled(layers, part, d, k) && Gives(layers.rules, k, class_) && class_.context == part[..d]
  }

  /** The dictionary's rule of that key. */
  predicate HasKey(rules: Rules, key: string, k: int) {
    0 <= k < |rules| && rules[k].0 == key && forall j :: 0 <= j < k ==> rules[j].0 != key
  }

  predicate EndsInApi(layers: Layers, part: string, d: int) {
    Splits(part, {'.'}, d) && layers.lower(part[d + 1..]) == "api"
  }

  /** Neither is, but it ends in `.api`. */
  ghost predicate ApiSays(layers: Layers, part: string, class_: Class) {
    && Unspelled(layers.rules, layers.lower(part)) && (forall d, k :: !TailSpelled(layers, part, d, k))
    && exists d, k :: EndsInApi(layers, part, d) && HasKey(layers.rules, "presentation", k)
                      && Gives(layers.rules, k, class_) && class_.context == part[..d]
  }

  ghost predicate Says(layers: Layers, parts: seq<string>, i: nat, class_: Class)
    requires i < |parts|
  {
    WholeSays(layers, parts, i, class_) || TailSays(layers, parts[i], class_) || ApiSays(layers, parts[i], class_)
  }

  ghost predicate Silent(layers: Layers, parts: seq<string>, i: nat)
    requires i < |parts|
  {
    forall class_ :: !Says(layers, parts, i, class_)
  }

  lemma {:induction false} RuleIs(rules: Rules, word: string)
    ensures RuleFor(rules, word).None? <==> Unspelled(rules, word)
    ensures RuleFor(rules, word).Some? ==>
      exists k :: Spells(rules, word, k) && RuleFor(rules, word).value == rules[k].1
  {
    if rules != [] {
      var n := |rules| - 1;
      RuleIs(rules[..n], word);
      if word in rules[n].1.segments {
        assert Spells(rules, word, n);
      } else if RuleFor(rules[..n], word).Some? {
        var k :| Spells(rules[..n], word, k) && RuleFor(rules[..n], word).value == rules[..n][k].1;
        assert Spells(rules, word, k);
      } else {
        assert forall k :: 0 <= k < n ==> rules[..n][k] == rules[k];
      }
    }
  }

  lemma {:induction false} NamedIs(rules: Rules, key: string)
    ensures Named(rules, key).None? <==> forall k :: 0 <= k < |rules| ==> rules[k].0 != key
    ensures Named(rules, key).Some? ==> exists k :: HasKey(rules, key, k) && Named(rules, key).value == rules[k].1
  {
    if rules != [] {
      NamedIs(rules[1..], key);
      if rules[0].0 == key {
        assert HasKey(rules, key, 0);
      } else if Named(rules[1..], key).Some? {
        var k :| HasKey(rules[1..], key, k) && Named(rules[1..], key).value == rules[1..][k].1;
        forall j | 0 <= j < k + 1
          ensures rules[j].0 != key
        {
          assert j == 0 || rules[j] == rules[1..][j - 1];
        }
        assert HasKey(rules, key, k + 1);
      } else {
        assert forall k :: 1 <= k < |rules| ==> rules[k] == rules[1..][k - 1];
      }
    }
  }

  lemma SplitIs(part: string, split: char -> bool, delimiters: set<char>)
    requires forall c :: split(c) <==> c in delimiters
    ensures SplitTail(part, split).None? <==> forall d :: !Splits(part, delimiters, d)
    ensures SplitTail(part, split).Some? ==>
      exists d :: Splits(part, delimiters, d) && SplitTail(part, split).value == (part[..d], part[d + 1..])
  {
    var i := LastAt(part, split);
    if 0 < i < |part| - 1 {
      assert Splits(part, delimiters, i);
    }
    forall d | Splits(part, delimiters, d)
      ensures d == i
    {
    }
  }

  lemma {:induction false} ContextIs(lower: string -> string, parts: seq<string>, i: nat)
    requires i <= |parts|
    ensures IsContext(lower, parts, i, ContextOf(lower, parts, i))
  {
    if i > 0 && lower(parts[i - 1]) in GenericSegments() {
      ContextIs(lower, parts, i - 1);
    }
  }

  /** A segment has one context, even where a directory is called "root". */
  lemma OneContext(lower: string -> string, parts: seq<string>, i: nat, a: string, b: string)
    requires i <= |parts| && IsContext(lower, parts, i, a) && IsContext(lower, parts, i, b)
    ensures a == b
  {
  }

  /** A rule is spelled by at most one position. */
  lemma OneSpells(rules: Rules, word: string, j: int, k: int)
    requires Spells(rules, word, j) && Spells(rules, word, k)
    ensures j == k
  {
  }

  lemma WholeIs(layers: Layers, parts: seq<string>, i: nat, class_: Class)
    requires i < |parts| && RuleFor(layers.rules, layers.lower(parts[i])).Some?
    ensures MatchAt(layers, parts, i) == Some(class_) <==> WholeSays(layers, parts, i, class_)
    ensures !Unspelled(layers.rules, layers.lower(parts[i]))
  {
    var word := layers.lower(parts[i]);
    RuleIs(layers.rules, word);
    var k :| Spells(layers.rules, word, k) && RuleFor(layers.rules, word).value == layers.rules[k].1;
    ContextIs(layers.lower, parts, i);
    if WholeSays(layers, parts, i, class_) {
      var j :| Spells(layers.rules, word, j) && Gives(layers.rules, j, class_);
      OneSpells(layers.rules, word, j, k);
      OneContext(layers.lower, parts, i, class_.context, ContextOf(layers.lower, parts, i));
    }
  }

  /** The tail's rule, if it has one. */
  function ByTail(layers: Layers, part: string): Option<LayerRule> {
    var tail := SplitTail(part, IsDotOrDash());
    if tail.Some? then RuleFor(layers.rules, layers.lower(tail.value.1)) else None
  }

  lemma OneSplit(part: string, delimiters: set<char>, a: int, b: int)
    requires Splits(part, delimiters, a) && Splits(part, delimiters, b)
    ensures a == b
  {
  }

  lemma ByTailIs(layers: Layers, part: string)
    ensures ByTail(layers, part).None? <==> forall d, k :: !TailSpelled(layers, part, d, k)
    ensures ByTail(layers, part).Some? ==>
      exists d, k :: TailSpelled(layers, part, d, k) && ByTail(layers, part).value == layers.rules[k].1
                     && SplitTail(part, IsDotOrDash()).value.0 == part[..d]
  {
    SplitIs(part, IsDotOrDash(), {'.', '-'});
    var tail := SplitTail(part, IsDotOrDash());
    if tail.Some? {
      var d :| Splits(part, {'.', '-'}, d) && tail.value == (part[..d], part[d + 1..]);
      RuleIs(layers.rules, layers.lower(part[d + 1..]));
      if ByTail(layers, part).Some? {
        var k :| Spells(layers.rules, layers.lower(part[d + 1..]), k) &&
          ByTail(layers, part).value == layers.rules[k].1;
        assert TailSpelled(layers, part, d, k);
      }
      forall d', k | TailSpelled(layers, part, d', k)
        ensures d' == d
      {
        OneSplit(part, {'.', '-'}, d, d');
      }
    }
  }

  lemma TailIs(layers: Layers, parts: seq<string>, i: nat, class_: Class)
    requires i < |parts| && RuleFor(layers.rules, layers.lower(parts[i])).None? && ByTail(layers, parts[i]).Some?
    ensures MatchAt(layers, parts, i) == Some(class_) <==> TailSays(layers, parts[i], class_)
  {
    var part := parts[i];
    RuleIs(layers.rules, layers.lower(part));
    ByTailIs(layers, part);
    var d, k :| TailSpelled(layers, part, d, k) && ByTail(layers, part).value == layers.rules[k].1
      && SplitTail(part, IsDotOrDash()).value.0 == part[..d];
    if TailSays(layers, part, class_) {
      var d', k' :| TailSpelled(layers, part, d', k') && Gives(layers.rules, k', class_) &&
        class_.context == part[..d'];
      OneSplit(part, {'.', '-'}, d, d');
      OneSpells(layers.rules, layers.lower(part[d + 1..]), k, k');
    }
  }

  /** The segment ends in `.api`, behind position `d`. */
  lemma EndsInApiIs(layers: Layers, part: string, d: int)
    ensures EndsInApi(layers, part, d) <==>
      && SplitTail(part, IsDot()).Some? && layers.lower(SplitTail(part, IsDot()).value.1) == DotOnlyWord()
      && Splits(part, {'.'}, d)
    ensures EndsInApi(layers, part, d) ==> SplitTail(part, IsDot()).value.0 == part[..d]
  {
    SplitIs(part, IsDot(), {'.'});
    if Splits(part, {'.'}, d) {
      var d' :| Splits(part, {'.'}, d') && SplitTail(part, IsDot()).value == (part[..d'], part[d' + 1..]);
      OneSplit(part, {'.'}, d, d');
    }
  }

  lemma ApiSaysIs(layers: Layers, parts: seq<string>, i: nat, class_: Class)
    requires i < |parts| && RuleFor(layers.rules, layers.lower(parts[i])).None? && ByTail(layers, parts[i]).None?
    requires ApiSays(layers, parts[i], class_)
    ensures MatchAt(layers, parts, i) == Some(class_)
  {
    var part := parts[i];
    NamedIs(layers.rules, "presentation");
    var d, k :| EndsInApi(layers, part, d) && HasKey(layers.rules, "presentation", k)
      && Gives(layers.rules, k, class_) && class_.context == part[..d];
    EndsInApiIs(layers, part, d);
    var k' :| HasKey(layers.rules, "presentation", k')
      && Named(layers.rules, "presentation").value == layers.rules[k'].1;
    assert k == k';
  }

  lemma ApiIsSaid(layers: Layers, parts: seq<string>, i: nat, class_: Class)
    requires i < |parts| && RuleFor(layers.rules, layers.lower(parts[i])).None? && ByTail(layers, parts[i]).None?
    requires MatchAt(layers, parts, i) == Some(class_)
    ensures ApiSays(layers, parts[i], class_)
  {
    var part := parts[i];
    RuleIs(layers.rules, layers.lower(part));
    ByTailIs(layers, part);
    SplitIs(part, IsDot(), {'.'});
    NamedIs(layers.rules, "presentation");
    var d :| Splits(part, {'.'}, d) && SplitTail(part, IsDot()).value == (part[..d], part[d + 1..]);
    var k :| HasKey(layers.rules, "presentation", k) && Named(layers.rules, "presentation").value == layers.rules[k].1;
    assert EndsInApi(layers, part, d) && Gives(layers.rules, k, class_) && class_.context == part[..d];
  }

  lemma ApiIs(layers: Layers, parts: seq<string>, i: nat, class_: Class)
    requires i < |parts| && RuleFor(layers.rules, layers.lower(parts[i])).None? && ByTail(layers, parts[i]).None?
    ensures MatchAt(layers, parts, i) == Some(class_) <==> ApiSays(layers, parts[i], class_)
  {
    if ApiSays(layers, parts[i], class_) {
      ApiSaysIs(layers, parts, i, class_);
    }
    if MatchAt(layers, parts, i) == Some(class_) {
      ApiIsSaid(layers, parts, i, class_);
    }
  }

  /** What a segment says, without the lookups. */
  lemma MatchIs(layers: Layers, parts: seq<string>, i: nat, class_: Class)
    requires i < |parts|
    ensures MatchAt(layers, parts, i) == Some(class_) <==> Says(layers, parts, i, class_)
  {
    RuleIs(layers.rules, layers.lower(parts[i]));
    ByTailIs(layers, parts[i]);
    if RuleFor(layers.rules, layers.lower(parts[i])).Some? {
      WholeIs(layers, parts, i, class_);
    } else if ByTail(layers, parts[i]).Some? {
      TailIs(layers, parts, i, class_);
    } else {
      ApiIs(layers, parts, i, class_);
    }
  }

  /** The class of a path: what its first segment that says anything says. */
  ghost predicate FirstSays(layers: Layers, parts: seq<string>, class_: Class) {
    exists i :: 0 <= i < |parts| && Says(layers, parts, i, class_) && forall j :: 0 <= j < i ==>
      Silent(layers, parts, j)
  }

  lemma SilentIs(layers: Layers, parts: seq<string>, i: nat)
    requires i < |parts|
    ensures Silent(layers, parts, i) <==> MatchAt(layers, parts, i).None?
  {
    forall class_ {
      MatchIs(layers, parts, i, class_);
    }
    if MatchAt(layers, parts, i).Some? {
      assert Says(layers, parts, i, MatchAt(layers, parts, i).value);
    }
  }

  lemma NotSilent(layers: Layers, parts: seq<string>, i: nat, class_: Class)
    requires i < |parts| && Says(layers, parts, i, class_)
    ensures !Silent(layers, parts, i)
  {
  }

  lemma OneSays(layers: Layers, parts: seq<string>, i: nat, j: nat, a: Class, b: Class)
    requires i < |parts| && j < |parts| && Says(layers, parts, i, a) && Says(layers, parts, j, b)
    requires forall k :: 0 <= k < i ==> Silent(layers, parts, k)
    requires forall k :: 0 <= k < j ==> Silent(layers, parts, k)
    ensures i == j && a == b
  {
    NotSilent(layers, parts, i, a);
    NotSilent(layers, parts, j, b);
    MatchIs(layers, parts, i, a);
    MatchIs(layers, parts, j, b);
  }

  lemma AllSilent(layers: Layers, parts: seq<string>, class_: Class)
    requires forall i :: 0 <= i < |parts| ==> Silent(layers, parts, i)
    ensures !FirstSays(layers, parts, class_)
  {
    forall i | 0 <= i < |parts|
      ensures !Says(layers, parts, i, class_)
    {
      SilentMeans(layers, parts, i, class_);
    }
  }

  lemma SilentMeans(layers: Layers, parts: seq<string>, i: nat, class_: Class)
    requires i < |parts| && Silent(layers, parts, i)
    ensures !Says(layers, parts, i, class_)
  {
  }

  lemma DecidedBy(layers: Layers, parts: seq<string>) returns (i: nat)
    requires Classify(layers, parts).Some?
    ensures i < |parts| && Says(layers, parts, i, Classify(layers, parts).value)
    ensures forall j :: 0 <= j < i ==> Silent(layers, parts, j)
  {
    ShallowestDecides(layers, parts);
    var c := Classify(layers, parts);
    i :| 0 <= i < |parts| && c == MatchAt(layers, parts, i)
      && forall j :: 0 <= j < i ==> MatchAt(layers, parts, j).None?;
    MatchIs(layers, parts, i, c.value);
    forall j | 0 <= j < i
      ensures Silent(layers, parts, j)
    {
      SilentIs(layers, parts, j);
    }
  }

  /** The classification, for every table and every path: the first segment that says anything decides. */
  lemma ClassifyIs(layers: Layers, parts: seq<string>, class_: Class)
    ensures Classify(layers, parts) == Some(class_) <==> FirstSays(layers, parts, class_)
    ensures Classify(layers, parts).None? <==> forall i :: 0 <= i < |parts| ==> Silent(layers, parts, i)
  {
    if Classify(layers, parts).Some? {
      var c := Classify(layers, parts).value;
      var i := DecidedBy(layers, parts);
      NotSilent(layers, parts, i, c);
      assert FirstSays(layers, parts, c);
      if FirstSays(layers, parts, class_) {
        var j :| 0 <= j < |parts| && Says(layers, parts, j, class_)
          && forall m :: 0 <= m < j ==> Silent(layers, parts, m);
        OneSays(layers, parts, i, j, c, class_);
      }
    } else {
      ShallowestDecides(layers, parts);
      forall i | 0 <= i < |parts|
        ensures Silent(layers, parts, i)
      {
        SilentIs(layers, parts, i);
      }
      AllSilent(layers, parts, class_);
    }
  }

  // ---------------------------------------------------------------- what that means for `api`

  lemma SplitsAfter(x: string, c: char, t: string, delimiters: set<char>)
    requires x != "" && t != "" && c in delimiters && forall i :: 0 <= i < |t| ==> t[i] !in delimiters
    ensures Splits(x + [c] + t, delimiters, |x|) && (x + [c] + t)[..|x|] == x && (x + [c] + t)[|x| + 1..] == t
  {
    var part := x + [c] + t;
    forall j | |x| < j < |part|
      ensures part[j] !in delimiters
    {
      assert part[j] == t[j - |x| - 1];
    }
  }

  /** `X.Api`, where no rule spells the whole: the presentation layer of `X`, or nothing without that rule; but if some
      rule spells `api`, that rule's. */
  lemma DotApi(layers: Layers, parts: seq<string>, i: nat, x: string, api: string)
    requires i < |parts| && parts[i] == x + "." + api && x != "" && layers.lower(api) == "api"
    requires api != "" && forall k :: 0 <= k < |api| ==> api[k] !in {'.', '-'}
    requires Unspelled(layers.rules, layers.lower(parts[i]))
    ensures forall k, class_ :: Spells(layers.rules, "api", k) ==>
      (Says(layers, parts, i, class_) <==> class_ == Class(x, layers.rules[k].1.name, layers.rules[k].1.rank))
    ensures forall k, class_ :: Unspelled(layers.rules, "api") && HasKey(layers.rules, "presentation", k) ==>
      (Says(layers, parts, i, class_) <==> class_ == Class(x, layers.rules[k].1.name, layers.rules[k].1.rank))
    ensures
      Unspelled(layers.rules, "api") && (forall k :: 0 <= k < |layers.rules| ==>
                                         layers.rules[k].0 != "presentation") ==>
      Silent(layers, parts, i)
  {
    var part, d := parts[i], |x|;
    assert x + "." + api == x + ['.'] + api;
    SplitsAfter(x, '.', api, {'.', '-'});
    SplitsAfter(x, '.', api, {'.'});
    forall k, class_ | Spells(layers.rules, "api", k)
      ensures Says(layers, parts, i, class_) <==> class_ == Class(x, layers.rules[k].1.name, layers.rules[k].1.rank)
    {
      assert TailSpelled(layers, part, d, k);
      TailGives(layers, parts, i, d, k, class_);
    }
    if Unspelled(layers.rules, "api") {
      forall d', k
        ensures !TailSpelled(layers, part, d', k)
      {
        if Splits(part, {'.', '-'}, d') {
          OneSplit(part, {'.', '-'}, d, d');
        }
      }
      forall d' | EndsInApi(layers, part, d')
        ensures d' == d
      {
        OneSplit(part, {'.'}, d, d');
      }
      assert EndsInApi(layers, part, d);
    }
  }

  lemma TailGives(layers: Layers, parts: seq<string>, i: nat, d: int, k: int, class_: Class)
    requires i < |parts| && TailSpelled(layers, parts[i], d, k)
    requires Unspelled(layers.rules, layers.lower(parts[i]))
    ensures Says(layers, parts, i, class_) <==>
      class_ == Class(parts[i][..d], layers.rules[k].1.name, layers.rules[k].1.rank)
  {
    forall d', k' | TailSpelled(layers, parts[i], d', k')
      ensures d' == d && k' == k
    {
      OneSplit(parts[i], {'.', '-'}, d, d');
      OneSpells(layers.rules, layers.lower(parts[i][d + 1..]), k, k');
    }
  }

  /** Lowering does not turn a word with a dash into `api`. */
  ghost predicate KeepsDashes(lower: string -> string) {
    forall s :: '-' in s ==> lower(s) != "api"
  }

  /** `x-api`, where no rule spells the whole or `api`, says nothing: a service's name is no layer. */
  lemma DashApi(layers: Layers, parts: seq<string>, i: nat, x: string, api: string)
    requires i < |parts| && parts[i] == x + "-" + api && x != "" && layers.lower(api) == "api"
    requires api != "" && forall k :: 0 <= k < |api| ==> api[k] !in {'.', '-'}
    requires Unspelled(layers.rules, layers.lower(parts[i])) && Unspelled(layers.rules, "api")
    requires KeepsDashes(layers.lower)
    ensures Silent(layers, parts, i)
  {
    var part, d := parts[i], |x|;
    assert x + "-" + api == x + ['-'] + api;
    SplitsAfter(x, '-', api, {'.', '-'});
    forall d', k
      ensures !TailSpelled(layers, part, d', k)
    {
      if Splits(part, {'.', '-'}, d') {
        OneSplit(part, {'.', '-'}, d, d');
      }
    }
    forall d'
      ensures !EndsInApi(layers, part, d')
    {
      if Splits(part, {'.'}, d') {
        assert d' < d;
        assert part[d' + 1..][d - d' - 1] == '-';
      }
    }
  }

  /** A segment that starts or ends with its last delimiter has no tail. */
  lemma EmptySideIsSilent(layers: Layers, parts: seq<string>, i: nat, d: int)
    requires i < |parts| && 0 <= d < |parts[i]| && (d == 0 || d == |parts[i]| - 1) && parts[i][d] in {'.', '-'}
    requires forall j :: d < j < |parts[i]| ==> parts[i][j] !in {'.', '-'}
    requires Unspelled(layers.rules, layers.lower(parts[i])) && KeepsDashes(layers.lower)
    ensures Silent(layers, parts, i)
  {
    var part := parts[i];
    forall d', k
      ensures !TailSpelled(layers, part, d', k)
    {
      assert Splits(part, {'.', '-'}, d') ==> d' == d;
    }
    forall d'
      ensures !EndsInApi(layers, part, d')
    {
      if Splits(part, {'.'}, d') {
        assert d' < d && part[d] == '-';
        assert part[d' + 1..][d - d' - 1] == '-';
      }
    }
  }
}
