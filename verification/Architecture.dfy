/** Which architecture layer a path belongs to: the shallowest segment that names one. */
module Architecture {
  import opened Wrappers

  datatype LayerRule = LayerRule(name: string, rank: int, segments: seq<string>)

  /** Keys and rules in dictionary order. */
  type Rules = seq<(string, LayerRule)>

  /** The configured layers; `lower` stands for `str.lower`. */
  datatype Layers = Layers(rules: Rules, lower: string -> string)

  datatype Class = Class(context: string, name: string, rank: int)

  function GenericSegments(): set<string> {
    {"src", "lib", "app", "source"}
  }

  function DotOnlyWord(): string {
    "api"
  }

  // ---------------------------------------------------------------- lookups

  /** The rule for a segment: the last rule, and in it the last spelling, wins. */
  function RuleFor(layers: Rules, segment: string): Option<LayerRule> {
    if layers == [] then None
    else
      var last := layers[|layers| - 1].1;
      if segment in last.segments then Some(last) else RuleFor(layers[..|layers| - 1], segment)
  }

  method SegmentTable(layers: Rules) returns (table: map<string, LayerRule>)
    ensures forall s :: RuleFor(layers, s) == if s in table then Some(table[s]) else None
  {
    table := map[];
    for i := 0 to |layers|
      invariant forall s :: RuleFor(layers[..i], s) == if s in table then Some(table[s]) else None
    {
      assert layers[..i + 1][..i] == layers[..i];
      var rule := layers[i].1;
      ghost var before := table;
      for j := 0 to |rule.segments|
        invariant forall s :: if s in rule.segments[..j] then s in table && table[s] == rule
                              else (s in table <==> s in before) && (s in table ==> table[s] == before[s])
      {
        table := table[rule.segments[j] := rule];
      }
    }
    assert layers[..|layers|] == layers;
  }

  /** `layers.get(key)`: a dictionary holds a key once. */
  function Named(layers: Rules, key: string): Option<LayerRule> {
    if layers == [] then None
    else if layers[0].0 == key then Some(layers[0].1) else Named(layers[1..], key)
  }

  /** The last position of a character that satisfies `split`, or -1: `str.rfind`. */
  function LastAt(part: string, split: char -> bool): (i: int)
    ensures -1 <= i < |part|
    ensures i >= 0 ==> split(part[i])
    ensures forall j :: i < j < |part| ==> !split(part[j])
  {
    if part == "" then -1
    else if split(part[|part| - 1]) then |part| - 1
    else LastAt(part[..|part| - 1], split)
  }

  function IsDot(): char -> bool {
    c => c == '.'
  }

  function IsDotOrDash(): char -> bool {
    c => c == '.' || c == '-'
  }

  /** Prefix and tail around the last delimiter, when neither is empty. */
  function SplitTail(part: string, split: char -> bool): Option<(string, string)> {
    var i := LastAt(part, split);
    if i <= 0 || i >= |part| - 1 then None else Some((part[..i], part[i + 1..]))
  }

  /** The nearest ancestor that is not a generic directory. */
  function ContextOf(lower: string -> string, parts: seq<string>, index: nat): string
    requires index <= |parts|
  {
    if index == 0 then "root"
    else if lower(parts[index - 1]) in GenericSegments() then ContextOf(lower, parts, index - 1)
    else parts[index - 1]
  }

  method AncestorContext(lower: string -> string, parts: seq<string>, index: nat) returns (context: string)
    requires index < |parts|
    ensures context == ContextOf(lower, parts, index)
    ensures
      || (context == "root" && forall k :: 0 <= k < index ==> lower(parts[k]) in GenericSegments())
      || exists j :: 0 <= j < index && context == parts[j] && lower(parts[j]) !in GenericSegments()
                     && forall k :: j < k < index ==> lower(parts[k]) in GenericSegments()
  {
    var j := index - 1;
    while j >= 0 && lower(parts[j]) in GenericSegments()
      invariant -1 <= j < index
      invariant forall k :: j < k < index ==> lower(parts[k]) in GenericSegments()
      invariant ContextOf(lower, parts, j + 1) == ContextOf(lower, parts, index)
    {
      j := j - 1;
    }
    context := if j >= 0 then parts[j] else "root";
  }

  // ---------------------------------------------------------------- classification

  /** What one segment on its own says: a whole word, a dot or dash tail, or the dot-only `.Api` tail. */
  function MatchAt(layers: Layers, parts: seq<string>, i: nat): Option<Class>
    requires i < |parts|
  {
    var whole := RuleFor(layers.rules, layers.lower(parts[i]));
    if whole.Some? then Some(Class(ContextOf(layers.lower, parts, i), whole.value.name, whole.value.rank))
    else
      var tail := SplitTail(parts[i], IsDotOrDash());
      var byTail := if tail.Some? then RuleFor(layers.rules, layers.lower(tail.value.1)) else None;
      if byTail.Some? then Some(Class(tail.value.0, byTail.value.name, byTail.value.rank))
      else
        var dot := SplitTail(parts[i], IsDot());
        if dot.Some? && layers.lower(dot.value.1) == DotOnlyWord() && Named(layers.rules, "presentation").Some? then
          var rule := Named(layers.rules, "presentation").value;
          Some(Class(dot.value.0, rule.name, rule.rank))
        else None
  }

  /** What each of the first `n` segments says. */
  function Matches(layers: Layers, parts: seq<string>, n: nat): (ms: seq<Option<Class>>)
    requires n <= |parts|
    ensures |ms| == n
  {
    if n == 0 then [] else Matches(layers, parts, n - 1) + [MatchAt(layers, parts, n - 1)]
  }

  lemma {:induction false} MatchesAre(layers: Layers, parts: seq<string>, n: nat, i: nat)
    requires i < n <= |parts|
    ensures Matches(layers, parts, n)[i] == MatchAt(layers, parts, i)
  {
    if i < n - 1 {
      MatchesAre(layers, parts, n - 1, i);
    }
  }

  function FirstSome(ms: seq<Option<Class>>, i: nat): Option<Class>
    decreases |ms| - i
  {
    if i >= |ms| then None else if ms[i].Some? then ms[i] else FirstSome(ms, i + 1)
  }

  lemma {:induction false} FirstSomeIs(ms: seq<Option<Class>>, i: nat)
    requires i <= |ms|
    ensures FirstSome(ms, i).None? <==> forall k :: i <= k < |ms| ==> ms[k].None?
    ensures FirstSome(ms, i).Some? ==>
      exists k :: i <= k < |ms| && ms[k] == FirstSome(ms, i) && forall j :: i <= j < k ==> ms[j].None?
    decreases |ms| - i
  {
    if i < |ms| && ms[i].None? {
      FirstSomeIs(ms, i + 1);
    }
  }

  /** The shallowest segment that says anything decides. */
  function Classify(layers: Layers, parts: seq<string>): Option<Class> {
    FirstSome(Matches(layers, parts, |parts|), 0)
  }

  /** No class exactly when no segment matches; otherwise the first match's. */
  lemma ShallowestDecides(layers: Layers, parts: seq<string>)
    ensures Classify(layers, parts).None? <==> forall i :: 0 <= i < |parts| ==> MatchAt(layers, parts, i).None?
    ensures Classify(layers, parts).Some? ==> FirstMatch(layers, parts, Classify(layers, parts))
    ensures layers.rules == [] ==> Classify(layers, parts).None?
  {
    var ms := Matches(layers, parts, |parts|);
    FirstSomeIs(ms, 0);
    forall i | 0 <= i < |parts|
      ensures MatchAt(layers, parts, i) == ms[i]
    {
      MatchesAre(layers, parts, |parts|, i);
    }
    if layers.rules == [] {
      NoneMatch(layers, parts, |parts|);
    }
  }

  /** The class is that of some segment, and every segment before it matches nothing. */
  ghost predicate FirstMatch(layers: Layers, parts: seq<string>, class_: Option<Class>) {
    exists i :: 0 <= i < |parts| && class_ == MatchAt(layers, parts, i) && forall j :: 0 <= j < i ==>
      MatchAt(layers, parts, j).None?
  }

  /** An explicitly empty table disables matching. */
  lemma {:induction false} NoneMatch(layers: Layers, parts: seq<string>, n: nat)
    requires n <= |parts| && layers.rules == []
    ensures forall i :: 0 <= i < n ==> Matches(layers, parts, n)[i].None?
  {
    if n > 0 {
      NoneMatch(layers, parts, n - 1);
      NoMatch(layers, parts, n - 1);
    }
  }

  lemma NoMatch(layers: Layers, parts: seq<string>, i: nat)
    requires i < |parts| && layers.rules == []
    ensures MatchAt(layers, parts, i) == None
  {
    assert forall s :: RuleFor([], s) == None;
  }

  method ClassifyFileLayer(layers: Layers, parts: seq<string>) returns (r: Option<Class>)
    ensures r == Classify(layers, parts)
  {
    if layers.rules == [] {
      ShallowestDecides(layers, parts);
      return None;
    }
    var table := SegmentTable(layers.rules);
    ghost var ms := Matches(layers, parts, |parts|);
    for i := 0 to |parts|
      invariant FirstSome(ms, i) == FirstSome(ms, 0)
    {
      r := MatchPart(layers, table, parts, i, ms);
      if r.Some? {
        return;
      }
    }
    r := None;
  }

  /** One segment against the table: the whole word, then its tail, then the dot-only tail. */
  method MatchPart(layers: Layers, table: map<string, LayerRule>, parts: seq<string>, i: nat,
                   ghost ms: seq<Option<Class>>) returns (r: Option<Class>)
    requires i < |parts| && ms == Matches(layers, parts, |parts|)
    requires forall s :: RuleFor(layers.rules, s) == if s in table then Some(table[s]) else None
    ensures r == ms[i]
  {
    MatchesAre(layers, parts, |parts|, i);
    var part := parts[i];
    var whole := layers.lower(part);
    if whole in table {
      var context := AncestorContext(layers.lower, parts, i);
      return Some(Class(context, table[whole].name, table[whole].rank));
    }
    var tail := SplitTail(part, IsDotOrDash());
    if tail.Some? && layers.lower(tail.value.1) in table {
      var rule := table[layers.lower(tail.value.1)];
      return Some(Class(tail.value.0, rule.name, rule.rank));
    }
    var dot := SplitTail(part, IsDot());
    if dot.Some? && layers.lower(dot.value.1) == DotOnlyWord() {
      var rule := Named(layers.rules, "presentation");
      if rule.Some? {
        return Some(Class(dot.value.0, rule.value.name, rule.value.rank));
      }
    }
    r := None;
  }
}
