/** Installing a marked block into git hook files, and taking it out again. */
module Hooks {
  import opened Wrappers
  import opened TextOps

  datatype Markers = Markers(start: string, end: string)

  function OurMarkers(): Markers {
    Markers("# >>> code-memory sync >>>", "# <<< code-memory sync <<<")
  }

  /** What a created hook file starts with, up to the newline before the block. */
  function Header(): string {
    HeaderLines() + "\n"
  }

  function HeaderLines(): string {
    "#!/usr/bin/env bash\nset -euo pipefail"
  }

  /** `str.index` found nothing. */
  datatype HookError = ValueError

  function Body(hook: string, trigger: string): string {
    (HookLine() + hook + CheckLine()) + ['{'] + (([' '] + trigger) + [';'] + Closing())
  }

  function HookLine(): string {
    "HOOK="
  }

  function CheckLine(): string {
    "\ncommand -v code-memory >/dev/null 2>&1 && "
  }

  function Closing(): string {
    " }"
  }

  function Block(mk: Markers, body: string): string {
    mk.start + "\n" + body + "\n" + mk.end
  }

  datatype Span = Span(start: nat, end: nat)

  /** From the first start marker to the first end marker behind it. */
  function FindBlock(mk: Markers, content: string): (r: Result<Span, HookError>)
    ensures r.Ok? ==> r.value.start <= r.value.end <= |content|
  {
    match IndexOf(mk.start, content, 0)
    case None => Err(ValueError)
    case Some(start) =>
      match IndexOf(mk.end, content, start)
      case None => Err(ValueError)
      case Some(end) => Ok(Span(start, end + |mk.end|))
  }

  function Spliced(content: string, at: Span, block: string): string
    requires at.start <= at.end <= |content|
  {
    content[..at.start] + block + content[at.end..]
  }

  function Closed(content: string, at: Span): string
    requires at.start <= at.end <= |content|
  {
    Strip(Rstrip(content[..at.start]) + "\n" + Lstrip(content[at.end..])) + "\n"
  }

  function ReplaceBlock(mk: Markers, content: string, block: string): Result<string, HookError> {
    match FindBlock(mk, content)
    case Err(e) => Err(e)
    case Ok(at) => Ok(Spliced(content, at, block))
  }

  function StripBlock(mk: Markers, content: string): Result<string, HookError> {
    match FindBlock(mk, content)
    case Err(e) => Err(e)
    case Ok(at) => Ok(Closed(content, at))
  }

  /** A file into which a block was put: something that ends in a newline, the block,
      and one more newline. */
  function Around(mk: Markers, before: string, body: string): string {
    before + "\n" + (Block(mk, body) + "\n")
  }

  /** The new text of one hook file, which may not exist. */
  function InstallFile(mk: Markers, file: Option<string>, body: string): Result<string, HookError> {
    match file
    case None => Ok(Around(mk, Header(), body))
    case Some(current) =>
      if Contains(mk.start, current) && Contains(mk.end, current) then ReplaceBlock(mk, current, Block(mk, body))
      else Ok(Appended(mk, current, body))
  }

  function Appended(mk: Markers, current: string, body: string): string {
    Around(mk, Rstrip(current) + "\n", body)
  }

  datatype Uninstalled = Untouched | Removed | Rewritten(text: string)

  /** Nothing but what an install may have created. */
  predicate Trivial(stripped: string) {
    stripped == "" || stripped == "#!/usr/bin/env bash" || stripped == HeaderLines()
  }

  function UninstallFile(mk: Markers, content: string): Result<Uninstalled, HookError> {
    if !Contains(mk.start, content) then Ok(Untouched)
    else
      match StripBlock(mk, content)
      case Err(e) => Err(e)
      case Ok(text) => Ok(if Trivial(Strip(text)) then Removed else Rewritten(text))
  }

  // ---------------------------------------------------------------- the markers

  /** What the edits rely on. */
  predicate Sound(mk: Markers) {
    && mk.start != "" && mk.end != "" && '\n' !in mk.start && '\n' !in mk.end
    && !Contains(mk.end, mk.start) && !IsSpace(mk.start[|mk.start| - 1])
  }

  lemma MarkersAreLines()
    ensures '\n' !in OurMarkers().start && '\n' !in OurMarkers().end
    ensures |OurMarkers().start| == 26 && |OurMarkers().end| == 26
  {
  }

  lemma MarkersDiffer()
    ensures OurMarkers().start != OurMarkers().end
    ensures !IsSpace(OurMarkers().start[|OurMarkers().start| - 1])
  {
    assert OurMarkers().start[2] == '>' && OurMarkers().end[2] == '<';
  }

  lemma OfOneLength(start: string, end: string)
    requires |start| == |end| && start != end && end != ""
    ensures !Contains(end, start)
  {
    SameLength(end, start);
  }

  lemma MarkersAreSound()
    ensures Sound(OurMarkers())
  {
    MarkersAreLines();
    MarkersDiffer();
    OfOneLength(OurMarkers().start, OurMarkers().end);
  }

  // ---------------------------------------------------------------- where the block is found

  /** The first start marker is the block's: it cannot straddle the newline before it. */
  lemma StartFound(mk: Markers, before: string, body: string)
    requires Sound(mk) && !Contains(mk.start, before)
    ensures FoundAt(IndexOf(mk.start, Around(mk, before, body), 0), |before| + 1)
  {
    var rest := "\n" + body + "\n" + mk.end + "\n";
    assert Block(mk, body) + "\n" == mk.start + rest;
    AtFront(mk.start, rest);
    IndexSeparated(mk.start, before, '\n', mk.start + rest);
  }

  /** The end marker that is found belongs to the block, or lies in its body. */
  lemma EndFound(mk: Markers, before: string, body: string)
    requires Sound(mk)
    ensures FoundAt(IndexOf(mk.end, Around(mk, before, body), |before| + 1), |before| + 1 + EndOffset(mk, body))
  {
    InnerFound(mk, body);
    AroundIs(mk, before, body);
    ShiftFound(mk.end, before + "\n", Inner(mk, body), Around(mk, before, body), |before| + 1, EndOffset(mk, body));
  }

  /** Where, counted from the block's start, the first end marker is found. */
  function EndOffset(mk: Markers, body: string): nat {
    |mk.start| + 1 + if Contains(mk.end, body) then IndexOf(mk.end, body, 0).value else |body| + 1
  }

  function Inner(mk: Markers, body: string): string {
    mk.start + ['\n'] + (body + ['\n'] + (mk.end + "\n"))
  }

  lemma InnerFound(mk: Markers, body: string)
    requires Sound(mk)
    ensures FoundAt(IndexOf(mk.end, Inner(mk, body), 0), EndOffset(mk, body))
  {
    IndexInParts(mk.end, mk.start, body, "\n");
  }

  lemma ShiftFound(sub: string, a: string, b: string, text: string, n: nat, k: nat)
    requires sub != "" && text == a + b && |a| == n && FoundAt(IndexOf(sub, b, 0), k)
    ensures FoundAt(IndexOf(sub, text, n), n + k)
  {
    IndexShift(sub, a, b, 0);
  }

  lemma AroundIs(mk: Markers, before: string, body: string)
    ensures Around(mk, before, body) == (before + "\n") + Inner(mk, body)
  {
  }

  // ---------------------------------------------------------------- undoing

  /** Where the block lies. */
  function BlockAt(mk: Markers, before: string, body: string): Span {
    Span(|before| + 1, |before| + 1 + |Block(mk, body)|)
  }

  lemma BlockFound(mk: Markers, before: string, body: string)
    requires Sound(mk) && !Contains(mk.start, before) && !Contains(mk.end, body)
    ensures FindBlock(mk, Around(mk, before, body)) == Ok(BlockAt(mk, before, body))
  {
    StartFound(mk, before, body);
    EndFound(mk, before, body);
    assert EndOffset(mk, body) + |mk.end| == |Block(mk, body)|;
  }

  /** Before, block and after of a text with one block. */
  lemma CutAround(mk: Markers, before: string, body: string)
    ensures
      var text, at := Around(mk, before, body), BlockAt(mk, before, body);
      at.end <= |text| && text[..at.start] == before + "\n" && text[at.end..] == "\n"
  {
    var text := Around(mk, before, body);
    assert text == (before + "\n") + Block(mk, body) + "\n";
  }

  lemma SplicedAround(mk: Markers, before: string, body: string, other: string)
    requires BlockAt(mk, before, body).end <= |Around(mk, before, body)|
    ensures Spliced(Around(mk, before, body), BlockAt(mk, before, body), Block(mk, other)) == Around(mk, before, other)
  {
    CutAround(mk, before, body);
    assert Around(mk, before, other) == (before + "\n") + Block(mk, other) + "\n";
  }

  /** Found and cut: replacing exchanges the block and nothing else. */
  lemma ReplacedAround(mk: Markers, before: string, body: string, other: string)
    requires Sound(mk) && !Contains(mk.start, before) && !Contains(mk.end, body)
    ensures ReplaceBlock(mk, Around(mk, before, body), Block(mk, other)) == Ok(Around(mk, before, other))
  {
    BlockFound(mk, before, body);
    SplicedAround(mk, before, body, other);
  }

  lemma ClosedAround(mk: Markers, before: string, body: string)
    requires BlockAt(mk, before, body).end <= |Around(mk, before, body)|
    ensures Closed(Around(mk, before, body), BlockAt(mk, before, body)) == Strip(before) + "\n"
  {
    CutAround(mk, before, body);
    TrimmedEnds(before);
  }

  lemma StrippedAround(mk: Markers, before: string, body: string)
    requires Sound(mk) && !Contains(mk.start, before) && !Contains(mk.end, body)
    ensures StripBlock(mk, Around(mk, before, body)) == Ok(Strip(before) + "\n")
  {
    BlockFound(mk, before, body);
    ClosedAround(mk, before, body);
  }

  lemma TrimmedEnds(before: string)
    ensures Strip(Rstrip(before + "\n") + "\n" + Lstrip("\n")) == Strip(before)
  {
    NewlineIsBlank();
    RstripBlank(before, "\n");
    LstripBlank("\n");
    assert Rstrip(before) + "\n" + "" == Rstrip(before) + "\n";
    StripBlank(Rstrip(before), "\n");
    StripOfRstrip(before);
  }

  lemma NewlineIsBlank()
    ensures Blank("\n") && Blank("\n\n")
  {
  }

  lemma MarkersInside(mk: Markers, before: string, body: string)
    requires Sound(mk)
    ensures Contains(mk.start, Around(mk, before, body)) && Contains(mk.end, Around(mk, before, body))
  {
    var text := Around(mk, before, body);
    var rest := "\n" + body + "\n" + mk.end + "\n";
    assert Block(mk, body) + "\n" == mk.start + rest;
    AtFront(mk.start, rest);
    ContainsSeparated(mk.start, before, '\n', mk.start + rest);
    EndFound(mk, before, body);
    ContainsFrom(mk.end, text, |before| + 1);
  }

  lemma ContainsFrom(sub: string, s: string, from: nat)
    requires sub != "" && IndexOf(sub, s, from).Some?
    ensures Contains(sub, s)
  {
    ContainsIff(sub, s);
    assert At(sub, s, IndexOf(sub, s, from).value);
  }

  // ---------------------------------------------------------------- one file

  /** No marker, or only half a block: the installer appends. */
  predicate Appends(mk: Markers, current: string) {
    !(Contains(mk.start, current) && Contains(mk.end, current))
  }

  lemma BeforeHas(mk: Markers, current: string)
    requires Sound(mk)
    ensures Contains(mk.start, Rstrip(current) + "\n") <==> Contains(mk.start, current)
    ensures Contains(mk.end, Rstrip(current) + "\n") ==> Contains(mk.end, current)
  {
    ContainsSeparated(mk.start, Rstrip(current), '\n', "");
    ContainsSeparated(mk.end, Rstrip(current), '\n', "");
    assert Rstrip(current) + ['\n'] + "" == Rstrip(current) + "\n";
    OccursInTrimmed(mk.start, current);
    if Contains(mk.end, Rstrip(current)) {
      RstripLoses(current);
      var blank :| Blank(blank) && current == Rstrip(current) + blank;
      ContainsIff(mk.end, current);
      OccursBefore(mk.end, Rstrip(current), blank, IndexOf(mk.end, Rstrip(current), 0).value);
    }
  }

  lemma Reinstall(mk: Markers, before: string, body: string, other: string)
    requires Sound(mk)
    ensures InstallFile(mk, Some(Around(mk, before, body)), other) ==
      ReplaceBlock(mk, Around(mk, before, body), Block(mk, other))
  {
    MarkersInside(mk, before, body);
  }

  /** Reinstalling with another trigger changes the block and nothing around it. */
  lemma ReinstallChangesOnlyTheBlock(mk: Markers, current: string, body: string, other: string)
    requires Sound(mk) && !Contains(mk.start, current) && !Contains(mk.end, body)
    ensures InstallFile(mk, Some(current), body) == Ok(Around(mk, Rstrip(current) + "\n", body))
    ensures InstallFile(mk, Some(Around(mk, Rstrip(current) + "\n", body)), other) ==
      Ok(Around(mk, Rstrip(current) + "\n", other))
  {
    BeforeHas(mk, current);
    Reinstall(mk, Rstrip(current) + "\n", body, other);
    ReplacedAround(mk, Rstrip(current) + "\n", body, other);
  }

  /** An end marker inside the trigger is taken for the block's end. */
  lemma TriggerWithEndIff(mk: Markers, current: string, body: string)
    requires Sound(mk) && !Contains(mk.start, current)
    ensures InstallFile(mk, Some(Appended(mk, current, body)), body) == Ok(Appended(mk, current, body)) <==>
      !Contains(mk.end, body)
  {
    var before := Rstrip(current) + "\n";
    var text := Around(mk, before, body);
    BeforeHas(mk, current);
    Reinstall(mk, before, body, body);
    if Contains(mk.end, body) {
      StartFound(mk, before, body);
      EndFound(mk, before, body);
      SplicedLength(mk, text, Block(mk, body));
      assert |Block(mk, body)| == |mk.start| + 1 + |body| + 1 + |mk.end|;
    } else {
      ReplacedAround(mk, before, body, body);
    }
  }

  lemma SplicedLength(mk: Markers, text: string, block: string)
    requires FindBlock(mk, text).Ok?
    ensures ReplaceBlock(mk, text, block).Ok?
    ensures
      var at := FindBlock(mk, text).value;
      |ReplaceBlock(mk, text, block).value| == |text| - (at.end - at.start) + |block|
  {
  }

  /** With half a block in the file, the block is found from the old start marker. */
  lemma HalfBlockFound(mk: Markers, before: string, body: string)
    requires Sound(mk) && Contains(mk.start, before) && !Contains(mk.end, before) && !Contains(mk.end, body)
    ensures FindBlock(mk, Around(mk, before, body)).Ok?
    ensures
      var at := FindBlock(mk, Around(mk, before, body)).value;
      at.start <= |before| && at.end == BlockAt(mk, before, body).end
  {
    var text := Around(mk, before, body);
    IndexSeparated(mk.start, before, '\n', Block(mk, body) + "\n");
    assert text == before + ['\n'] + (Block(mk, body) + "\n");
    var s := IndexOf(mk.start, before, 0).value;
    EndFound(mk, before, body);
    NoneBefore(mk.end, before, '\n', Block(mk, body) + "\n", s);
    assert EndOffset(mk, body) + |mk.end| == |Block(mk, body)|;
  }

  /** Searching from inside a part without the text finds what is found behind it. */
  lemma NoneBefore(sub: string, a: string, c: char, b: string, from: nat)
    requires sub != "" && c !in sub && !Contains(sub, a) && from <= |a|
    requires IndexOf(sub, a + [c] + b, |a| + 1).Some?
    ensures IndexOf(sub, a + [c] + b, from) == IndexOf(sub, a + [c] + b, |a| + 1)
  {
    var s := a + [c] + b;
    IndexOfIs(sub, a, 0);
    IndexOfIs(sub, s, |a| + 1);
    forall j: nat | from <= j < |a| + 1
      ensures !At(sub, s, j)
    {
      Separated(sub, a, c, b, j);
    }
    FirstAt(sub, s, from, IndexOf(sub, s, |a| + 1).value);
  }

  lemma SamePrefix(sub: string, a: string, b: string, n: nat, j: nat)
    requires n <= |a| && n <= |b| && a[..n] == b[..n] && j + |sub| <= n
    ensures At(sub, a, j) <==> At(sub, b, j)
  {
    assert forall k :: 0 <= k < n ==> a[k] == a[..n][k] && b[k] == b[..n][k];
  }

  /** A first occurrence stays the first in every text that begins in the same way. */
  lemma FirstInPrefix(sub: string, a: string, b: string, n: nat)
    requires sub != "" && FoundAt(IndexOf(sub, a, 0), n)
    requires n + |sub| <= |a| && n + |sub| <= |b| && a[..n + |sub|] == b[..n + |sub|]
    ensures FoundAt(IndexOf(sub, b, 0), n)
  {
    IndexOfIs(sub, a, 0);
    forall j: nat | j <= n
      ensures At(sub, b, j) <==> At(sub, a, j)
    {
      SamePrefix(sub, a, b, n + |sub|, j);
    }
    FirstAt(sub, b, 0, n);
  }

  lemma PrefixThrough(sub: string, a: string, n: nat)
    requires At(sub, a, n)
    ensures a[..n + |sub|] == a[..n] + sub
  {
  }

  lemma FirstStays(sub: string, a: string, n: nat, tail: string)
    requires sub != "" && FoundAt(IndexOf(sub, a, 0), n)
    ensures FoundAt(IndexOf(sub, a[..n] + (sub + tail), 0), n)
  {
    PrefixThrough(sub, a, n);
    assert (a[..n] + (sub + tail))[..n + |sub|] == a[..n] + sub;
    FirstInPrefix(sub, a, a[..n] + (sub + tail), n);
  }

  lemma EndStays(mk: Markers, front: string, body: string, tail: string)
    requires Sound(mk) && !Contains(mk.end, body)
    ensures FoundAt(IndexOf(mk.end, front + Block(mk, body) + tail, |front|), |front| + |Block(mk, body)| - |mk.end|)
  {
    var behind := mk.start + ['\n'] + (body + ['\n'] + (mk.end + tail));
    IndexInParts(mk.end, mk.start, body, tail);
    assert front + Block(mk, body) + tail == front + behind;
    ShiftFound(mk.end, front, behind, front + Block(mk, body) + tail, |front|, |mk.start| + 1 + |body| + 1);
  }

  lemma FoundBoth(mk: Markers, text: string, start: nat, end: nat)
    requires FoundAt(IndexOf(mk.start, text, 0), start) && FoundAt(IndexOf(mk.end, text, start), end)
    ensures FindBlock(mk, text).Ok? && FindBlock(mk, text).value == Span(start, end + |mk.end|)
  {
  }

  lemma SplicedIs(mk: Markers, current: string, at: Span, body: string)
    requires at.start <= at.end <= |current|
    ensures
      var front, tail, text := current[..at.start], current[at.end..], Spliced(current, at, Block(mk, body));
      text == front + Block(mk, body) + tail && text == front + (mk.start + ("\n" + body + "\n" + mk.end + tail))
  {
  }

  /** A file with a block: installing again finds the block just written. */
  lemma ReplacedIsFound(mk: Markers, current: string, at: Span, body: string)
    requires Sound(mk) && FindBlock(mk, current) == Ok(at) && !Contains(mk.end, body)
    ensures
      var again := FindBlock(mk, Spliced(current, at, Block(mk, body)));
      again.Ok? && again.value == Span(at.start, at.start + |Block(mk, body)|)
  {
    var tail := current[at.end..];
    SplicedIs(mk, current, at, body);
    FirstStays(mk.start, current, at.start, "\n" + body + "\n" + mk.end + tail);
    EndStays(mk, current[..at.start], body, tail);
    FoundBoth(mk, Spliced(current, at, Block(mk, body)), at.start, at.start + |Block(mk, body)| - |mk.end|);
  }

  lemma SplicedTwice(current: string, at: Span, block: string)
    requires at.start <= at.end <= |current|
    ensures
      var text := Spliced(current, at, block);
      at.start + |block| <= |text| && Spliced(text, Span(at.start, at.start + |block|), block) == text
  {
    var text := Spliced(current, at, block);
    assert text[..at.start] == current[..at.start];
    assert text[at.start + |block|..] == current[at.end..];
  }

  lemma FoundHasBoth(mk: Markers, text: string)
    requires Sound(mk) && FindBlock(mk, text).Ok?
    ensures Contains(mk.start, text) && Contains(mk.end, text)
  {
    ContainsFrom(mk.end, text, IndexOf(mk.start, text, 0).value);
  }

  lemma ReplacedTwice(mk: Markers, current: string, body: string)
    requires Sound(mk) && FindBlock(mk, current).Ok? && !Contains(mk.end, body)
    ensures
      var text := Spliced(current, FindBlock(mk, current).value, Block(mk, body));
      InstallFile(mk, Some(current), body) == Ok(text) && InstallFile(mk, Some(text), body) == Ok(text)
  {
    var at := FindBlock(mk, current).value;
    var text := Spliced(current, at, Block(mk, body));
    FoundHasBoth(mk, current);
    ReplacedIsFound(mk, current, at, body);
    FoundHasBoth(mk, text);
    SplicedTwice(current, at, Block(mk, body));
  }

  /** Installing raises exactly for files with both markers in which every end marker
      stands before the first start marker; so does uninstalling, and without any end. */
  lemma FailsIff(mk: Markers, current: string, body: string)
    requires Sound(mk)
    ensures InstallFile(mk, Some(current), body).Err? <==>
      !Appends(mk, current) && forall j: nat :: At(mk.end, current, j) ==> j < IndexOf(mk.start, current, 0).value
    ensures UninstallFile(mk, current).Err? <==>
      Contains(mk.start, current) && forall j: nat :: At(mk.end, current, j) ==> j < IndexOf(mk.start, current, 0).value
  {
    if Contains(mk.start, current) {
      IndexOfIs(mk.end, current, IndexOf(mk.start, current, 0).value);
    }
  }

  /** For every file that installing does not fail for: installing twice is installing
      once exactly unless it had a start marker and no end marker, for then the second
      time swallows everything from there up to the new block. */
  lemma InstallTwiceIff(mk: Markers, current: string, body: string)
    requires Sound(mk) && !Contains(mk.end, body)
    ensures Appends(mk, current) ==> InstallFile(mk, Some(current), body) == Ok(Appended(mk, current, body))
    ensures
      var first := InstallFile(mk, Some(current), body);
      first.Ok? ==>
        (InstallFile(mk, Some(first.value), body) == first <==>
         !(Contains(mk.start, current) && !Contains(mk.end, current)))
  {
    if !Appends(mk, current) {
      if FindBlock(mk, current).Ok? {
        ReplacedTwice(mk, current, body);
      }
    } else if Contains(mk.start, current) {
      HalfBlockSwallows(mk, current, body);
    } else {
      TriggerWithEndIff(mk, current, body);
    }
  }

  lemma HalfBlockSwallows(mk: Markers, current: string, body: string)
    requires Sound(mk) && Contains(mk.start, current) && !Contains(mk.end, current) && !Contains(mk.end, body)
    ensures InstallFile(mk, Some(Appended(mk, current, body)), body) != Ok(Appended(mk, current, body))
  {
    var before := Rstrip(current) + "\n";
    BeforeHas(mk, current);
    Reinstall(mk, before, body, body);
    HalfBlockFound(mk, before, body);
    SplicedLength(mk, Around(mk, before, body), Block(mk, body));
  }

  /** Nothing, the first line of a script, or that and the option line. */
  lemma TrivialIs(s: string)
    ensures Trivial(s) <==> s in {"", "#!/usr/bin/env bash", "#!/usr/bin/env bash" + "\n" + "set -euo pipefail"}
  {
    assert "#!/usr/bin/env bash" + "\n" + "set -euo pipefail" == HeaderLines();
  }

  lemma UninstallAppended(mk: Markers, current: string, body: string)
    requires Sound(mk) && !Contains(mk.start, current) && !Contains(mk.end, body)
    ensures UninstallFile(mk, Appended(mk, current, body)) ==
      Ok(if Trivial(Strip(current)) then Removed else Rewritten(Strip(current) + "\n"))
  {
    BeforeHas(mk, current);
    UninstallAround(mk, Rstrip(current) + "\n", body);
    NewlineIsBlank();
    StripBlank(Rstrip(current), "\n");
    StripOfRstrip(current);
  }

  /** Uninstalling after installing gives back the text without blanks around it and
      with one newline, or removes a file that held nothing but what an install creates. */
  lemma UninstallUndoesInstall(mk: Markers, current: string, body: string)
    requires Sound(mk) && !Contains(mk.start, current) && !Contains(mk.end, body)
    ensures UninstallFile(mk, Appended(mk, current, body)) ==
      Ok(if Strip(current) in {"", "#!/usr/bin/env bash", "#!/usr/bin/env bash" + "\n" + "set -euo pipefail"}
         then Removed else Rewritten(Strip(current) + "\n"))
  {
    TrivialIs(Strip(current));
    UninstallAppended(mk, current, body);
  }

  lemma UninstallAround(mk: Markers, before: string, body: string)
    requires Sound(mk) && !Contains(mk.start, before) && !Contains(mk.end, body)
    ensures UninstallFile(mk, Around(mk, before, body)) ==
      Ok(if Trivial(Strip(before)) then Removed else Rewritten(Strip(before) + "\n"))
  {
    MarkersInside(mk, before, body);
    StrippedAround(mk, before, body);
    NewlineIsBlank();
    StripBlank(Strip(before), "\n");
    StripTwice(before);
  }

  lemma FirstTwo(sub: string, s: string, i: nat)
    requires At(sub, s, i) && |sub| >= 2
    ensures i + 1 < |s| && sub[0] == s[i] && sub[1] == s[i + 1]
  {
    AtChar(sub, s, i, 0);
    AtChar(sub, s, i, 1);
  }

  lemma SecondCharDiffers(sub: string, s: string)
    requires |sub| >= 2 && |s| >= 2 && sub[1] != s[1]
    requires forall i :: 1 <= i < |s| ==> s[i] != sub[0]
    ensures !Contains(sub, s)
  {
    ContainsIff(sub, s);
    if i: nat :| At(sub, s, i) {
      FirstTwo(sub, s, i);
    }
  }

  lemma HeaderChars()
    ensures |HeaderLines()| == 37 && HeaderLines()[1] == '!' && HeaderLines()[0] == '#' && HeaderLines()[36] == 'l'
    ensures forall i :: 1 <= i < |HeaderLines()| ==> HeaderLines()[i] != '#'
  {
  }

  lemma MarkerChars()
    ensures |OurMarkers().start| == 26 && OurMarkers().start[0] == '#' && OurMarkers().start[1] == ' '
  {
  }

  lemma VisibleEnds(s: string)
    requires s != "" && !IsSpace(s[0]) && !IsSpace(s[|s| - 1])
    ensures Strip(s + "\n") == s
  {
    NewlineIsBlank();
    StripBlank(s, "\n");
  }

  lemma HeaderIsPlain()
    ensures !Contains(OurMarkers().start, HeaderLines()) && !Contains(OurMarkers().start, Header())
    ensures Strip(Header()) == HeaderLines()
  {
    HeaderChars();
    MarkerChars();
    SecondCharDiffers(OurMarkers().start, HeaderLines());
    SecondCharDiffers(OurMarkers().start, HeaderLines() + "\n");
    VisibleEnds(HeaderLines());
  }

  /** A hook file that the installer created is removed again. */
  lemma CreatedFileIsRemoved(body: string)
    requires !Contains(OurMarkers().end, body)
    ensures InstallFile(OurMarkers(), None, body) == Ok(Around(OurMarkers(), Header(), body))
    ensures UninstallFile(OurMarkers(), Around(OurMarkers(), Header(), body)) == Ok(Removed)
  {
    MarkersAreSound();
    HeaderIsPlain();
    UninstallAround(OurMarkers(), Header(), body);
  }

  /** The original file comes back unchanged exactly when it was already trimmed and
      is more than a bare header. */
  lemma RestoredIff(mk: Markers, current: string, body: string)
    requires Sound(mk) && !Contains(mk.start, current) && !Contains(mk.end, body)
    ensures UninstallFile(mk, Appended(mk, current, body)) == Ok(Rewritten(current))
      <==> current == Strip(current) + "\n" && !Trivial(Strip(current))
  {
    UninstallAppended(mk, current, body);
  }

  // ---------------------------------------------------------------- the trigger

  /** In a real block the only way to an end marker is a trigger that holds one. */
  lemma BodyHasEndIff(hook: string, trigger: string)
    requires '#' !in hook
    ensures Contains(OurMarkers().end, Body(hook, trigger)) <==> Contains(OurMarkers().end, trigger)
  {
    EndChars();
    BodyChars();
    BodySearched(OurMarkers().end, HookLine(), hook, CheckLine(), trigger, Closing());
  }

  lemma EndChars()
    ensures OurMarkers().end != "" && OurMarkers().end[0] == '#'
    ensures '{' !in OurMarkers().end && ';' !in OurMarkers().end
  {
  }

  lemma BodyChars()
    ensures '#' !in HookLine() && '#' !in CheckLine() && '#' !in Closing()
  {
  }

  lemma BodySearched(end: string, hookLine: string, hook: string, check: string, trigger: string, closing: string)
    requires end != "" && end[0] == '#' && '{' !in end && ';' !in end
    requires '#' !in hookLine && '#' !in hook && '#' !in check && '#' !in closing
    ensures Contains(end, (hookLine + hook + check) + ['{'] + (([' '] + trigger) + [';'] + closing)) <==>
      Contains(end, trigger)
  {
    WithoutFirstChar(end, hookLine + hook + check);
    WithoutFirstChar(end, closing);
    ContainsSeparated(end, hookLine + hook + check, '{', ([' '] + trigger) + [';'] + closing);
    ContainsSeparated(end, [' '] + trigger, ';', closing);
    LeadingChar(end, ' ', trigger);
  }

  lemma LeadingChar(sub: string, c: char, s: string)
    requires sub != "" && c != sub[0]
    ensures Contains(sub, [c] + s) <==> Contains(sub, s)
  {
    ContainsIff(sub, s);
    ContainsIff(sub, [c] + s);
    if i: nat :| At(sub, [c] + s, i) {
      AtChar(sub, [c] + s, i, 0);
      AtShift(sub, [c], s, i - 1);
    }
    if i: nat :| At(sub, s, i) {
      AtShift(sub, [c], s, i);
      assert At(sub, [c] + s, 1 + i);
    }
  }

  /** The command that is installed when none is given. */
  function DefaultTrigger(): string {
    (MakeDir() + LogPath() + MakeDirEnd()) + (RunSync() + LogPath() + Background())
  }

  function LogPath(): string {
    "$HOME/.cache/codememory/hook.log"
  }

  function MakeDir(): string {
    "mkdir -p \"$(dirname "
  }

  function MakeDirEnd(): string {
    ")\" && "
  }

  function RunSync(): string {
    "( code-memory sync . --trigger \"$HOOK\" >> "
  }

  function Background(): string {
    " 2>&1 & ) ; disown 2>/dev/null || true"
  }

  lemma DefaultTriggerIsSafe(hook: string)
    requires '#' !in hook
    ensures !Contains(OurMarkers().end, Body(hook, DefaultTrigger()))
  {
    EndChars();
    DirChars();
    SyncChars();
    WithoutHash(OurMarkers().end, MakeDir(), LogPath(), MakeDirEnd(), RunSync(), Background());
    BodyHasEndIff(hook, DefaultTrigger());
  }

  lemma WithoutHash(end: string, a: string, b: string, c: string, d: string, e: string)
    requires end != "" && end[0] == '#' && '#' !in a && '#' !in b && '#' !in c && '#' !in d && '#' !in e
    ensures !Contains(end, (a + b + c) + (d + b + e))
  {
    WithoutFirstChar(end, (a + b + c) + (d + b + e));
  }

  lemma DirChars()
    ensures '#' !in MakeDir() && '#' !in LogPath() && '#' !in MakeDirEnd()
  {
  }

  lemma SyncChars()
    ensures '#' !in RunSync() && '#' !in Background()
  {
  }

  // ---------------------------------------------------------------- the directory

  /** Hook files by name, and the report. */
  datatype Progress = Progress(files: map<string, string>, installed: seq<string>, skipped: seq<string>, failed: bool)

  function FileOf(files: map<string, string>, hook: string): Option<string> {
    if hook in files then Some(files[hook]) else None
  }

  /** One turn of the installer's loop; after an exception nothing more happens. */
  function InstallStep(mk: Markers, p: Progress, hook: string, trigger: string): Progress {
    var file := FileOf(p.files, hook);
    if p.failed then p
    else
      match InstallFile(mk, file, Body(hook, trigger))
      case Err(_) => p.(failed := true)
      case Ok(text) =>
        if file == Some(text) && !Appends(mk, text) then p.(skipped := p.skipped + [hook])
        else p.(files := p.files[hook := text], installed := p.installed + [hook])
  }

  function InstallAll(mk: Markers, p: Progress, hooks: seq<string>, trigger: string): Progress {
    if hooks == [] then p
    else InstallStep(mk, InstallAll(mk, p, hooks[..|hooks| - 1], trigger), hooks[|hooks| - 1], trigger)
  }

  function Started(files: map<string, string>): Progress {
    Progress(files, [], [], false)
  }

  /** The file of every hook that can be installed over safely. */
  ghost predicate Clean(mk: Markers, files: map<string, string>, hooks: seq<string>, trigger: string) {
    && (forall i :: 0 <= i < |hooks| && hooks[i] in files ==> !Contains(mk.start, files[hooks[i]]))
    && (forall i :: 0 <= i < |hooks| ==> !Contains(mk.end, Body(hooks[i], trigger)))
    && (forall i, j :: 0 <= i < j < |hooks| ==> hooks[i] != hooks[j])
    && !Contains(mk.start, Header())
  }

  /** What an install leaves of a clean file. */
  function Fresh(mk: Markers, file: Option<string>, hook: string, trigger: string): string {
    match file
    case None => Around(mk, Header(), Body(hook, trigger))
    case Some(current) => Appended(mk, current, Body(hook, trigger))
  }

  lemma FreshIs(mk: Markers, file: Option<string>, hook: string, trigger: string)
    requires Sound(mk) && !Contains(mk.start, Header()) && !Contains(mk.end, Body(hook, trigger))
    requires file.Some? ==> !Contains(mk.start, file.value)
    ensures InstallFile(mk, file, Body(hook, trigger)) == Ok(Fresh(mk, file, hook, trigger))
    ensures InstallFile(mk, Some(Fresh(mk, file, hook, trigger)), Body(hook, trigger)) ==
      Ok(Fresh(mk, file, hook, trigger))
    ensures !Appends(mk, Fresh(mk, file, hook, trigger))
  {
    var before := if file.None? then Header() else Rstrip(file.value) + "\n";
    if file.Some? {
      BeforeHas(mk, file.value);
    }
    MarkersInside(mk, before, Body(hook, trigger));
    Reinstall(mk, before, Body(hook, trigger), Body(hook, trigger));
    ReplacedAround(mk, before, Body(hook, trigger), Body(hook, trigger));
  }

  lemma FirstStep(mk: Markers, p: Progress, hook: string, trigger: string)
    requires Sound(mk) && !Contains(mk.start, Header()) && !Contains(mk.end, Body(hook, trigger)) && !p.failed
    requires hook in p.files ==> !Contains(mk.start, p.files[hook])
    ensures InstallStep(mk, p, hook, trigger) ==
      p.(files := p.files[hook := Fresh(mk, FileOf(p.files, hook), hook, trigger)], installed := p.installed + [hook])
  {
    FreshIs(mk, FileOf(p.files, hook), hook, trigger);
  }

  lemma SecondStep(mk: Markers, p: Progress, file: Option<string>, hook: string, trigger: string)
    requires Sound(mk) && !Contains(mk.start, Header()) && !Contains(mk.end, Body(hook, trigger)) && !p.failed
    requires file.Some? ==> !Contains(mk.start, file.value)
    requires FileOf(p.files, hook) == Some(Fresh(mk, file, hook, trigger))
    ensures InstallStep(mk, p, hook, trigger) == p.(skipped := p.skipped + [hook])
  {
    FreshIs(mk, file, hook, trigger);
  }

  lemma CleanInit(mk: Markers, files: map<string, string>, hooks: seq<string>, trigger: string)
    requires hooks != [] && Clean(mk, files, hooks, trigger)
    ensures
      var init, last := hooks[..|hooks| - 1], hooks[|hooks| - 1];
      && hooks == init + [last] && last !in init && last in hooks && Clean(mk, files, init, trigger)
      && (last in files ==> !Contains(mk.start, files[last])) && !Contains(mk.end, Body(last, trigger))
  {
    var init := hooks[..|hooks| - 1];
    assert forall i :: 0 <= i < |init| ==> init[i] == hooks[i];
  }

  /** What a run over some hooks leaves of a clean directory. */
  ghost predicate Refreshed(mk: Markers, files: map<string, string>, after: map<string, string>, hooks: seq<string>,
                            trigger: string) {
    && (forall h :: h in hooks ==> FileOf(after, h) == Some(Fresh(mk, FileOf(files, h), h, trigger)))
    && (forall h :: h !in hooks ==> FileOf(after, h) == FileOf(files, h))
  }

  lemma RefreshedNext(mk: Markers, files: map<string, string>, after: map<string, string>, init: seq<string>,
                      last: string, trigger: string, text: string)
    requires Refreshed(mk, files, after, init, trigger) && last !in init
    requires text == Fresh(mk, FileOf(files, last), last, trigger)
    ensures Refreshed(mk, files, after[last := text], init + [last], trigger)
  {
    assert forall h :: h in init + [last] <==> h in init || h == last;
  }

  /** The first run writes every hook and leaves all other files alone. */
  lemma {:induction false} FirstRun(mk: Markers, files: map<string, string>, hooks: seq<string>, trigger: string)
    requires Sound(mk) && Clean(mk, files, hooks, trigger)
    ensures
      var p := InstallAll(mk, Started(files), hooks, trigger);
      !p.failed && p.installed == hooks && p.skipped == [] && Refreshed(mk, files, p.files, hooks, trigger)
  {
    if hooks != [] {
      var init, last := hooks[..|hooks| - 1], hooks[|hooks| - 1];
      CleanInit(mk, files, hooks, trigger);
      FirstRun(mk, files, init, trigger);
      var p := InstallAll(mk, Started(files), init, trigger);
      assert FileOf(p.files, last) == FileOf(files, last);
      FirstStep(mk, p, last, trigger);
      RefreshedNext(mk, files, p.files, init, last, trigger, Fresh(mk, FileOf(files, last), last, trigger));
    }
  }

  /** The second run skips them all and changes nothing. */
  lemma {:induction false} SecondRun(mk: Markers, files: map<string, string>, done: map<string, string>,
                                     hooks: seq<string>, trigger: string)
    requires Sound(mk) && Clean(mk, files, hooks, trigger)
    requires forall h :: h in hooks ==> FileOf(done, h) == Some(Fresh(mk, FileOf(files, h), h, trigger))
    ensures InstallAll(mk, Started(done), hooks, trigger) == Progress(done, [], hooks, false)
  {
    if hooks != [] {
      var init, last := hooks[..|hooks| - 1], hooks[|hooks| - 1];
      CleanInit(mk, files, hooks, trigger);
      SecondRun(mk, files, done, init, trigger);
      SecondStep(mk, InstallAll(mk, Started(done), init, trigger), FileOf(files, last), last, trigger);
    }
  }

  // ---------------------------------------------------------------- taking them out again

  function UninstallStep(mk: Markers, p: Progress, hook: string): Progress {
    if p.failed then p
    else if hook !in p.files then p.(skipped := p.skipped + [hook])
    else Acted(p, hook, UninstallFile(mk, p.files[hook]))
  }

  function Acted(p: Progress, hook: string, outcome: Result<Uninstalled, HookError>): Progress {
    match outcome
    case Err(_) => p.(failed := true)
    case Ok(Untouched) => p.(skipped := p.skipped + [hook])
    case Ok(Removed) => p.(files := p.files - {hook}, installed := p.installed + [hook])
    case Ok(Rewritten(text)) => p.(files := p.files[hook := text], installed := p.installed + [hook])
  }

  function UninstallAll(mk: Markers, p: Progress, hooks: seq<string>): Progress {
    if hooks == [] then p else UninstallStep(mk, UninstallAll(mk, p, hooks[..|hooks| - 1]), hooks[|hooks| - 1])
  }

  predicate HasStart(mk: Markers, files: map<string, string>, hook: string) {
    hook in files && Contains(mk.start, files[hook])
  }

  /** What has been reported and changed after the hooks so far. */
  ghost predicate Reports(mk: Markers, files: map<string, string>, p: Progress, hooks: seq<string>) {
    && (forall h :: h in p.installed <==> h in hooks && HasStart(mk, files, h))
    && (forall h :: h in p.skipped <==> h in hooks && !HasStart(mk, files, h))
    && (forall h :: h !in hooks || !HasStart(mk, files, h) ==> FileOf(p.files, h) == FileOf(files, h))
  }

  /** One uninstall over a directory reports as taken out exactly the hooks whose files have a start marker, as skipped
      exactly the others, and changes no other file. */
  lemma {:induction false} UninstallReports(mk: Markers, files: map<string, string>, hooks: seq<string>)
    requires forall i, j :: 0 <= i < j < |hooks| ==> hooks[i] != hooks[j]
    ensures
      var p := UninstallAll(mk, Started(files), hooks);
      !p.failed ==> Reports(mk, files, p, hooks)
  {
    if hooks != [] {
      var init, last := hooks[..|hooks| - 1], hooks[|hooks| - 1];
      UninstallReports(mk, files, init);
      var p := UninstallAll(mk, Started(files), init);
      assert hooks == init + [last] && last !in init;
      if !UninstallStep(mk, p, last).failed {
        assert FileOf(p.files, last) == FileOf(files, last);
        ReportsNext(mk, files, p, init, last);
      }
    }
  }

  lemma ReportsNext(mk: Markers, files: map<string, string>, p: Progress, init: seq<string>, last: string)
    requires Reports(mk, files, p, init) && last !in init && !UninstallStep(mk, p, last).failed
    ensures Reports(mk, files, UninstallStep(mk, p, last), init + [last])
  {
    assert FileOf(p.files, last) == FileOf(files, last);
    assert HasStart(mk, p.files, last) <==> HasStart(mk, files, last);
    assert forall h :: h in init + [last] <==> h in init || h == last;
  }

  /** What install and uninstall together make of a file. */
  function RoundTripped(file: Option<string>): Option<string> {
    match file
    case None => None
    case Some(current) => if Trivial(Strip(current)) then None else Some(Strip(current) + "\n")
  }

  lemma UninstallFresh(mk: Markers, file: Option<string>, hook: string, trigger: string)
    requires Sound(mk) && !Contains(mk.start, Header()) && Trivial(Strip(Header()))
    requires !Contains(mk.end, Body(hook, trigger))
    requires file.Some? ==> !Contains(mk.start, file.value)
    ensures UninstallFile(mk, Fresh(mk, file, hook, trigger)) ==
      Ok(match RoundTripped(file) case None => Removed case Some(text) => Rewritten(text))
  {
    match file
    case None => UninstallAround(mk, Header(), Body(hook, trigger));
    case Some(current) => UninstallAppended(mk, current, Body(hook, trigger));
  }

  lemma UninstallOne(mk: Markers, p: Progress, file: Option<string>, hook: string, trigger: string)
    requires Sound(mk) && !Contains(mk.start, Header()) && Trivial(Strip(Header()))
    requires !Contains(mk.end, Body(hook, trigger))
    requires file.Some? ==> !Contains(mk.start, file.value)
    requires !p.failed && FileOf(p.files, hook) == Some(Fresh(mk, file, hook, trigger))
    ensures
      var q := UninstallStep(mk, p, hook);
      && !q.failed && q.installed == p.installed + [hook] && q.skipped == p.skipped
      && FileOf(q.files, hook) == RoundTripped(file)
      && forall h :: h != hook ==> FileOf(q.files, h) == FileOf(p.files, h)
  {
    UninstallFresh(mk, file, hook, trigger);
    ActedIs(p, hook, RoundTripped(file));
  }

  lemma ActedIs(p: Progress, hook: string, left: Option<string>)
    requires !p.failed
    ensures
      var q := Acted(p, hook, Ok(match left case None => Removed case Some(t) => Rewritten(t)));
      && !q.failed && q.installed == p.installed + [hook] && q.skipped == p.skipped
      && FileOf(q.files, hook) == left
      && forall h :: h != hook ==> FileOf(q.files, h) == FileOf(p.files, h)
  {
  }

  ghost predicate TakenOut(files: map<string, string>, done: map<string, string>, after: map<string, string>,
                           hooks: seq<string>) {
    && (forall h :: h in hooks ==> FileOf(after, h) == RoundTripped(FileOf(files, h)))
    && (forall h :: h !in hooks ==> FileOf(after, h) == FileOf(done, h))
  }

  lemma TakenOutNext(files: map<string, string>, done: map<string, string>, p: map<string, string>,
                     q: map<string, string>, init: seq<string>, last: string)
    requires TakenOut(files, done, p, init) && last !in init
    requires FileOf(q, last) == RoundTripped(FileOf(files, last))
    requires forall h :: h != last ==> FileOf(q, h) == FileOf(p, h)
    ensures TakenOut(files, done, q, init + [last])
  {
    assert forall h :: h in init + [last] <==> h in init || h == last;
  }

  /** Installing into a clean directory and uninstalling brings every hook file back,
      trimmed, and removes those that did not exist or held only a header. */
  lemma {:induction false} DirectoryRoundTrip(mk: Markers, files: map<string, string>, done: map<string, string>,
                                              hooks: seq<string>, trigger: string)
    requires Sound(mk) && Clean(mk, files, hooks, trigger) && Trivial(Strip(Header()))
    requires forall h :: h in hooks ==> FileOf(done, h) == Some(Fresh(mk, FileOf(files, h), h, trigger))
    ensures
      var p := UninstallAll(mk, Started(done), hooks);
      !p.failed && p.installed == hooks && p.skipped == [] && TakenOut(files, done, p.files, hooks)
  {
    if hooks != [] {
      var init, last := hooks[..|hooks| - 1], hooks[|hooks| - 1];
      CleanInit(mk, files, hooks, trigger);
      DirectoryRoundTrip(mk, files, done, init, trigger);
      var p := UninstallAll(mk, Started(done), init);
      assert FileOf(p.files, last) == FileOf(done, last);
      UninstallOne(mk, p, FileOf(files, last), last, trigger);
      TakenOutNext(files, done, p.files, UninstallStep(mk, p, last).files, init, last);
    }
  }

  /** All of this holds of the real markers, hook names and default command, for every
      directory without a start marker in its hook files. */
  lemma DefaultInstallIsClean(files: map<string, string>)
    requires forall h :: h in HookNames() && h in files ==> !Contains(OurMarkers().start, files[h])
    ensures Sound(OurMarkers()) && Clean(OurMarkers(), files, HookNames(), DefaultTrigger()) && Trivial(Strip(Header()))
  {
    MarkersAreSound();
    HeaderIsPlain();
    NamesDiffer();
    forall i | 0 <= i < |HookNames()|
      ensures !Contains(OurMarkers().end, Body(HookNames()[i], DefaultTrigger()))
    {
      DefaultTriggerIsSafe(HookNames()[i]);
    }
  }

  lemma NamesDiffer()
    ensures forall i, j :: 0 <= i < j < |HookNames()| ==> HookNames()[i] != HookNames()[j]
    ensures forall i :: 0 <= i < |HookNames()| ==> '#' !in HookNames()[i]
  {
    var h := HookNames();
    assert |h[0]| == 13 && |h[1]| == 10 && |h[2]| == 12 && |h[3]| == 11 && |h[4]| == 15;
  }

  function HookNames(): seq<string> {
    ["post-checkout", "post-merge", "post-rewrite", "post-commit", "post-applypatch"]
  }

  method UninstallHook(mk: Markers, content: string) returns (r: Result<Uninstalled, HookError>)
    ensures r == UninstallFile(mk, content)
  {
    if !Contains(mk.start, content) {
      return Ok(Untouched);
    }
    var stripped := StripBlock(mk, content);
    if stripped.Err? {
      return Err(stripped.error);
    }
    r := Ok(if Trivial(Strip(stripped.value)) then Removed else Rewritten(stripped.value));
  }

  method InstallHook(mk: Markers, p: Progress, hook: string, trigger: string) returns (q: Progress)
    requires !p.failed
    ensures q == InstallStep(mk, p, hook, trigger)
  {
    var file := FileOf(p.files, hook);
    var text := InstallFile(mk, file, Body(hook, trigger));
    if text.Err? {
      return p.(failed := true);
    }
    if file.Some? && Contains(mk.start, file.value) && Contains(mk.end, file.value) && text.value == file.value {
      return p.(skipped := p.skipped + [hook]);
    }
    q := p.(files := p.files[hook := text.value], installed := p.installed + [hook]);
  }

  class HooksDir {
    var files: map<string, string>

    constructor (files: map<string, string>)
      ensures this.files == files
    {
      this.files := files;
    }

    /** Write every hook file whose text changes; an exception leaves the earlier ones written. */
    method InstallHooks(trigger: string) returns (p: Progress)
      modifies this
      ensures p == InstallAll(OurMarkers(), Started(old(files)), HookNames(), trigger) && files == p.files
    {
      var hooks, mk := HookNames(), OurMarkers();
      p := Started(files);
      for i := 0 to |hooks|
        invariant p == InstallAll(mk, Started(old(files)), hooks[..i], trigger) && files == p.files
      {
        assert hooks[..i + 1][..i] == hooks[..i];
        if !p.failed {
          p := InstallHook(mk, p, hooks[i], trigger);
          files := p.files;
        }
      }
      assert hooks[..|hooks|] == hooks;
    }

    method UninstallHooks() returns (p: Progress)
      modifies this
      ensures p == UninstallAll(OurMarkers(), Started(old(files)), HookNames()) && files == p.files
    {
      var hooks, mk := HookNames(), OurMarkers();
      p := Started(files);
      for i := 0 to |hooks|
        invariant p == UninstallAll(mk, Started(old(files)), hooks[..i]) && files == p.files
      {
        assert hooks[..i + 1][..i] == hooks[..i];
        if !p.failed {
          if hooks[i] in files {
            var outcome := UninstallHook(mk, files[hooks[i]]);
            p := Acted(p, hooks[i], outcome);
            files := p.files;
          } else {
            p := p.(skipped := p.skipped + [hooks[i]]);
          }
        }
      }
      assert hooks[..|hooks|] == hooks;
    }
  }
}
