/** How git prints path names, and what the delta reader makes of them. */
module GitNames {
  import opened Wrappers
  import opened TextOps

  /** What git prints for a character that it cannot print: an escape of its bytes. */
  type Octal = char -> string

  ghost predicate Proper(octal: Octal) {
    forall c :: octal(c) != "" && '>' !in octal(c)
  }

  /** Printed as it is. */
  predicate Visible(c: char) {
    '!' <= c <= '~' && c != '"' && c != '\\'
  }

  function EscapeChar(octal: Octal, c: char): string {
    if c == '"' || c == '\\' then ['\\', c] else if Visible(c) || c == ' ' then [c] else octal(c)
  }

  function Escape(octal: Octal, s: string): string {
    if s == "" then "" else EscapeChar(octal, s[0]) + Escape(octal, s[1..])
  }

  function Quoted(octal: Octal, s: string): string {
    ['"'] + Escape(octal, s) + ['"']
  }

  /** `git diff --name-status` leaves the name unquoted. */
  predicate Bare(p: string) {
    forall i :: 0 <= i < |p| ==> Visible(p[i]) || p[i] == ' '
  }

  /** `git status --porcelain` does: it quotes blanks, too. */
  predicate BareInStatus(p: string) {
    forall i :: 0 <= i < |p| ==> Visible(p[i])
  }

  function DiffShown(octal: Octal, p: string): string {
    if Bare(p) then p else Quoted(octal, p)
  }

  function StatusShown(octal: Octal, p: string): string {
    if BareInStatus(p) then p else Quoted(octal, p)
  }

  function Arrow(): string {
    "->"
  }

  /** What follows the status columns. */
  function Rest(octal: Octal, p: string, renamedFrom: Option<string>): string {
    match renamedFrom
    case None => StatusShown(octal, p)
    case Some(was) => StatusShown(octal, was) + [' '] + (Arrow() + [' '] + StatusShown(octal, p))
  }

  /** The path that the reader takes from it: what stands behind the first arrow, if there is one. */
  function ReadRest(rest: string): string {
    match IndexOf(Arrow(), rest, 0)
    case None => rest
    case Some(i) => Strip(rest[i + |Arrow()|..])
  }

  /** The name comes back as it is. */
  predicate Readable(octal: Octal, p: string, renamedFrom: Option<string>) {
    && BareInStatus(p)
    && match renamedFrom
       case None => !Contains(Arrow(), p)
       case Some(was) => !Contains(Arrow(), StatusShown(octal, was))
  }

  // ---------------------------------------------------------------- counting arrow heads

  function Heads(s: string): nat {
    if s == "" then 0 else (if s[0] == '>' then 1 else 0) + Heads(s[1..])
  }

  lemma {:induction false} HeadsAppend(a: string, b: string)
    ensures Heads(a + b) == Heads(a) + Heads(b)
  {
    if a == "" {
      assert a + b == b;
    } else {
      assert (a + b)[1..] == a[1..] + b;
      HeadsAppend(a[1..], b);
    }
  }

  lemma {:induction false} NoHeads(s: string)
    requires '>' !in s
    ensures Heads(s) == 0
  {
    if s != "" {
      assert s[0] in s && forall c :: c in s[1..] ==> c in s;
      NoHeads(s[1..]);
    }
  }

  lemma {:induction false} BlanksHaveNoHeads(s: string)
    requires Blank(s)
    ensures Heads(s) == 0
  {
    if s != "" {
      assert s[0] != '>' by {
        assert IsSpace(s[0]);
      }
      BlanksHaveNoHeads(s[1..]);
    }
  }

  lemma {:induction false} LstripKeepsHeads(s: string)
    ensures Heads(Lstrip(s)) == Heads(s)
  {
    if s != "" && IsSpace(s[0]) {
      LstripKeepsHeads(s[1..]);
    }
  }

  lemma StripKeepsHeads(s: string)
    ensures Heads(Strip(s)) == Heads(s)
  {
    LstripKeepsHeads(s);
    RstripLoses(Lstrip(s));
    var blank :| Blank(blank) && Lstrip(s) == Rstrip(Lstrip(s)) + blank;
    HeadsAppend(Rstrip(Lstrip(s)), blank);
    BlanksHaveNoHeads(blank);
  }

  lemma {:induction false} EscapeKeeps(octal: Octal, s: string)
    requires Proper(octal)
    ensures Heads(Escape(octal, s)) == Heads(s) && |Escape(octal, s)| >= |s|
  {
    if s != "" {
      EscapeKeeps(octal, s[1..]);
      HeadsAppend(EscapeChar(octal, s[0]), Escape(octal, s[1..]));
      EscapedHead(octal, s[0]);
    }
  }

  lemma EscapedHead(octal: Octal, c: char)
    requires Proper(octal)
    ensures Heads(EscapeChar(octal, c)) == (if c == '>' then 1 else 0) && EscapeChar(octal, c) != ""
  {
    var e := EscapeChar(octal, c);
    if e == [c] {
      assert e[1..] == "";
    } else {
      assert '>' !in e;
      NoHeads(e);
    }
  }

  lemma QuotedDiffers(octal: Octal, s: string)
    requires Proper(octal)
    ensures Heads(Quoted(octal, s)) == Heads(s) && |Quoted(octal, s)| > |s|
  {
    EscapeKeeps(octal, s);
    HeadsAppend(['"'] + Escape(octal, s), ['"']);
    HeadsAppend(['"'], Escape(octal, s));
    NoHeads(['"']);
  }

  lemma ShownHeads(octal: Octal, p: string)
    requires Proper(octal)
    ensures Heads(StatusShown(octal, p)) == Heads(p)
    ensures StatusShown(octal, p) == p <==> BareInStatus(p)
    ensures DiffShown(octal, p) == p <==> Bare(p)
  {
    QuotedDiffers(octal, p);
  }

  /** Behind the first arrow there is one head fewer. */
  lemma HeadsBehindArrow(s: string)
    requires Contains(Arrow(), s)
    ensures Heads(ReadRest(s)) < Heads(s)
  {
    var i := IndexOf(Arrow(), s, 0).value;
    var tail := s[i + 2..];
    AtChar(Arrow(), s, i, 1);
    assert s == s[..i + 1] + (['>'] + tail);
    HeadsAppend(s[..i + 1], ['>'] + tail);
    assert (['>'] + tail)[1..] == tail;
    StripKeepsHeads(tail);
  }

  // ---------------------------------------------------------------- exactly which names come back

  lemma ArrowChars()
    ensures Arrow() != "" && |Arrow()| == 2 && ' ' !in Arrow() && '>' in Arrow()
    ensures Heads(Arrow()) == 1
  {
    assert Arrow()[1..] == ">" && Arrow()[1..][1..] == "";
  }

  /** A rename line, read behind its own arrow. */
  lemma RenameReads(octal: Octal, p: string, was: string)
    requires Proper(octal) && p != "" && !Contains(Arrow(), StatusShown(octal, was))
    ensures ReadRest(Rest(octal, p, Some(was))) == StatusShown(octal, p)
  {
    var a, shown := StatusShown(octal, was), StatusShown(octal, p);
    var tail := [' '] + shown;
    ArrowChars();
    AtFront(Arrow(), tail);
    IndexSeparated(Arrow(), a, ' ', Arrow() + tail);
    assert Rest(octal, p, Some(was)) == a + [' '] + (Arrow() + tail);
    assert (a + [' '] + (Arrow() + tail))[|a| + 1 + 2..] == tail;
    ShownEnds(octal, p);
    VisibleFromBlank(shown);
  }

  lemma VisibleFromBlank(s: string)
    requires s != "" && !IsSpace(s[0]) && !IsSpace(s[|s| - 1])
    ensures Strip([' '] + s) == s
  {
    assert IsSpace(' ') && ([' '] + s)[1..] == s;
    assert Lstrip([' '] + s) == Lstrip(s) == s;
  }

  lemma ShownEnds(octal: Octal, p: string)
    requires p != ""
    ensures
      var s := StatusShown(octal, p);
      s != "" && !IsSpace(s[0]) && !IsSpace(s[|s| - 1])
  {
  }

  /** A rename line whose old name holds an arrow is cut too early. */
  lemma RenameCutEarly(octal: Octal, p: string, was: string)
    requires Proper(octal) && Contains(Arrow(), StatusShown(octal, was))
    ensures Heads(ReadRest(Rest(octal, p, Some(was)))) > Heads(p)
  {
    var a, shown := StatusShown(octal, was), StatusShown(octal, p);
    var rest := Rest(octal, p, Some(was));
    var late := [' '] + (Arrow() + [' '] + shown);
    assert rest == a + late;
    ArrowChars();
    IndexSeparated(Arrow(), a, ' ', Arrow() + [' '] + shown);
    var i := IndexOf(Arrow(), a, 0).value;
    assert IndexOf(Arrow(), rest, 0) == Some(i) by {
      assert rest == a + [' '] + (Arrow() + [' '] + shown);
    }
    assert rest[i + 2..] == a[i + 2..] + late;
    StripKeepsHeads(rest[i + 2..]);
    HeadsAppend(a[i + 2..], late);
    LateHeads(octal, p);
  }

  lemma LateHeads(octal: Octal, p: string)
    requires Proper(octal)
    ensures Heads([' '] + (Arrow() + [' '] + StatusShown(octal, p))) == 1 + Heads(p)
  {
    var shown := StatusShown(octal, p);
    ArrowChars();
    ShownHeads(octal, p);
    HeadsAppend([' '], Arrow() + [' '] + shown);
    HeadsAppend(Arrow() + [' '], shown);
    HeadsAppend(Arrow(), [' ']);
    NoHeads([' ']);
  }

  /** Exactly the names that git leaves unquoted and that hold no arrow are read as
      they are; on a rename line it is the old name that must hold none. */
  lemma ReadsBackIff(octal: Octal, p: string, renamedFrom: Option<string>)
    requires Proper(octal) && p != ""
    ensures ReadRest(Rest(octal, p, renamedFrom)) == p <==> Readable(octal, p, renamedFrom)
  {
    ShownHeads(octal, p);
    match renamedFrom
    case None =>
      if Contains(Arrow(), StatusShown(octal, p)) {
        HeadsBehindArrow(StatusShown(octal, p));
      }
    case Some(was) =>
      if Contains(Arrow(), StatusShown(octal, was)) {
        RenameCutEarly(octal, p, was);
      } else {
        RenameReads(octal, p, was);
      }
  }
}
