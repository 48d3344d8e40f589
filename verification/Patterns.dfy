/** The shape of regular expression the generator uses: anchored at the start of a line, a
    concatenation of literals, whitespace runs and capture groups, free at the end.

    `Decomposes` says declaratively that a line splits into such pieces; `Scan` is a scanner that
    goes once from left to right, takes every run as long as it can and never backtracks. For a
    `Separated` pattern the two agree on every line, so the captures are unique. */
module Patterns {
  import opened Text

  /** The alphabets and forms of the capture groups. */
  datatype Capture =
    | ImportPath  // [a-zA-Z0-9_./]+
    | Quoted      // [^"]+
    | Ident       // [A-Za-z0-9_]+
    | TypeName    // [A-Za-z0-9_]+\.?[A-Za-z0-9_]*

  datatype Pattern =
    | End
    | Lit(text: string, rest: Pattern)
    | Blank(least: nat, rest: Pattern)      // \s* or \s+
    | Group(capture: Capture, rest: Pattern)

  // ---------- what a piece may be ----------

  predicate InAlphabet(capture: Capture, c: char) {
    match capture
    case ImportPath => IsWord(c) || c == '.' || c == '/'
    case Quoted => c != '"'
    case Ident => IsWord(c)
    case TypeName => IsWord(c) || c == '.'
  }

  ghost predicate AllIn(capture: Capture, s: string) {
    forall k :: 0 <= k < |s| ==> InAlphabet(capture, s[k])
  }

  ghost predicate AllBlank(s: string) {
    forall k :: 0 <= k < |s| ==> IsBlank(s[k])
  }

  /** `s[..i]` is the first run of word characters, `s[i..j]` the optional dot, the rest a second
      run of word characters. */
  ghost predicate SplitsType(s: string, i: nat, j: nat) {
    && 0 < i <= j <= |s|
    && j <= i + 1
    && AllIn(Ident, s[..i])
    && (j == i + 1 ==> s[i] == '.')
    && AllIn(Ident, s[j..])
  }

  /** The strings a capture group can capture. */
  ghost predicate InGroup(capture: Capture, s: string) {
    if capture.TypeName? then exists i: nat, j: nat :: SplitsType(s, i, j)
    else s != [] && AllIn(capture, s)
  }

  // ---------- the declarative relation ----------

  /** The pieces of `p` written one after the other. */
  ghost function Build(p: Pattern, blanks: seq<string>, captures: seq<string>): string {
    match p
    case End => []
    case Lit(t, rest) => t + Build(rest, blanks, captures)
    case Blank(_, rest) =>
      if blanks == [] then [] else blanks[0] + Build(rest, blanks[1..], captures)
    case Group(_, rest) =>
      if captures == [] then [] else captures[0] + Build(rest, blanks, captures[1..])
  }

  /** Every whitespace run and every capture is one the pattern allows, and none is left over. */
  ghost predicate Fits(p: Pattern, blanks: seq<string>, captures: seq<string>) {
    match p
    case End => blanks == [] && captures == []
    case Lit(_, rest) => Fits(rest, blanks, captures)
    case Blank(least, rest) =>
      blanks != [] && |blanks[0]| >= least && AllBlank(blanks[0]) && Fits(rest, blanks[1..], captures)
    case Group(capture, rest) =>
      captures != [] && InGroup(capture, captures[0]) && Fits(rest, blanks, captures[1..])
  }

  /** The line is the pieces of `p`, then any tail. */
  ghost predicate Decomposes(p: Pattern, line: string, blanks: seq<string>, captures: seq<string>, tail: string) {
    Fits(p, blanks, captures) && line == Build(p, blanks, captures) + tail
  }

  // ---------- printing ----------

  /** The shortest legal whitespace for each run of a pattern. */
  function ShortBlanks(p: Pattern): seq<string> {
    match p
    case End => []
    case Lit(_, rest) => ShortBlanks(rest)
    case Blank(least, rest) => [seq(least, _ => ' ')] + ShortBlanks(rest)
    case Group(_, rest) => ShortBlanks(rest)
  }

  /** Legal captures can always be written. */
  lemma {:induction false} ShortBlanksFit(p: Pattern, captures: seq<string>)
    requires |captures| == |Groups(p)|
    requires forall k :: 0 <= k < |captures| ==> InGroup(Groups(p)[k], captures[k])
    ensures Fits(p, ShortBlanks(p), captures)
    decreases p
  {
    match p
    case End =>
    case Lit(_, rest) => ShortBlanksFit(rest, captures);
    case Blank(_, rest) => ShortBlanksFit(rest, captures);
    case Group(capture, rest) =>
      assert Groups(p)[0] == capture && Groups(p)[1..] == Groups(rest);
      ShortBlanksFit(rest, captures[1..]);
  }

  lemma {:induction false} ShortBlanksNoNewline(p: Pattern)
    ensures NoNewlines(ShortBlanks(p))
  {
    match p
    case End =>
    case Lit(_, rest) => ShortBlanksNoNewline(rest);
    case Blank(_, rest) => ShortBlanksNoNewline(rest);
    case Group(_, rest) => ShortBlanksNoNewline(rest);
  }

  /** No literal holds a newline, and the last piece is a literal that does not end in a carriage return. */
  predicate StaysOnLine(p: Pattern) {
    match p
    case End => false
    case Lit(t, rest) =>
      '\n' !in t && if rest == End then t != "" && t[|t| - 1] != '\r' else StaysOnLine(rest)
    case Blank(_, rest) => StaysOnLine(rest)
    case Group(_, rest) => StaysOnLine(rest)
  }

  /** What a scanner reads as one line, unchanged. */
  predicate IsOneLine(line: string) {
    line != "" && '\n' !in line && line[|line| - 1] != '\r'
  }

  lemma {:induction false} BuildOneLine(p: Pattern, blanks: seq<string>, captures: seq<string>)
    requires StaysOnLine(p) && Fits(p, blanks, captures)
    requires NoNewlines(blanks) && NoNewlines(captures)
    ensures IsOneLine(Build(p, blanks, captures))
  {
    match p
    case Lit(t, rest) =>
      if rest == End {
        assert Build(p, blanks, captures) == t;
      } else {
        BuildOneLine(rest, blanks, captures);
      }
    case Blank(_, rest) => BuildOneLine(rest, blanks[1..], captures);
    case Group(_, rest) => BuildOneLine(rest, blanks, captures[1..]);
  }

  // ---------- the scanner ----------

  function BlankRun(s: string): (n: nat)
    ensures n <= |s| && forall k :: 0 <= k < n ==> IsBlank(s[k])
    ensures n < |s| ==> !IsBlank(s[n])
  {
    if s == [] || !IsBlank(s[0]) then 0
    else
      var n := BlankRun(s[1..]);
      assert forall k :: 0 < k < n + 1 ==> s[k] == s[1..][k - 1];
      n + 1
  }

  function AlphabetRun(capture: Capture, s: string): (n: nat)
    ensures n <= |s| && forall k :: 0 <= k < n ==> InAlphabet(capture, s[k])
    ensures n < |s| ==> !InAlphabet(capture, s[n])
  {
    if s == [] || !InAlphabet(capture, s[0]) then 0
    else
      var n := AlphabetRun(capture, s[1..]);
      assert forall k :: 0 < k < n + 1 ==> s[k] == s[1..][k - 1];
      n + 1
  }

  /** The length of the longest capture at the start of `s`, 0 when there is none. */
  function Longest(capture: Capture, s: string): (n: nat)
    ensures n <= |s|
  {
    if capture.TypeName? then
      var i := AlphabetRun(Ident, s);
      if 0 < i < |s| && s[i] == '.' then i + 1 + AlphabetRun(Ident, s[i + 1..]) else i
    else AlphabetRun(capture, s)
  }

  /** The capture groups of a pattern, left to right. */
  function Groups(p: Pattern): seq<Capture> {
    match p
    case End => []
    case Lit(_, rest) => Groups(rest)
    case Blank(_, rest) => Groups(rest)
    case Group(capture, rest) => [capture] + Groups(rest)
  }

  function Scan(p: Pattern, line: string): (r: Option<seq<string>>)
    ensures r.Some? ==> |r.value| == |Groups(p)|
    decreases p, line
  {
    match p
    case End => Some([])
    case Lit(t, rest) =>
      if t <= line then Scan(rest, line[|t|..]) else None
    case Blank(least, rest) =>
      var n := BlankRun(line);
      if n < least then None else Scan(rest, line[n..])
    case Group(capture, rest) =>
      var n := Longest(capture, line);
      if n == 0 then None
      else match Scan(rest, line[n..])
        case None => None
        case Some(captures) => Some([line[..n]] + captures)
  }

  // ---------- when no backtracking is needed ----------

  /** Whether some match of `p` may begin with `c`. */
  predicate MayStart(p: Pattern, c: char) {
    match p
    case End => true
    case Lit(t, rest) => if t == [] then MayStart(rest, c) else c == t[0]
    case Blank(least, rest) => IsBlank(c) || (least == 0 && MayStart(rest, c))
    case Group(capture, _) => InAlphabet(capture, c)
  }

  /** What follows a run never begins with a character the run could still take. */
  ghost predicate Separated(p: Pattern) {
    match p
    case End => true
    case Lit(_, rest) => Separated(rest)
    case Blank(_, rest) =>
      Separated(rest) && forall c :: IsBlank(c) ==> !MayStart(rest, c)
    case Group(capture, rest) =>
      Separated(rest) && forall c :: InAlphabet(capture, c) ==> !MayStart(rest, c)
  }

  lemma {:induction false} StartsOk(p: Pattern, line: string, blanks: seq<string>, captures: seq<string>, tail: string)
    requires Decomposes(p, line, blanks, captures, tail)
    requires line != []
    ensures MayStart(p, line[0])
  {
    match p
    case End =>
    case Lit(t, rest) =>
      if t == [] {
        StartsOk(rest, line, blanks, captures, tail);
      } else {
        assert line[0] == t[0];
      }
    case Blank(least, rest) =>
      if blanks[0] == [] {
        StartsOk(rest, line, blanks[1..], captures, tail);
      } else {
        assert line[0] == blanks[0][0];
      }
    case Group(capture, rest) =>
      GroupAlphabet(capture, captures[0]);
      assert line[0] == captures[0][0];
  }

  lemma GroupAlphabet(capture: Capture, s: string)
    requires InGroup(capture, s)
    ensures s != [] && AllIn(capture, s)
  {
    if capture.TypeName? {
      var i: nat, j: nat :| SplitsType(s, i, j);
      forall k | 0 <= k < |s|
        ensures InAlphabet(TypeName, s[k])
      {
        if k < i {
          assert s[k] == s[..i][k];
        } else if k >= j {
          assert s[k] == s[j..][k - j];
        }
      }
    }
  }

  lemma LongestIsIn(capture: Capture, s: string)
    requires Longest(capture, s) > 0
    ensures InGroup(capture, s[..Longest(capture, s)])
  {
    if capture.TypeName? {
      var i, n := AlphabetRun(Ident, s), Longest(capture, s);
      var t := s[..n];
      assert t[..i] == s[..i];
      if i < |s| && s[i] == '.' {
        assert t[i + 1..] == s[i + 1..][..AlphabetRun(Ident, s[i + 1..])];
        assert SplitsType(t, i, i + 1);
      } else {
        assert t[i..] == [];
        assert SplitsType(t, i, i);
      }
    }
  }

  /** Any capture at the start of `s` is at most the longest one, and a shorter one is followed by
      a character of the same alphabet. */
  lemma LongestIsMaximal(capture: Capture, s: string, n: nat)
    requires n <= |s| && InGroup(capture, s[..n])
    ensures 0 < n <= Longest(capture, s)
    ensures n < Longest(capture, s) ==> InAlphabet(capture, s[n])
  {
    var most := Longest(capture, s);
    if capture.TypeName? {
      var i: nat, j: nat :| SplitsType(s[..n], i, j);
      var m := AlphabetRun(Ident, s);
      assert forall k :: 0 <= k < i ==> s[k] == s[..n][..i][k];
      assert forall k :: j <= k < n ==> s[k] == s[..n][j..][k - j];
      if j == i + 1 {
        assert s[i] == s[..n][i] == '.';
        assert m == i;
        assert forall k :: j <= k < |s| ==> s[k] == s[i + 1..][k - j];
      }
      if n < most {
        LongestIsIn(capture, s);
        GroupAlphabet(capture, s[..most]);
        assert s[n] == s[..most][n];
      }
    } else {
      assert forall k :: 0 <= k < n ==> s[..n][k] == s[k];
    }
  }

  // ---------- the scanner decides the relation ----------

  /** The scanner's first step on a whitespace run takes exactly the run that was written. */
  lemma BlankStep(p: Pattern, line: string, blanks: seq<string>, captures: seq<string>, tail: string)
    requires p.Blank? && Separated(p)
    requires Decomposes(p, line, blanks, captures, tail)
    ensures BlankRun(line) == |blanks[0]|
    ensures Decomposes(p.rest, line[|blanks[0]|..], blanks[1..], captures, tail)
  {
    var k, n := |blanks[0]|, BlankRun(line);
    var follow := Build(p.rest, blanks[1..], captures);
    assert line == blanks[0] + (follow + tail);
    assert line[k..] == follow + tail;
    assert forall j :: 0 <= j < k ==> line[j] == blanks[0][j];
    if k < n {
      StartsOk(p.rest, line[k..], blanks[1..], captures, tail);
    }
  }

  /** Likewise for a capture group. */
  lemma GroupStep(p: Pattern, line: string, blanks: seq<string>, captures: seq<string>, tail: string)
    requires p.Group? && Separated(p)
    requires Decomposes(p, line, blanks, captures, tail)
    ensures 0 < Longest(p.capture, line) == |captures[0]| && line[..|captures[0]|] == captures[0]
    ensures Decomposes(p.rest, line[|captures[0]|..], blanks, captures[1..], tail)
    ensures captures == [captures[0]] + captures[1..]
  {
    var k, n := |captures[0]|, Longest(p.capture, line);
    var follow := Build(p.rest, blanks, captures[1..]);
    assert line == captures[0] + (follow + tail);
    assert line[k..] == follow + tail;
    assert line[..k] == captures[0];
    LongestIsMaximal(p.capture, line, k);
    if k < n {
      StartsOk(p.rest, line[k..], blanks, captures[1..], tail);
    }
  }

  lemma LitStep(p: Pattern, line: string, blanks: seq<string>, captures: seq<string>, tail: string)
    requires p.Lit?
    requires Decomposes(p, line, blanks, captures, tail)
    ensures p.text <= line && Decomposes(p.rest, line[|p.text|..], blanks, captures, tail)
  {
    var follow := Build(p.rest, blanks, captures);
    assert line == p.text + (follow + tail);
    assert line[|p.text|..] == follow + tail;
  }

  /** Every decomposition is found, with its own captures. */
  lemma {:induction false} ScanComplete(p: Pattern, line: string, blanks: seq<string>, captures: seq<string>, tail: string)
    requires Separated(p)
    requires Decomposes(p, line, blanks, captures, tail)
    ensures Scan(p, line) == Some(captures)
  {
    match p
    case End =>
    case Lit(t, rest) =>
      LitStep(p, line, blanks, captures, tail);
      ScanComplete(rest, line[|t|..], blanks, captures, tail);
    case Blank(least, rest) =>
      BlankStep(p, line, blanks, captures, tail);
      ScanComplete(rest, line[|blanks[0]|..], blanks[1..], captures, tail);
    case Group(capture, rest) =>
      GroupStep(p, line, blanks, captures, tail);
      ScanComplete(rest, line[|captures[0]|..], blanks, captures[1..], tail);
  }

  /** One more piece in front of a decomposition. */
  lemma PieceInFront(piece: string, line: string, follow: string, tail: string)
    requires piece <= line && line[|piece|..] == follow + tail
    ensures line == (piece + follow) + tail
  {
    assert line == piece + line[|piece|..];
  }

  /** What the scanner returns is a decomposition. */
  lemma {:induction false} ScanSound(p: Pattern, line: string) returns (blanks: seq<string>, tail: string)
    requires Scan(p, line).Some?
    ensures Decomposes(p, line, blanks, Scan(p, line).value, tail)
  {
    match p
    case End =>
      blanks, tail := [], line;
    case Lit(t, rest) =>
      blanks, tail := ScanSound(rest, line[|t|..]);
      PieceInFront(t, line, Build(rest, blanks, Scan(p, line).value), tail);
    case Blank(least, rest) =>
      var n, captures := BlankRun(line), Scan(p, line).value;
      var after;
      after, tail := ScanSound(rest, line[n..]);
      PieceInFront(line[..n], line, Build(rest, after, captures), tail);
      blanks := [line[..n]] + after;
      assert blanks[1..] == after;
    case Group(capture, rest) =>
      var n, captures := Longest(capture, line), Scan(p, line).value;
      LongestIsIn(capture, line);
      blanks, tail := ScanSound(rest, line[n..]);
      assert captures[1..] == Scan(rest, line[n..]).value;
      PieceInFront(line[..n], line, Build(rest, blanks, captures[1..]), tail);
  }

  ghost predicate Matches(p: Pattern, line: string, captures: seq<string>) {
    exists blanks, tail :: Decomposes(p, line, blanks, captures, tail)
  }

  /** The scanner accepts exactly the lines that decompose, and returns the captures. */
  lemma ScanDecides(p: Pattern, line: string, captures: seq<string>)
    requires Separated(p)
    ensures Matches(p, line, captures) <==> Scan(p, line) == Some(captures)
  {
    if Matches(p, line, captures) {
      var blanks, tail :| Decomposes(p, line, blanks, captures, tail);
      ScanComplete(p, line, blanks, captures, tail);
    }
    if Scan(p, line) == Some(captures) {
      var blanks, tail := ScanSound(p, line);
    }
  }

  /** Any two ways of decomposing a line give the same captures. */
  lemma CapturesUnique(p: Pattern, line: string, captures: seq<string>, others: seq<string>)
    requires Separated(p)
    requires Matches(p, line, captures) && Matches(p, line, others)
    ensures captures == others
  {
    ScanDecides(p, line, captures);
    ScanDecides(p, line, others);
  }

  /** Each capture is a string of its own group. */
  lemma {:induction false} ScanCaptures(p: Pattern, line: string)
    requires Scan(p, line).Some?
    ensures forall k :: 0 <= k < |Groups(p)| ==> InGroup(Groups(p)[k], Scan(p, line).value[k])
  {
    match p
    case End =>
    case Lit(t, rest) => ScanCaptures(rest, line[|t|..]);
    case Blank(least, rest) => ScanCaptures(rest, line[BlankRun(line)..]);
    case Group(capture, rest) =>
      LongestIsIn(capture, line);
      ScanCaptures(rest, line[Longest(capture, line)..]);
  }

  /** A captured string has no character its line lacks. */
  lemma {:induction false} CapturesFromLine(p: Pattern, line: string, c: char)
    requires Scan(p, line).Some?
    requires c !in line
    ensures forall k :: 0 <= k < |Groups(p)| ==> c !in Scan(p, line).value[k]
  {
    match p
    case End =>
    case Lit(t, rest) => CapturesFromLine(rest, line[|t|..], c);
    case Blank(least, rest) => CapturesFromLine(rest, line[BlankRun(line)..], c);
    case Group(capture, rest) => CapturesFromLine(rest, line[Longest(capture, line)..], c);
  }
}
