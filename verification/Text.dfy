/** The string operations the generator borrows from Go's `strings` and `bufio` packages,
    restricted to single-character separators and ASCII case mapping. */
module Text {

  datatype Option<+T> = None | Some(value: T)

  datatype Result<+T> = Ok(value: T) | Err(error: Failure)

  /** Why a file yields no service, or no go_package. */
  datatype Failure = OpenFailed | NoServiceName | NoGoPackage

  // ---------- characters ----------

  predicate IsBlank(c: char) {
    c == ' ' || c == '\t' || c == '\n' || c == '\r' || c == '\U{000C}'
  }

  predicate IsWord(c: char) {
    'a' <= c <= 'z' || 'A' <= c <= 'Z' || '0' <= c <= '9' || c == '_'
  }

  function Upper(c: char): char {
    if 'a' <= c <= 'z' then (c as int - 32) as char else c
  }

  function Lower(c: char): char {
    if 'A' <= c <= 'Z' then (c as int + 32) as char else c
  }

  function ToLower(s: string): (r: string)
    ensures |r| == |s|
    ensures forall k :: 0 <= k < |s| ==> r[k] == Lower(s[k])
  {
    if s == [] then [] else [Lower(s[0])] + ToLower(s[1..])
  }

  lemma SmallCode(k: nat)
    requires k < 26
    ensures "abcdefghijklmnopqrstuvwxyz"[k] as int == 'a' as int + k
  {
  }

  lemma CapitalCode(k: nat)
    requires k < 26
    ensures "ABCDEFGHIJKLMNOPQRSTUVWXYZ"[k] as int == 'A' as int + k
  {
  }

  lemma SmallLetter(c: char)
    ensures 'a' <= c <= 'z' <==> c in "abcdefghijklmnopqrstuvwxyz"
  {
    if 'a' <= c <= 'z' {
      SmallCode(c as int - 'a' as int);
      assert "abcdefghijklmnopqrstuvwxyz"[c as int - 'a' as int] == c;
    }
  }

  lemma CapitalLetter(c: char)
    ensures 'A' <= c <= 'Z' <==> c in "ABCDEFGHIJKLMNOPQRSTUVWXYZ"
  {
    if 'A' <= c <= 'Z' {
      CapitalCode(c as int - 'A' as int);
      assert "ABCDEFGHIJKLMNOPQRSTUVWXYZ"[c as int - 'A' as int] == c;
    }
  }

  /** Each small letter has its capital, every other character stays. */
  lemma UpperLetters()
    ensures forall k :: 0 <= k < 26 ==> Upper("abcdefghijklmnopqrstuvwxyz"[k]) == "ABCDEFGHIJKLMNOPQRSTUVWXYZ"[k]
    ensures forall c :: c !in "abcdefghijklmnopqrstuvwxyz" ==> Upper(c) == c
  {
    forall k: nat | k < 26
      ensures Upper("abcdefghijklmnopqrstuvwxyz"[k]) == "ABCDEFGHIJKLMNOPQRSTUVWXYZ"[k]
    {
      SmallCode(k);
      CapitalCode(k);
    }
    forall c | c !in "abcdefghijklmnopqrstuvwxyz"
      ensures Upper(c) == c
    {
      SmallLetter(c);
    }
  }

  /** Each capital has its small letter, every other character stays. */
  lemma LowerLetters()
    ensures forall k :: 0 <= k < 26 ==> Lower("ABCDEFGHIJKLMNOPQRSTUVWXYZ"[k]) == "abcdefghijklmnopqrstuvwxyz"[k]
    ensures forall c :: c !in "ABCDEFGHIJKLMNOPQRSTUVWXYZ" ==> Lower(c) == c
  {
    forall k: nat | k < 26
      ensures Lower("ABCDEFGHIJKLMNOPQRSTUVWXYZ"[k]) == "abcdefghijklmnopqrstuvwxyz"[k]
    {
      SmallCode(k);
      CapitalCode(k);
    }
    forall c | c !in "ABCDEFGHIJKLMNOPQRSTUVWXYZ"
      ensures Lower(c) == c
    {
      CapitalLetter(c);
    }
  }

  /** `small` is `s` with the capital letters made small. */
  ghost predicate InLowerCase(small: string, s: string) {
    && |small| == |s|
    && forall k :: 0 <= k < |s| ==> IsSmall(small[k], s[k])
  }

  ghost predicate IsSmall(small: char, c: char) {
    if c in "ABCDEFGHIJKLMNOPQRSTUVWXYZ" then
      exists k :: 0 <= k < 26 && c == "ABCDEFGHIJKLMNOPQRSTUVWXYZ"[k] && small == "abcdefghijklmnopqrstuvwxyz"[k]
    else small == c
  }

  lemma LowerIsSmall(c: char)
    ensures IsSmall(Lower(c), c)
  {
    CapitalLetter(c);
    if 'A' <= c <= 'Z' {
      var k := c as int - 'A' as int;
      CapitalCode(k);
      SmallCode(k);
    }
  }

  lemma ToLowerMeaning(s: string)
    ensures InLowerCase(ToLower(s), s)
  {
    forall k | 0 <= k < |s|
      ensures IsSmall(ToLower(s)[k], s[k])
    {
      LowerIsSmall(s[k]);
    }
  }

  ghost predicate NoCapitals(s: string) {
    forall k :: 0 <= k < |s| ==> s[k] !in "ABCDEFGHIJKLMNOPQRSTUVWXYZ"
  }

  lemma SmallIsNotCapital(small: char, c: char)
    requires IsSmall(small, c)
    ensures small !in "ABCDEFGHIJKLMNOPQRSTUVWXYZ"
  {
    CapitalLetter(small);
    if c in "ABCDEFGHIJKLMNOPQRSTUVWXYZ" {
      var k: nat :| k < 26 && small == "abcdefghijklmnopqrstuvwxyz"[k];
      SmallCode(k);
    }
  }

  lemma LowerCaseHasNoCapitals(small: string, s: string)
    requires InLowerCase(small, s)
    ensures NoCapitals(small)
  {
    forall k | 0 <= k < |s|
      ensures small[k] !in "ABCDEFGHIJKLMNOPQRSTUVWXYZ"
    {
      SmallIsNotCapital(small[k], s[k]);
    }
  }

  lemma NoCapitalsAppend(a: string, b: string)
    requires NoCapitals(a) && NoCapitals(b)
    ensures NoCapitals(a + b)
  {
  }

  // ---------- suffixes ----------

  predicate HasSuffix(s: string, suffix: string) {
    |suffix| <= |s| && s[|s| - |suffix|..] == suffix
  }

  function TrimSuffix(s: string, suffix: string): string {
    if HasSuffix(s, suffix) then s[..|s| - |suffix|] else s
  }

  // ---------- cutting at a character ----------

  function Before(s: string, c: char): string {
    if s == [] || s[0] == c then [] else [s[0]] + Before(s[1..], c)
  }

  function After(s: string, c: char): string {
    if s == [] then [] else if s[0] == c then s[1..] else After(s[1..], c)
  }

  /** A character that `a` lacks cuts `a + [c] + b` exactly between `a` and `b`. */
  lemma {:induction false} CutAt(a: string, c: char, b: string)
    requires c !in a
    ensures Before(a + [c] + b, c) == a
    ensures After(a + [c] + b, c) == b
  {
    var s := a + [c] + b;
    if a == [] {
      assert s == [c] + b;
    } else {
      assert s[1..] == a[1..] + [c] + b;
      CutAt(a[1..], c, b);
    }
  }

  // ---------- Split and Join ----------

  /** strings.Split with a one-character separator: never empty. */
  function Split(s: string, c: char): (r: seq<string>)
    ensures |r| >= 1
  {
    if s == [] then [[]]
    else
      var rest := Split(s[1..], c);
      if s[0] == c then [[]] + rest else [[s[0]] + rest[0]] + rest[1..]
  }

  /** No piece contains the separator. */
  lemma {:induction false} PiecesAreFree(s: string, c: char)
    ensures forall k :: 0 <= k < |Split(s, c)| ==> c !in Split(s, c)[k]
  {
    if s != [] {
      PiecesAreFree(s[1..], c);
    }
  }

  function Join(parts: seq<string>, separator: string): string {
    if parts == [] then []
    else if |parts| == 1 then parts[0]
    else parts[0] + separator + Join(parts[1..], separator)
  }

  /** A separator cuts the pieces in two. */
  lemma {:induction false} SplitAppend(a: string, c: char, b: string)
    ensures Split(a + [c] + b, c) == Split(a, c) + Split(b, c)
  {
    var s := a + [c] + b;
    if a == [] {
      assert s == [c] + b;
    } else {
      assert s[1..] == a[1..] + [c] + b;
      SplitAppend(a[1..], c, b);
    }
  }

  lemma {:induction false} SplitWhole(a: string, c: char)
    requires c !in a
    ensures Split(a, c) == [a]
  {
    if a != [] {
      SplitWhole(a[1..], c);
      assert [a[0]] + a[1..] == a;
    }
  }

  /** Joining what was split gives the string back. */
  lemma {:induction false} JoinSplit(s: string, c: char)
    ensures Join(Split(s, c), [c]) == s
  {
    if s != [] {
      JoinSplit(s[1..], c);
      var rest := Split(s[1..], c);
      if s[0] == c {
        assert ([[]] + rest)[1..] == rest;
      } else {
        var r := [[s[0]] + rest[0]] + rest[1..];
        assert r[1..] == rest[1..];
        if |rest| > 1 {
          assert Join(r, [c]) == [s[0]] + (rest[0] + [c] + Join(rest[1..], [c]));
        }
      }
    }
  }

  lemma SplitAtFirst(a: string, c: char, b: string)
    requires c !in a
    ensures Split(a + [c] + b, c) == [a] + Split(b, c)
  {
    SplitAppend(a, c, b);
    SplitWhole(a, c);
  }

  /** Splitting what was joined gives the parts back. */
  lemma {:induction false} SplitJoin(parts: seq<string>, c: char)
    requires parts != []
    requires forall k :: 0 <= k < |parts| ==> c !in parts[k]
    ensures Split(Join(parts, [c]), c) == parts
  {
    if |parts| == 1 {
      SplitWhole(parts[0], c);
    } else {
      SplitJoin(parts[1..], c);
      var tail := Join(parts[1..], [c]);
      SplitAtFirst(parts[0], c, tail);
      assert Join(parts, [c]) == parts[0] + [c] + tail;
      assert parts == [parts[0]] + parts[1..];
    }
  }

  /** The text after the last separator. */
  function LastPiece(s: string, c: char): string {
    var parts := Split(s, c);
    parts[|parts| - 1]
  }

  /** A text is its last piece, or ends in a separator and its last piece. */
  lemma LastPieceExact(s: string, c: char) returns (before: string)
    ensures c !in LastPiece(s, c) && (s == LastPiece(s, c) || s == before + [c] + LastPiece(s, c))
  {
    var parts := Split(s, c);
    var n := |parts| - 1;
    PiecesAreFree(s, c);
    JoinSplit(s, c);
    before := Join(parts[..n], [c]);
    if n > 0 {
      JoinLast(parts[..n], [c], parts[n]);
      assert parts[..n] + [parts[n]] == parts;
    }
  }

  lemma {:induction false} JoinLast(parts: seq<string>, separator: string, last: string)
    requires parts != []
    ensures Join(parts + [last], separator) == Join(parts, separator) + separator + last
  {
    assert (parts + [last])[1..] == parts[1..] + [last];
    if |parts| > 1 {
      JoinLast(parts[1..], separator, last);
      assert Join(parts + [last], separator) == parts[0] + separator + (Join(parts[1..], separator) + separator + last);
    } else {
      assert Join([last], separator) == last;
    }
  }

  /** A tail without separators only lengthens the last piece. */
  lemma LastPieceAppend(s: string, c: char, tail: string)
    requires c !in tail
    ensures |Split(s + tail, c)| == |Split(s, c)|
    ensures LastPiece(s + tail, c) == LastPiece(s, c) + tail
  {
    var before := LastPieceExact(s, c);
    var last := LastPiece(s, c);
    SplitWhole(last, c);
    SplitWhole(last + tail, c);
    if s != last {
      assert s + tail == before + [c] + (last + tail);
      SplitAppend(before, c, last);
      SplitAppend(before, c, last + tail);
    }
  }

  /** Splitting brings in no new characters. */
  lemma {:induction false} PieceChars(s: string, c: char, d: char)
    requires d !in s
    ensures forall k :: 0 <= k < |Split(s, c)| ==> d !in Split(s, c)[k]
  {
    if s != [] {
      PieceChars(s[1..], c, d);
    }
  }

  // ---------- lines ----------

  function DropCarriageReturn(line: string): string {
    if line != [] && line[|line| - 1] == '\r' then line[..|line| - 1] else line
  }

  function DropEach(lines: seq<string>): (r: seq<string>)
    ensures |r| == |lines|
  {
    if lines == [] then [] else [DropCarriageReturn(lines[0])] + DropEach(lines[1..])
  }

  lemma {:induction false} DropEachAt(lines: seq<string>, k: nat)
    requires k < |lines|
    ensures DropEach(lines)[k] == DropCarriageReturn(lines[k])
  {
    if k > 0 {
      DropEachAt(lines[1..], k - 1);
    }
  }

  /** What a default `bufio.Scanner` yields: the newline-separated pieces, without an empty
      last piece, each without one trailing carriage return. */
  function Lines(text: string): seq<string> {
    var pieces := Split(text, '\n');
    DropEach(if pieces[|pieces| - 1] == [] then pieces[..|pieces| - 1] else pieces)
  }

  lemma LineAt(text: string, k: nat)
    requires k < |Lines(text)|
    ensures k < |Split(text, '\n')| && Lines(text)[k] == DropCarriageReturn(Split(text, '\n')[k])
  {
    var pieces := Split(text, '\n');
    DropEachAt(if pieces[|pieces| - 1] == [] then pieces[..|pieces| - 1] else pieces, k);
  }

  lemma LineHasNoNewline(text: string, k: nat)
    requires k < |Lines(text)|
    ensures '\n' !in Lines(text)[k]
  {
    LineAt(text, k);
    PiecesAreFree(text, '\n');
  }

  ghost predicate NoNewlines(texts: seq<string>) {
    forall k :: 0 <= k < |texts| ==> '\n' !in texts[k]
  }

  lemma NoNewlinesAppend(a: seq<string>, b: seq<string>)
    requires NoNewlines(a) && NoNewlines(b)
    ensures NoNewlines(a + b)
  {
  }

  /** Lines written with a newline after each. */
  function TextOf(lines: seq<string>): string {
    Join(lines + [""], "\n")
  }

  lemma {:induction false} DropEachKeeps(lines: seq<string>)
    requires forall k :: 0 <= k < |lines| ==> DropCarriageReturn(lines[k]) == lines[k]
    ensures DropEach(lines) == lines
  {
    if lines != [] {
      DropEachKeeps(lines[1..]);
      assert lines == [lines[0]] + lines[1..];
    }
  }

  /** A scanner gives back the lines that were written. */
  lemma LinesOfText(lines: seq<string>)
    requires NoNewlines(lines)
    requires forall k :: 0 <= k < |lines| ==> DropCarriageReturn(lines[k]) == lines[k]
    ensures Lines(TextOf(lines)) == lines
  {
    var pieces := lines + [""];
    SplitJoin(pieces, '\n');
    assert pieces[..|pieces| - 1] == lines;
    DropEachKeeps(lines);
  }

  /** `line` is `raw` without one carriage return at its end. */
  ghost predicate IsLineOf(line: string, raw: string) {
    raw == line + "\r" || (raw == line && (raw == "" || raw[|raw| - 1] != '\r'))
  }

  lemma DropIsLineOf(raw: string)
    ensures IsLineOf(DropCarriageReturn(raw), raw)
  {
    var n := |raw| - 1;
    assert raw != "" ==> raw == raw[..n] + [raw[n]];
  }

  /** What a scanner reads from any text: a newline ends a line, and what follows the last newline is a
      line unless it is empty. */
  lemma LinesOfRaw(raw: seq<string>, last: string)
    requires NoNewlines(raw) && '\n' !in last
    ensures var lines := Lines(Join(raw + [last], "\n"));
            && |lines| == |raw| + (if last == "" then 0 else 1)
            && (forall k :: 0 <= k < |raw| ==> IsLineOf(lines[k], raw[k]))
            && (last != "" ==> IsLineOf(lines[|raw|], last))
  {
    var pieces := raw + [last];
    SplitJoin(pieces, '\n');
    var lines := Lines(Join(pieces, "\n"));
    forall k: nat | k < |lines|
      ensures IsLineOf(lines[k], pieces[k])
    {
      LineAt(Join(pieces, "\n"), k);
      DropIsLineOf(pieces[k]);
    }
  }

  /** Every text is of this form. */
  lemma EveryText(text: string) returns (raw: seq<string>, last: string)
    ensures NoNewlines(raw) && '\n' !in last && text == Join(raw + [last], "\n")
  {
    var pieces := Split(text, '\n');
    PiecesAreFree(text, '\n');
    JoinSplit(text, '\n');
    raw, last := pieces[..|pieces| - 1], pieces[|pieces| - 1];
    assert raw + [last] == pieces;
  }
}
