/** The name conversion behind every generated identifier.

    The generator splits at underscores, capitalises each piece in place and joins. The reference
    here is a single pass over the characters; `CapitalizedPieces` proves the two equal. */
module CamelCase {
  import opened Text

  /** One pass: drop each underscore and capitalise the character after it. `start` says whether
      the next character begins a piece. */
  function Camelize(s: string, start: bool): string {
    if s == [] then []
    else if s[0] == '_' then Camelize(s[1..], true)
    else [if start then Upper(s[0]) else s[0]] + Camelize(s[1..], false)
  }

  /** The conversion of a possibly qualified name: the first dot-separated piece is kept as it is,
      the second is converted, and any further piece is lost. */
  function Camel(s: string): string {
    if '.' in s then
      var pieces := Split(s, '.');
      DotSplits(s);
      pieces[0] + "." + Camelize(pieces[1], true)
    else Camelize(s, true)
  }

  lemma {:induction false} DotSplits(s: string)
    requires '.' in s
    ensures |Split(s, '.')| >= 2
  {
    if s[0] != '.' {
      DotSplits(s[1..]);
    }
  }

  // ---------- split, capitalise, join ----------

  function Capitalize(piece: string): string {
    if piece == [] then [] else [Upper(piece[0])] + piece[1..]
  }

  function CapitalizeAll(pieces: seq<string>): (r: seq<string>)
    ensures |r| == |pieces|
    ensures forall k :: 0 <= k < |r| ==> r[k] == Capitalize(pieces[k])
  {
    if pieces == [] then [] else [Capitalize(pieces[0])] + CapitalizeAll(pieces[1..])
  }

  lemma JoinFirst(parts: seq<string>)
    requires parts != []
    ensures Join(parts, "") == parts[0] + Join(parts[1..], "")
  {
    if |parts| == 1 {
      assert parts[0] + [] == parts[0];
    } else {
      assert parts[0] + "" == parts[0];
    }
  }

  /** Splitting at underscores, capitalising every piece and joining is the single pass. */
  lemma {:induction false} CapitalizedPieces(s: string)
    ensures Join(CapitalizeAll(Split(s, '_')), "") == Camelize(s, true)
    ensures Split(s, '_')[0] + Join(CapitalizeAll(Split(s, '_')[1..]), "") == Camelize(s, false)
  {
    var pieces := Split(s, '_');
    JoinFirst(CapitalizeAll(pieces));
    assert CapitalizeAll(pieces)[1..] == CapitalizeAll(pieces[1..]);
    if s != [] {
      CapitalizedPieces(s[1..]);
      var rest := Split(s[1..], '_');
      JoinFirst(CapitalizeAll(rest));
      assert CapitalizeAll(rest)[1..] == CapitalizeAll(rest[1..]);
      assert pieces[1..] == if s[0] == '_' then rest else rest[1..];
    }
  }

  // ---------- laws ----------

  lemma {:induction false} CamelizeAlphabet(s: string, start: bool)
    ensures '_' !in Camelize(s, start)
    ensures '.' !in s ==> '.' !in Camelize(s, start)
    ensures (forall k :: 0 <= k < |s| ==> IsWord(s[k])) ==>
              forall k :: 0 <= k < |Camelize(s, start)| ==> IsWord(Camelize(s, start)[k])
  {
    if s != [] {
      CamelizeAlphabet(s[1..], s[0] == '_');
    }
  }

  /** A text without underscores only has its first character converted. */
  lemma {:induction false} CamelizeClean(s: string)
    requires '_' !in s
    ensures Camelize(s, false) == s
    ensures Camelize(s, true) == Capitalize(s)
  {
    if s != [] {
      CamelizeClean(s[1..]);
      assert s == [s[0]] + s[1..];
    }
  }

  /** A word without dots and underscores changes in its first letter only: a small letter becomes the
      capital one, and any other character stays. */
  lemma CamelWord(c: char, rest: string)
    requires c != '.' && c != '_' && '.' !in rest && '_' !in rest
    ensures forall k :: 0 <= k < 26 && c == "abcdefghijklmnopqrstuvwxyz"[k] ==>
              Camel([c] + rest) == ["ABCDEFGHIJKLMNOPQRSTUVWXYZ"[k]] + rest
    ensures c !in "abcdefghijklmnopqrstuvwxyz" ==> Camel([c] + rest) == [c] + rest
  {
    CamelizeClean([c] + rest);
    assert ([c] + rest)[1..] == rest;
    UpperLetters();
  }

  lemma CapitalizeTwice(s: string)
    ensures Capitalize(Camelize(s, true)) == Camelize(s, true)
    decreases |s|
  {
    if s != [] {
      if s[0] == '_' {
        CapitalizeTwice(s[1..]);
      } else {
        assert Camelize(s, true)[1..] == Camelize(s[1..], false);
      }
    }
  }

  /** A qualified name keeps what stands before its dot. */
  lemma CamelDotted(head: string, tail: string)
    requires '.' !in head && '.' !in tail
    ensures Camel(head + "." + tail) == head + "." + Camelize(tail, true)
    ensures Camel(head + "." + tail) == head + "." + Camel(tail)
  {
    SplitAtFirst(head, '.', tail);
    SplitWhole(tail, '.');
  }

  /** Converting twice is converting once. */
  lemma CamelIdempotent(s: string)
    ensures Camel(Camel(s)) == Camel(s)
  {
    if '.' in s {
      DotSplits(s);
      var pieces := Split(s, '.');
      var tail := Camelize(pieces[1], true);
      PiecesAreFree(s, '.');
      CamelizeAlphabet(pieces[1], true);
      CamelDotted(pieces[0], tail);
      CamelizeClean(tail);
      CapitalizeTwice(pieces[1]);
    } else {
      CamelizeAlphabet(s, true);
      CamelizeClean(Camelize(s, true));
      CapitalizeTwice(s);
    }
  }

  lemma {:induction false} CamelizeAtUnderscore(a: string, b: string, start: bool)
    ensures Camelize(a + "_" + b, start) == Camelize(a, start) + Camelize(b, true)
  {
    var s := a + "_" + b;
    if a == [] {
      assert s[1..] == b;
    } else {
      assert s[1..] == a[1..] + "_" + b;
      CamelizeAtUnderscore(a[1..], b, a[0] == '_');
    }
  }

  /** An underscore separates words that convert independently. */
  lemma CamelAtUnderscore(a: string, b: string)
    requires '.' !in a && '.' !in b
    ensures Camel(a + "_" + b) == Camel(a) + Camel(b)
  {
    CamelizeAtUnderscore(a, b, true);
  }

  // ---------- conservation of characters ----------

  /** The positions of the characters that are not underscores, in order. */
  function Kept(s: string): (r: seq<nat>)
    ensures forall k :: 0 <= k < |r| ==> r[k] < |s|
  {
    if s == [] then []
    else
      var n := |s| - 1;
      Kept(s[..n]) + if s[n] == '_' then [] else [n]
  }

  lemma {:induction false} KeptMeaning(s: string)
    ensures forall i, j :: 0 <= i < j < |Kept(s)| ==> Kept(s)[i] < Kept(s)[j]
    ensures forall p: nat :: p in Kept(s) <==> p < |s| && s[p] != '_'
  {
    if s != [] {
      var n := |s| - 1;
      KeptMeaning(s[..n]);
      assert forall p :: 0 <= p < n ==> s[..n][p] == s[p];
    }
  }

  predicate BeginsPiece(s: string, p: nat)
    requires p < |s|
  {
    p == 0 || s[p - 1] == '_'
  }

  /** What becomes of the character at a position. */
  function Converted(s: string, p: nat): char
    requires p < |s|
  {
    if BeginsPiece(s, p) then Upper(s[p]) else s[p]
  }

  lemma {:induction false} CamelizeSnoc(s: string, c: char, start: bool)
    ensures Camelize(s + [c], start)
         == Camelize(s, start)
            + if c == '_' then [] else [if (s == [] && start) || (s != [] && s[|s| - 1] == '_') then Upper(c) else c]
  {
    if s == [] {
      assert [c][1..] == [];
    } else {
      assert (s + [c])[1..] == s[1..] + [c];
      CamelizeSnoc(s[1..], c, s[0] == '_');
    }
  }

  /** The output is the input without its underscores, with exactly the characters that begin a
      piece capitalised. */
  lemma {:induction false} CamelizeConserves(s: string)
    ensures |Camelize(s, true)| == |Kept(s)|
    ensures forall k :: 0 <= k < |Kept(s)| ==> Camelize(s, true)[k] == Converted(s, Kept(s)[k])
  {
    if s != [] {
      var n := |s| - 1;
      var before, out := Kept(s[..n]), Camelize(s[..n], true);
      CamelizeConserves(s[..n]);
      assert s == s[..n] + [s[n]];
      CamelizeSnoc(s[..n], s[n], true);
      forall k | 0 <= k < |before|
        ensures out[k] == Converted(s, before[k])
      {
        assert out[k] == Converted(s[..n], before[k]);
      }
    }
  }

  function Underscores(s: string): nat {
    if s == [] then 0 else (if s[0] == '_' then 1 else 0) + Underscores(s[1..])
  }

  lemma {:induction false} CamelizeLength(s: string, start: bool)
    ensures |Camelize(s, start)| + Underscores(s) == |s|
  {
    if s != [] {
      CamelizeLength(s[1..], s[0] == '_');
    }
  }

  /** With at most one dot the length drops by exactly the underscores after the dot, or by all of
      them when there is none. */
  lemma CamelLength(head: string, tail: string)
    requires '.' !in head && '.' !in tail
    ensures |Camel(head + "." + tail)| + Underscores(tail) == |head + "." + tail|
    ensures |Camel(tail)| + Underscores(tail) == |tail|
  {
    CamelDotted(head, tail);
    CamelizeLength(tail, true);
  }

  /** From a second dot on everything is lost. */
  lemma CamelDropsThirdPiece(head: string, middle: string, rest: string)
    requires '.' !in head && '.' !in middle
    ensures Camel(head + "." + middle + "." + rest) == Camel(head + "." + middle)
  {
    CamelDotted(head, middle);
    assert head + "." + middle + "." + rest == head + "." + (middle + "." + rest);
    SplitAtFirst(head, '.', middle + "." + rest);
    SplitAtFirst(middle, '.', rest);
  }

  // ---------- when two names collide ----------

  /** The two texts keep equally many characters, and these agree one by one, each taken in upper case
      where it begins a piece. */
  ghost predicate Collide(a: string, b: string) {
    |Kept(a)| == |Kept(b)| && forall k :: 0 <= k < |Kept(a)| ==> Converted(a, Kept(a)[k]) == Converted(b, Kept(b)[k])
  }

  /** Dot-free names convert alike exactly when they collide. */
  lemma CamelEqual(a: string, b: string)
    requires '.' !in a && '.' !in b
    ensures Camel(a) == Camel(b) <==> Collide(a, b)
  {
    CamelizeConserves(a);
    CamelizeConserves(b);
  }

  ghost predicate SameButFirstCase(a: string, b: string) {
    |a| == |b| && (a != [] ==> Upper(a[0]) == Upper(b[0]) && a[1..] == b[1..])
  }

  /** Names without dots and underscores collide exactly when they differ at most in the case of
      their first letter. */
  lemma CamelCollision(a: string, b: string)
    requires '.' !in a && '_' !in a && '.' !in b && '_' !in b
    ensures Camel(a) == Camel(b) <==> SameButFirstCase(a, b)
  {
    CamelizeClean(a);
    CamelizeClean(b);
    if Capitalize(a) == Capitalize(b) && a != [] {
      assert Capitalize(a)[1..] == a[1..] && Capitalize(b)[1..] == b[1..];
    }
  }

  /** Distinct names that begin with lower-case letters do not collide. */
  lemma LowerNamesApart(a: string, b: string)
    requires a != "" && b != "" && 'a' <= a[0] <= 'z' && 'a' <= b[0] <= 'z'
    requires a != b
    ensures !SameButFirstCase(a, b)
  {
    assert a == [a[0]] + a[1..] && b == [b[0]] + b[1..];
  }

  // ---------- the full method name ----------

  const FULL_METHOD_NAME := "FullMethodName"

  function FullMethodName(service: string, name: string): string {
    Camel(service) + "_" + Camel(name) + "_" + FULL_METHOD_NAME
  }

  ghost predicate IsWordText(s: string) {
    forall k :: 0 <= k < |s| ==> IsWord(s[k])
  }

  lemma SplitThree(a: string, b: string, c: string, separator: char)
    requires separator !in a && separator !in b && separator !in c
    ensures Split(a + [separator] + b + [separator] + c, separator) == [a, b, c]
  {
    var tail := b + [separator] + c;
    assert a + [separator] + b + [separator] + c == a + [separator] + tail;
    SplitAtFirst(a, separator, tail);
    SplitAtFirst(b, separator, c);
    SplitWhole(c, separator);
  }

  /** The full name splits at underscores into exactly three fields, the first two being the
      converted service and method. */
  lemma FullMethodNameDecodes(service: string, name: string)
    requires IsWordText(service) && IsWordText(name)
    ensures Split(FullMethodName(service, name), '_') == [Camel(service), Camel(name), "FullMethodName"]
  {
    CamelizeAlphabet(service, true);
    CamelizeAlphabet(name, true);
    SplitThree(Camel(service), Camel(name), FULL_METHOD_NAME, '_');
  }

  /** Equal full names come from equal converted pairs. */
  lemma FullMethodNameInjective(s1: string, m1: string, s2: string, m2: string)
    requires IsWordText(s1) && IsWordText(m1) && IsWordText(s2) && IsWordText(m2)
    ensures FullMethodName(s1, m1) == FullMethodName(s2, m2) <==> Camel(s1) == Camel(s2) && Camel(m1) == Camel(m2)
  {
    FullMethodNameDecodes(s1, m1);
    FullMethodNameDecodes(s2, m2);
    var a, b := Split(FullMethodName(s1, m1), '_'), Split(FullMethodName(s2, m2), '_');
    assert a[0] == Camel(s1) && b[0] == Camel(s2) && a[1] == Camel(m1) && b[1] == Camel(m2);
  }

  // ---------- the method ----------

  /** Rewrites the parts array in place, as the generator does. */
  method ToCamelCase(s: string) returns (r: string)
    ensures r == Camel(s)
  {
    var pkg, ss := "", s;
    if '.' in ss {
      var sl := Split(ss, '.');
      DotSplits(s);
      ss := sl[1];
      pkg := sl[0] + ".";
    }
    var pieces := Split(ss, '_');
    var parts := new string[|pieces|](i requires 0 <= i < |pieces| => pieces[i]);
    for i := 0 to parts.Length
      invariant forall k :: 0 <= k < i ==> parts[k] == Capitalize(pieces[k])
      invariant forall k :: i <= k < parts.Length ==> parts[k] == pieces[k]
    {
      var p := parts[i];
      if |p| > 0 {
        parts[i] := [Upper(p[0])] + p[1..];
      }
    }
    PiecesJoin(ss, parts[..]);
    r := pkg + Join(parts[..], "");
  }

  lemma PiecesJoin(s: string, parts: seq<string>)
    requires |parts| == |Split(s, '_')|
    requires forall k :: 0 <= k < |parts| ==> parts[k] == Capitalize(Split(s, '_')[k])
    ensures Join(parts, "") == Camelize(s, true)
  {
    assert parts == CapitalizeAll(Split(s, '_'));
    CapitalizedPieces(s);
  }
}
