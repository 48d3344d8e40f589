/** Absolute, cleaned slash-separated paths as sequences of element names, and the parts of Go's
    `path/filepath` the generator uses on them. */
module Paths {
  import opened Text

  predicate IsName(e: string) {
    e != "" && e != "." && e != ".." && '/' !in e
  }

  type Name = e: string | IsName(e) witness "a"

  type Path = seq<Name>

  type Files = map<Path, string>

  // ---------- Join ----------

  /** One element of a relative path: `..` goes up (and stays at the root), a name goes down, and the
      only other elements a split path has, the empty one and `.`, stay. */
  function Push(dir: Path, e: string): Path {
    if e == ".." then (if dir == [] then dir else dir[..|dir| - 1])
    else if IsName(e) then dir + [e]
    else dir
  }

  function Walk(dir: Path, elements: seq<string>): Path {
    if elements == [] then dir
    else Push(Walk(dir, elements[..|elements| - 1]), elements[|elements| - 1])
  }

  /** filepath.Join(dir, relative). */
  function JoinPath(dir: Path, relative: string): Path {
    Walk(dir, Split(relative, '/'))
  }

  /** When the last element is an ordinary name it is the last element of the joined path. */
  lemma JoinPathLast(dir: Path, relative: string)
    requires IsName(LastPiece(relative, '/'))
    ensures var p := JoinPath(dir, relative); p != [] && p[|p| - 1] == LastPiece(relative, '/')
  {
  }

  lemma JoinPathName(dir: Path, name: string)
    requires IsName(name)
    ensures JoinPath(dir, name) == dir + [name]
  {
    SplitWhole(name, '/');
    assert Walk(dir, []) == dir;
    assert [name][..0] == [];
  }

  // ---------- Dir, Base and Ext ----------

  function Dir(p: Path): Path {
    if p == [] then p else p[..|p| - 1]
  }

  function LastName(p: Path): string {
    if p == [] then "/" else p[|p| - 1]
  }

  function StripSlashes(s: string): string {
    if s != "" && s[|s| - 1] == '/' then StripSlashes(s[..|s| - 1]) else s
  }

  /** filepath.Base on a string: the last element, trailing slashes removed. */
  function Base(s: string): string {
    if s == "" then "."
    else if StripSlashes(s) == "" then "/"
    else LastPiece(StripSlashes(s), '/')
  }

  /** filepath.Ext: the last dot of the last element and what follows it, empty when there is no dot.
      Unlike Base it does not look behind a trailing slash. */
  function Ext(s: string): string {
    var last := LastPiece(s, '/');
    if '.' in last then "." + LastPiece(last, '.') else ""
  }

  /** The base name without its extension. */
  function Stem(s: string): string {
    TrimSuffix(Base(s), Ext(s))
  }

  lemma LastPieceOf(before: string, c: char, last: string)
    requires c !in last
    ensures LastPiece(before + [c] + last, c) == last
  {
    SplitAppend(before, c, last);
    SplitWhole(last, c);
  }

  /** What stands before the last element of a path: nothing, or something that ends in a slash. */
  ghost predicate IsFront(before: string) {
    before == "" || before[|before| - 1] == '/'
  }

  lemma LastElement(before: string, last: string)
    requires IsFront(before) && '/' !in last
    ensures LastPiece(before + last, '/') == last
  {
    if before == "" {
      assert before + last == last;
      SplitWhole(last, '/');
    } else {
      assert before == before[..|before| - 1] + ['/'];
      LastPieceOf(before[..|before| - 1], '/', last);
    }
  }

  lemma {:induction false} StripsSlashes(s: string, slashes: string)
    requires s == "" || s[|s| - 1] != '/'
    requires forall k :: 0 <= k < |slashes| ==> slashes[k] == '/'
    ensures StripSlashes(s + slashes) == s
    decreases |slashes|
  {
    if slashes == "" {
      assert s + slashes == s;
    } else {
      assert (s + slashes)[..|s + slashes| - 1] == s + slashes[..|slashes| - 1];
      StripsSlashes(s, slashes[..|slashes| - 1]);
    }
  }

  lemma StemOfLast(s: string, name: string, ext: string)
    requires s != "" && s[|s| - 1] != '/' && '.' !in ext
    requires LastPiece(s, '/') == name + "." + ext
    ensures Stem(s) == name
  {
    var last := name + "." + ext;
    LastPieceOf(name, '.', ext);
    assert Ext(s) == "." + ext;
    assert last == name + ("." + ext);
    assert last[|name|..] == "." + ext;
  }

  lemma EndsUnlikeSlash(before: string, last: string)
    requires last != "" && '/' !in last
    ensures (before + last)[|before + last| - 1] != '/'
  {
    assert (before + last)[|before + last| - 1] == last[|last| - 1];
  }

  /** A name with an extension loses it. */
  lemma StemExtension(before: string, name: string, ext: string)
    requires IsFront(before) && '/' !in name && '/' !in ext && '.' !in ext
    ensures Stem(before + (name + "." + ext)) == name
  {
    var last := name + "." + ext;
    LastElement(before, last);
    EndsUnlikeSlash(before, last);
    StemOfLast(before + last, name, ext);
  }

  /** A name without one stays. */
  lemma StemPlain(before: string, last: string)
    requires IsFront(before) && last != "" && '/' !in last && '.' !in last
    ensures Stem(before + last) == last
  {
    LastElement(before, last);
    assert (before + last)[|before + last| - 1] == last[|last| - 1];
  }

  /** Behind a slash at the end of the path the name stays too, whatever its extension. */
  lemma StemTrailing(before: string, last: string, slashes: string)
    requires IsFront(before) && last != "" && '/' !in last
    requires slashes != "" && forall k :: 0 <= k < |slashes| ==> slashes[k] == '/'
    ensures Stem(before + last + slashes) == last
  {
    var s := before + last;
    LastElement(before, last);
    StripsSlashes(s, slashes);
    assert IsFront(s + slashes);
    assert s + slashes + "" == s + slashes;
    LastElement(s + slashes, "");
  }

  /** The alias an ordinary import path `dir/name.ext` declares is `name`. */
  lemma StemOfImport(dir: string, name: string, ext: string)
    requires '/' !in name && '/' !in ext && '.' !in ext
    ensures Stem(dir + "/" + name + "." + ext) == name
  {
    StemExtension(dir + "/", name, ext);
    assert dir + "/" + name + "." + ext == dir + "/" + (name + "." + ext);
  }

  lemma StemOfFile(name: string, ext: string)
    requires '/' !in name && '/' !in ext && '.' !in ext
    ensures Stem(name + "." + ext) == name
  {
    StemExtension("", name, ext);
    assert "" + (name + "." + ext) == name + "." + ext;
  }

  /** Joining `d/e` goes down two names. */
  lemma JoinPathTwo(dir: Path, d: string, e: string)
    requires IsName(d) && IsName(e)
    ensures JoinPath(dir, d + "/" + e) == dir + [d] + [e]
  {
    JoinPathAppend(dir, d, e);
    JoinPathName(dir, d);
    JoinPathName(dir + [d], e);
  }

  lemma {:induction false} WalkAppend(dir: Path, a: seq<string>, b: seq<string>)
    ensures Walk(dir, a + b) == Walk(Walk(dir, a), b)
    decreases |b|
  {
    if b == [] {
      assert a + b == a;
    } else {
      var n := |b| - 1;
      assert (a + b)[..|a + b| - 1] == a + b[..n];
      WalkAppend(dir, a, b[..n]);
    }
  }

  /** Joining a longer relative path is joining its parts one after the other. */
  lemma JoinPathAppend(dir: Path, a: string, b: string)
    ensures JoinPath(dir, a + "/" + b) == JoinPath(JoinPath(dir, a), b)
  {
    SplitAppend(a, '/', b);
    WalkAppend(dir, Split(a, '/'), Split(b, '/'));
  }

  /** An empty element and a single dot stay where they are. */
  lemma JoinPathStays(dir: Path, relative: string)
    ensures JoinPath(dir, "") == dir && JoinPath(dir, ".") == dir
    ensures JoinPath(dir, "/" + relative) == JoinPath(dir, relative)
    ensures JoinPath(dir, "./" + relative) == JoinPath(dir, relative)
  {
    SplitWhole("", '/');
    SplitWhole(".", '/');
    assert [""][..0] == [] && ["."][..0] == [];
    assert Walk(dir, [""]) == dir && Walk(dir, ["."]) == dir;
    JoinPathAppend(dir, "", relative);
    JoinPathAppend(dir, ".", relative);
    assert "" + "/" + relative == "/" + relative && "." + "/" + relative == "./" + relative;
  }

  /** Two dots in front of any relative path look it up in the parent directory; the root is its own. */
  lemma JoinPathUp(dir: Path, relative: string)
    ensures JoinPath(dir, "../" + relative) == JoinPath(Dir(dir), relative)
  {
    assert "../" + relative == ".." + "/" + relative;
    JoinPathAppend(dir, "..", relative);
    SplitWhole("..", '/');
    assert [".."][..0] == [];
    assert Walk(dir, [".."]) == Dir(dir);
  }

  // ---------- directory listings ----------

  /** Byte order on names, as os.ReadDir and filepath.Glob sort. */
  predicate Leq(a: string, b: string) {
    a == [] || (b != [] && (a[0] < b[0] || (a[0] == b[0] && Leq(a[1..], b[1..]))))
  }

  lemma LeqTotal(a: string, b: string)
    ensures Leq(a, b) || Leq(b, a)
  {
  }

  lemma LeqAntisymmetric(a: string, b: string)
    requires Leq(a, b) && Leq(b, a)
    ensures a == b
  {
    if a != [] {
      LeqAntisymmetric(a[1..], b[1..]);
      assert a == [a[0]] + a[1..] && b == [b[0]] + b[1..];
    }
  }

  lemma LeqTransitive(a: string, b: string, c: string)
    requires Leq(a, b) && Leq(b, c)
    ensures Leq(a, c)
  {
  }

  /** `a` ends where `b` goes on, or has the smaller character where they first differ, at `n`. */
  ghost predicate DiffersBefore(a: string, b: string, n: nat) {
    n <= |a| && n < |b| && a[..n] == b[..n] && (n == |a| || a[n] < b[n])
  }

  ghost predicate ComesBefore(a: string, b: string) {
    exists n: nat :: DiffersBefore(a, b, n)
  }

  lemma LeqMeaning(a: string, b: string)
    requires Leq(a, b) && a != b
    ensures ComesBefore(a, b)
  {
    if a == [] || a[0] != b[0] {
      assert DiffersBefore(a, b, 0);
    } else {
      assert a == [a[0]] + a[1..] && b == [b[0]] + b[1..];
      LeqMeaning(a[1..], b[1..]);
      var n: nat :| DiffersBefore(a[1..], b[1..], n);
      assert a[..n + 1] == [a[0]] + a[1..][..n] && b[..n + 1] == [b[0]] + b[1..][..n];
      assert DiffersBefore(a, b, n + 1);
    }
  }

  predicate IsLeast(m: Name, s: set<Name>) {
    m in s && forall x :: x in s ==> Leq(m, x)
  }

  lemma LeastExists(s: set<Name>)
    requires s != {}
    ensures exists m: Name :: IsLeast(m, s)
  {
    var m :| m in s;
    LeqTotal(m, m);
    if s == {m} {
      assert IsLeast(m, s);
    } else {
      var rest := s - {m};
      assert s == rest + {m};
      LeastExists(rest);
      var other: Name :| IsLeast(other, rest);
      LeqTotal(m, other);
      if Leq(other, m) {
        assert IsLeast(other, s);
      } else {
        forall x | x in rest
          ensures Leq(m, x)
        {
          LeqTransitive(m, other, x);
        }
        assert IsLeast(m, s);
      }
    }
  }

  lemma LeastUnique(s: set<Name>)
    ensures forall x: Name, y: Name :: IsLeast(x, s) && IsLeast(y, s) ==> x == y
  {
    forall x: Name, y: Name | IsLeast(x, s) && IsLeast(y, s)
      ensures x == y
    {
      LeqAntisymmetric(x, y);
    }
  }

  /** The names of a set in increasing order. */
  function Sorted(s: set<Name>): (r: seq<Name>) {
    if s == {} then []
    else
      LeastExists(s);
      LeastUnique(s);
      var m: Name :| IsLeast(m, s);
      [m] + Sorted(s - {m})
  }

  /** Sorting a set lists each of its names once, in increasing order. */
  lemma {:induction false} SortedMeaning(s: set<Name>)
    ensures forall x: Name :: x in Sorted(s) <==> x in s
    ensures forall i, j :: 0 <= i < j < |Sorted(s)| ==> Leq(Sorted(s)[i], Sorted(s)[j]) && Sorted(s)[i] != Sorted(s)[j]
  {
    if s != {} {
      LeastExists(s);
      LeastUnique(s);
      var m: Name :| IsLeast(m, s);
      SortedMeaning(s - {m});
      assert Sorted(s) == [m] + Sorted(s - {m});
      assert forall j :: 0 < j < |Sorted(s)| ==> Sorted(s)[j] == Sorted(s - {m})[j - 1] && Sorted(s)[j] in s - {m};
    }
  }
}
