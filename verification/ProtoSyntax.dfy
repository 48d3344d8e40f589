/** The texts that are import, go_package, service and rpc lines, spelled out character by character.

    Nothing here depends on how the four patterns are written down: each theorem says, for every line,
    that the line is read as a declaration exactly when it is that declaration's text. */
module ProtoSyntax {
  import opened Text
  import opened Patterns
  import opened ProtoLines

  // ---------- the alphabets ----------

  ghost predicate Spaces(s: string) {
    forall k :: 0 <= k < |s| ==> s[k] in " \t\n\r\U{000C}"
  }

  ghost predicate Letters(s: string) {
    forall k :: 0 <= k < |s| ==>
      'a' <= s[k] <= 'z' || 'A' <= s[k] <= 'Z' || '0' <= s[k] <= '9' || s[k] == '_'
  }

  ghost predicate PathLetters(s: string) {
    forall k :: 0 <= k < |s| ==>
      'a' <= s[k] <= 'z' || 'A' <= s[k] <= 'Z' || '0' <= s[k] <= '9' || s[k] == '_' || s[k] == '.' || s[k] == '/'
  }

  /** A name, possibly followed by a dot, possibly followed by more letters. */
  ghost predicate TypeLetters(s: string) {
    exists a, dot, b :: s == a + dot + b && a != "" && Letters(a) && (dot == "" || dot == ".") && Letters(b)
  }

  lemma SpacesAreBlank(s: string)
    ensures AllBlank(s) <==> Spaces(s)
  {
    forall c: char
      ensures IsBlank(c) <==> c in " \t\n\r\U{000C}"
    {
      SpaceIsBlank(c);
    }
  }

  lemma SpaceIsBlank(c: char)
    ensures IsBlank(c) <==> c in " \t\n\r\U{000C}"
  {
    var spaces := " \t\n\r\U{000C}";
    assert spaces[0] == ' ' && spaces[1] == '\t' && spaces[2] == '\n' && spaces[3] == '\r' && spaces[4] == '\U{000C}';
  }

  lemma TypeLettersAreType(s: string)
    ensures InGroup(TypeName, s) <==> TypeLetters(s)
  {
    if InGroup(TypeName, s) {
      var i: nat, j: nat :| SplitsType(s, i, j);
      var a, dot, b := s[..i], s[i..j], s[j..];
      assert s == a + dot + b;
      assert j == i + 1 ==> dot == [s[i]];
    }
    if a, dot, b :| s == a + dot + b && a != "" && Letters(a) && (dot == "" || dot == ".") && Letters(b) {
      var i, j := |a|, |a + dot|;
      assert s[..i] == a && s[j..] == b;
      assert dot == "." ==> s[i] == dot[0];
      assert SplitsType(s, i, j);
    }
  }

  lemma AlphabetsAre(s: string)
    ensures InGroup(Ident, s) <==> s != "" && Letters(s)
    ensures InGroup(ImportPath, s) <==> s != "" && PathLetters(s)
    ensures InGroup(Quoted, s) <==> s != "" && '"' !in s
  {
    assert AllIn(Ident, s) <==> Letters(s);
    assert AllIn(ImportPath, s) <==> PathLetters(s);
    assert AllIn(Quoted, s) <==> '"' !in s;
  }

  // ---------- the pieces of a pattern from left to right ----------

  /** The pieces of `p` behind the text `before`, from whitespace run `i` and capture `j` on. */
  ghost function Flat(p: Pattern, before: string, ws: seq<string>, i: nat, cs: seq<string>, j: nat): string {
    match p
    case End => before
    case Lit(t, rest) => Flat(rest, before + t, ws, i, cs, j)
    case Blank(_, rest) => if i < |ws| then Flat(rest, before + ws[i], ws, i + 1, cs, j) else before
    case Group(_, rest) => if j < |cs| then Flat(rest, before + cs[j], ws, i, cs, j + 1) else before
  }

  ghost predicate FitsFrom(p: Pattern, ws: seq<string>, i: nat, cs: seq<string>, j: nat) {
    match p
    case End => i == |ws| && j == |cs|
    case Lit(_, rest) => FitsFrom(rest, ws, i, cs, j)
    case Blank(least, rest) => i < |ws| && |ws[i]| >= least && AllBlank(ws[i]) && FitsFrom(rest, ws, i + 1, cs, j)
    case Group(capture, rest) => j < |cs| && InGroup(capture, cs[j]) && FitsFrom(rest, ws, i, cs, j + 1)
  }

  lemma Joined(before: string, piece: string, follow: string)
    ensures before + piece + follow == before + (piece + follow)
  {
  }

  lemma {:induction false} FlatIsBuild(p: Pattern, before: string, ws: seq<string>, i: nat, cs: seq<string>, j: nat)
    requires i <= |ws| && j <= |cs|
    ensures Flat(p, before, ws, i, cs, j) == before + Build(p, ws[i..], cs[j..])
    decreases p
  {
    match p
    case End =>
    case Lit(t, rest) =>
      FlatIsBuild(rest, before + t, ws, i, cs, j);
      Joined(before, t, Build(rest, ws[i..], cs[j..]));
    case Blank(_, rest) =>
      if i < |ws| {
        FlatIsBuild(rest, before + ws[i], ws, i + 1, cs, j);
        Joined(before, ws[i], Build(rest, ws[i + 1..], cs[j..]));
        assert ws[i..][1..] == ws[i + 1..];
      }
    case Group(_, rest) =>
      if j < |cs| {
        FlatIsBuild(rest, before + cs[j], ws, i, cs, j + 1);
        Joined(before, cs[j], Build(rest, ws[i..], cs[j + 1..]));
        assert cs[j..][1..] == cs[j + 1..];
      }
  }

  lemma {:induction false} FitsFromIsFits(p: Pattern, ws: seq<string>, i: nat, cs: seq<string>, j: nat)
    requires i <= |ws| && j <= |cs|
    ensures FitsFrom(p, ws, i, cs, j) <==> Fits(p, ws[i..], cs[j..])
    decreases p
  {
    match p
    case End =>
    case Lit(t, rest) => FitsFromIsFits(rest, ws, i, cs, j);
    case Blank(_, rest) =>
      if i < |ws| {
        FitsFromIsFits(rest, ws, i + 1, cs, j);
        assert ws[i..][1..] == ws[i + 1..];
      }
    case Group(_, rest) =>
      if j < |cs| {
        FitsFromIsFits(rest, ws, i, cs, j + 1);
        assert cs[j..][1..] == cs[j + 1..];
      }
  }

  lemma Keyword(least: nat, t: string, rest: Pattern, before: string, ws: seq<string>, i: nat, cs: seq<string>, j: nat)
    ensures var p := Blank(least, Lit(t, rest));
            && (i < |ws| ==> Flat(p, before, ws, i, cs, j) == Flat(rest, before + ws[i] + t, ws, i + 1, cs, j))
            && (FitsFrom(p, ws, i, cs, j) <==>
                i < |ws| && |ws[i]| >= least && AllBlank(ws[i]) && FitsFrom(rest, ws, i + 1, cs, j))
  {
  }

  lemma Field(least: nat, capture: Capture, rest: Pattern, before: string, ws: seq<string>, i: nat, cs: seq<string>, j: nat)
    requires j < |cs|
    ensures var p := Blank(least, Group(capture, rest));
            && (i < |ws| ==> Flat(p, before, ws, i, cs, j) == Flat(rest, before + ws[i] + cs[j], ws, i + 1, cs, j + 1))
            && (FitsFrom(p, ws, i, cs, j) <==>
                && i < |ws| && |ws[i]| >= least && AllBlank(ws[i]) && InGroup(capture, cs[j])
                && FitsFrom(rest, ws, i + 1, cs, j + 1))
  {
  }

  lemma LastField(capture: Capture, t: string, before: string, ws: seq<string>, i: nat, c: string)
    ensures var p := Group(capture, Lit(t, End));
            && Flat(p, before, ws, i, [c], 0) == before + c + t
            && (FitsFrom(p, ws, i, [c], 0) <==> InGroup(capture, c) && i == |ws|)
  {
    var last := Lit(t, End);
    assert Flat(last, before + c, ws, i, [c], 1) == before + c + t;
    assert FitsFrom(last, ws, i, [c], 1) <==> i == |ws|;
  }

  /** A line matches exactly when it is these pieces and some tail. */
  lemma DecomposesFlat(p: Pattern, line: string, ws: seq<string>, cs: seq<string>, tail: string)
    ensures Decomposes(p, line, ws, cs, tail) <==> FitsFrom(p, ws, 0, cs, 0) && line == Flat(p, "", ws, 0, cs, 0) + tail
  {
    FlatIsBuild(p, "", ws, 0, cs, 0);
    FitsFromIsFits(p, ws, 0, cs, 0);
    assert ws[0..] == ws && cs[0..] == cs;
  }

  // ---------- the four patterns ----------

  /** The pieces of an import line. */
  lemma ImportPieces(w: seq<string>, c: string)
    ensures FitsFrom(IMPORT, w, 0, [c], 0)
       <==> |w| == 2 && AllBlank(w[0]) && |w[1]| >= 1 && AllBlank(w[1]) && InGroup(ImportPath, c)
    ensures |w| == 2 ==> Flat(IMPORT, "", w, 0, [c], 0) == w[0] + "import" + w[1] + "\"" + c + "\";"
  {
    var p2 := Group(ImportPath, Lit("\";", End));
    var p1 := Blank(1, Lit("\"", p2));
    var v := if |w| == 2 then w else ["", ""];
    var t1 := v[0] + "import";
    assert "" + v[0] == v[0];
    Keyword(0, "import", p1, "", w, 0, [c], 0);
    Keyword(1, "\"", p2, t1, w, 1, [c], 0);
    LastField(ImportPath, "\";", t1 + v[1] + "\"", w, 2, c);
  }

  lemma GoPackagePieces(w: seq<string>, c: string)
    ensures FitsFrom(GO_PACKAGE, w, 0, [c], 0)
       <==> && |w| == 4 && AllBlank(w[0]) && |w[1]| >= 1 && AllBlank(w[1]) && AllBlank(w[2]) && AllBlank(w[3])
            && InGroup(Quoted, c)
    ensures |w| == 4 ==>
              Flat(GO_PACKAGE, "", w, 0, [c], 0)
              == w[0] + "option" + w[1] + "go_package" + w[2] + "=" + w[3] + "\"" + c + "\";"
  {
    var p4 := Group(Quoted, Lit("\";", End));
    var p3 := Blank(0, Lit("\"", p4));
    var p2 := Blank(0, Lit("=", p3));
    var p1 := Blank(1, Lit("go_package", p2));
    var v := if |w| == 4 then w else ["", "", "", ""];
    var t1 := v[0] + "option";
    var t2 := t1 + v[1] + "go_package";
    var t3 := t2 + v[2] + "=";
    assert "" + v[0] == v[0];
    Keyword(0, "option", p1, "", w, 0, [c], 0);
    Keyword(1, "go_package", p2, t1, w, 1, [c], 0);
    Keyword(0, "=", p3, t2, w, 2, [c], 0);
    Keyword(0, "\"", p4, t3, w, 3, [c], 0);
    LastField(Quoted, "\";", t3 + v[3] + "\"", w, 4, c);
  }

  lemma ServicePieces(w: seq<string>, c: string)
    ensures FitsFrom(SERVICE, w, 0, [c], 0)
       <==> |w| == 3 && AllBlank(w[0]) && |w[1]| >= 1 && AllBlank(w[1]) && AllBlank(w[2]) && InGroup(Ident, c)
    ensures |w| == 3 ==> Flat(SERVICE, "", w, 0, [c], 0) == w[0] + "service" + w[1] + c + w[2] + "{"
  {
    var p2 := Blank(0, Lit("{", End));
    var p1 := Blank(1, Group(Ident, p2));
    var v := if |w| == 3 then w else ["", "", ""];
    var t1 := v[0] + "service";
    assert "" + v[0] == v[0];
    Keyword(0, "service", p1, "", w, 0, [c], 0);
    Field(1, Ident, p2, t1, w, 1, [c], 0);
    Keyword(0, "{", End, t1 + v[1] + c, w, 2, [c], 1);
  }

  lemma RpcPieces(w: seq<string>, c: seq<string>)
    requires |c| == 3
    ensures FitsFrom(RPC, w, 0, c, 0)
       <==> && |w| == 9
            && AllBlank(w[0]) && |w[1]| >= 1 && AllBlank(w[1]) && AllBlank(w[2]) && AllBlank(w[3]) && AllBlank(w[4])
            && |w[5]| >= 1 && AllBlank(w[5]) && AllBlank(w[6]) && AllBlank(w[7]) && AllBlank(w[8])
            && InGroup(Ident, c[0]) && InGroup(TypeName, c[1]) && InGroup(TypeName, c[2])
    ensures |w| == 9 ==>
              Flat(RPC, "", w, 0, c, 0)
              == w[0] + "rpc" + w[1] + c[0] + w[2] + "(" + w[3] + c[1] + w[4] + ")" + w[5] + "returns"
                 + w[6] + "(" + w[7] + c[2] + w[8] + ");"
  {
    var p8 := Blank(0, Lit(");", End));
    var p7 := Blank(0, Group(TypeName, p8));
    var p6 := Blank(0, Lit("(", p7));
    var p5 := Blank(1, Lit("returns", p6));
    var p4 := Blank(0, Lit(")", p5));
    var p3 := Blank(0, Group(TypeName, p4));
    var p2 := Blank(0, Lit("(", p3));
    var p1 := Blank(1, Group(Ident, p2));
    var v := if |w| == 9 then w else ["", "", "", "", "", "", "", "", ""];
    var t1 := v[0] + "rpc";
    var t2 := t1 + v[1] + c[0];
    var t3 := t2 + v[2] + "(";
    var t4 := t3 + v[3] + c[1];
    var t5 := t4 + v[4] + ")";
    var t6 := t5 + v[5] + "returns";
    var t7 := t6 + v[6] + "(";
    var t8 := t7 + v[7] + c[2];
    assert "" + v[0] == v[0];
    Keyword(0, "rpc", p1, "", w, 0, c, 0);
    Field(1, Ident, p2, t1, w, 1, c, 0);
    Keyword(0, "(", p3, t2, w, 2, c, 1);
    Field(0, TypeName, p4, t3, w, 3, c, 1);
    Keyword(0, ")", p5, t4, w, 4, c, 2);
    Keyword(1, "returns", p6, t5, w, 5, c, 2);
    Keyword(0, "(", p7, t6, w, 6, c, 2);
    Field(0, TypeName, p8, t7, w, 7, c, 2);
    Keyword(0, ");", End, t8, w, 8, c, 3);
  }

  // ---------- every line ----------

  /** An import line: whitespace, `import`, whitespace, the quoted path and a semicolon, then any tail. */
  ghost predicate ImportText(line: string, path: string, w: seq<string>, tail: string) {
    && |w| == 2 && Spaces(w[0]) && Spaces(w[1]) && w[1] != ""
    && line == w[0] + "import" + w[1] + "\"" + path + "\";" + tail
  }

  /** `option go_package = "value";` with any whitespace around its words. */
  ghost predicate GoPackageText(line: string, value: string, w: seq<string>, tail: string) {
    && |w| == 4 && Spaces(w[0]) && Spaces(w[1]) && w[1] != "" && Spaces(w[2]) && Spaces(w[3])
    && line == w[0] + "option" + w[1] + "go_package" + w[2] + "=" + w[3] + "\"" + value + "\";" + tail
  }

  /** `service name {`. */
  ghost predicate ServiceText(line: string, name: string, w: seq<string>, tail: string) {
    && |w| == 3 && Spaces(w[0]) && Spaces(w[1]) && w[1] != "" && Spaces(w[2])
    && line == w[0] + "service" + w[1] + name + w[2] + "{" + tail
  }

  /** `rpc name(request) returns (response);`. */
  ghost predicate RpcText(line: string, name: string, request: string, response: string, w: seq<string>, tail: string) {
    && |w| == 9 && Spaces(w[0]) && Spaces(w[1]) && w[1] != "" && Spaces(w[2]) && Spaces(w[3]) && Spaces(w[4])
    && Spaces(w[5]) && w[5] != "" && Spaces(w[6]) && Spaces(w[7]) && Spaces(w[8])
    && line == w[0] + "rpc" + w[1] + name + w[2] + "(" + w[3] + request + w[4] + ")" + w[5] + "returns"
               + w[6] + "(" + w[7] + response + w[8] + ");" + tail
  }

  ghost predicate RpcNames(name: string, request: string, response: string) {
    name != "" && Letters(name) && TypeLetters(request) && TypeLetters(response)
  }

  lemma ImportSplits(line: string, path: string, w: seq<string>, tail: string)
    ensures Decomposes(IMPORT, line, w, [path], tail)
       <==> path != "" && PathLetters(path) && ImportText(line, path, w, tail)
  {
    DecomposesFlat(IMPORT, line, w, [path], tail);
    ImportPieces(w, path);
    AlphabetsAre(path);
    if |w| == 2 {
      SpacesAreBlank(w[0]); SpacesAreBlank(w[1]);
    }
  }

  /** Every line: it is read as this import exactly when it is its text. */
  lemma ImportForm(line: string, path: string)
    ensures Classify(line) == ImportLine(path)
       <==> path != "" && PathLetters(path) && exists w, tail :: ImportText(line, path, w, tail)
  {
    ClassifyDecides(line, ImportLine(path));
    forall w, tail
      ensures Decomposes(IMPORT, line, w, [path], tail)
         <==> path != "" && PathLetters(path) && ImportText(line, path, w, tail)
    {
      ImportSplits(line, path, w, tail);
    }
  }

  lemma GoPackageSplits(line: string, value: string, w: seq<string>, tail: string)
    ensures Decomposes(GO_PACKAGE, line, w, [value], tail)
       <==> value != "" && '"' !in value && GoPackageText(line, value, w, tail)
  {
    DecomposesFlat(GO_PACKAGE, line, w, [value], tail);
    GoPackagePieces(w, value);
    AlphabetsAre(value);
    if |w| == 4 {
      SpacesAreBlank(w[0]); SpacesAreBlank(w[1]); SpacesAreBlank(w[2]); SpacesAreBlank(w[3]);
    }
  }

  /** Every line: it is read as this go_package exactly when it is its text. */
  lemma GoPackageForm(line: string, value: string)
    ensures Classify(line) == GoPackageLine(value)
       <==> value != "" && '"' !in value && exists w, tail :: GoPackageText(line, value, w, tail)
  {
    ClassifyDecides(line, GoPackageLine(value));
    forall w, tail
      ensures Decomposes(GO_PACKAGE, line, w, [value], tail)
         <==> value != "" && '"' !in value && GoPackageText(line, value, w, tail)
    {
      GoPackageSplits(line, value, w, tail);
    }
  }

  lemma ServiceSplits(line: string, name: string, w: seq<string>, tail: string)
    ensures Decomposes(SERVICE, line, w, [name], tail)
       <==> name != "" && Letters(name) && ServiceText(line, name, w, tail)
  {
    DecomposesFlat(SERVICE, line, w, [name], tail);
    ServicePieces(w, name);
    AlphabetsAre(name);
    if |w| == 3 {
      SpacesAreBlank(w[0]); SpacesAreBlank(w[1]); SpacesAreBlank(w[2]);
    }
  }

  /** Every line: it is read as this service exactly when it is its text. */
  lemma ServiceForm(line: string, name: string)
    ensures Classify(line) == ServiceLine(name)
       <==> name != "" && Letters(name) && exists w, tail :: ServiceText(line, name, w, tail)
  {
    ClassifyDecides(line, ServiceLine(name));
    forall w, tail
      ensures Decomposes(SERVICE, line, w, [name], tail)
         <==> name != "" && Letters(name) && ServiceText(line, name, w, tail)
    {
      ServiceSplits(line, name, w, tail);
    }
  }

  lemma RpcSplits(line: string, name: string, request: string, response: string, w: seq<string>, tail: string)
    ensures Decomposes(RPC, line, w, [name, request, response], tail)
       <==> RpcNames(name, request, response) && RpcText(line, name, request, response, w, tail)
  {
    DecomposesFlat(RPC, line, w, [name, request, response], tail);
    RpcPieces(w, [name, request, response]);
    AlphabetsAre(name);
    TypeLettersAreType(request);
    TypeLettersAreType(response);
    if |w| == 9 {
      SpacesAreBlank(w[0]); SpacesAreBlank(w[1]); SpacesAreBlank(w[2]); SpacesAreBlank(w[3]);
      SpacesAreBlank(w[4]); SpacesAreBlank(w[5]); SpacesAreBlank(w[6]); SpacesAreBlank(w[7]);
      SpacesAreBlank(w[8]);
    }
  }

  /** Every line: it is read as this rpc exactly when it is its text. */
  lemma RpcForm(line: string, name: string, request: string, response: string)
    ensures Classify(line) == RpcLine(name, request, response)
       <==> RpcNames(name, request, response) && exists w, tail :: RpcText(line, name, request, response, w, tail)
  {
    ClassifyDecides(line, RpcLine(name, request, response));
    forall w, tail
      ensures Decomposes(RPC, line, w, [name, request, response], tail)
         <==> RpcNames(name, request, response) && RpcText(line, name, request, response, w, tail)
    {
      RpcSplits(line, name, request, response, w, tail);
    }
  }
}
