/** What the generator sees in one line of a `.proto` file. */
module ProtoLines {
  import opened Text
  import opened Patterns

  const IMPORT: Pattern :=
    Blank(0, Lit("import", Blank(1, Lit("\"", Group(ImportPath, Lit("\";", End))))))

  const GO_PACKAGE: Pattern :=
    Blank(0, Lit("option", Blank(1, Lit("go_package", Blank(0, Lit("=", Blank(0,
    Lit("\"", Group(Quoted, Lit("\";", End))))))))))

  const SERVICE: Pattern :=
    Blank(0, Lit("service", Blank(1, Group(Ident, Blank(0, Lit("{", End))))))

  const RPC: Pattern :=
    Blank(0, Lit("rpc", Blank(1, Group(Ident, Blank(0, Lit("(", Blank(0, Group(TypeName,
    Blank(0, Lit(")", Blank(1, Lit("returns", Blank(0, Lit("(", Blank(0, Group(TypeName,
    Blank(0, Lit(");", End))))))))))))))))))

  /** A line as the parser understands it. `Close` is a line that contains `}` and matches none of
      the four patterns, `Other` every remaining line. */
  datatype Statement =
    | ImportLine(path: string)
    | GoPackageLine(value: string)
    | ServiceLine(name: string)
    | RpcLine(name: string, request: string, response: string)
    | Close
    | Other

  function Classify(line: string): Statement {
    GroupCounts();
    match Scan(IMPORT, line)
    case Some(c) => ImportLine(c[0])
    case None =>
      match Scan(GO_PACKAGE, line)
      case Some(c) => GoPackageLine(c[0])
      case None =>
        match Scan(SERVICE, line)
        case Some(c) => ServiceLine(c[0])
        case None =>
          match Scan(RPC, line)
          case Some(c) => RpcLine(c[0], c[1], c[2])
          case None => if '}' in line then Close else Other
  }

  function Statements(lines: seq<string>): (r: seq<Statement>)
    ensures |r| == |lines|
  {
    if lines == [] then [] else Statements(lines[..|lines| - 1]) + [Classify(lines[|lines| - 1])]
  }

  lemma {:induction false} StatementAt(lines: seq<string>, k: nat)
    requires k < |lines|
    ensures Statements(lines)[k] == Classify(lines[k])
    decreases |lines|
  {
    if k < |lines| - 1 {
      StatementAt(lines[..|lines| - 1], k);
    }
  }

  // ---------- the four patterns are deterministic ----------

  /** The pattern never needs backtracking and has these capture groups. */
  ghost predicate Shape(p: Pattern, groups: seq<Capture>) {
    Separated(p) && Groups(p) == groups
  }

  lemma GroupShape(capture: Capture, rest: Pattern, groups: seq<Capture>)
    requires Shape(rest, groups)
    requires forall c :: InAlphabet(capture, c) ==> !MayStart(rest, c)
    ensures Shape(Group(capture, rest), [capture] + groups)
  {
  }

  lemma ImportShape()
    ensures Shape(IMPORT, [ImportPath])
  {
    var p := Lit("\";", End);
    assert Shape(p, []);
    GroupShape(ImportPath, p, []);
    p := Lit("\"", Group(ImportPath, p));
    p := Blank(1, p);
    assert Shape(p, [ImportPath]);
  }

  lemma GoPackageShape()
    ensures Shape(GO_PACKAGE, [Quoted])
  {
    var p := Lit("\";", End);
    GroupShape(Quoted, p, []);
    p := Blank(0, Lit("\"", Group(Quoted, p)));
    assert Shape(p, [Quoted]);
    p := Blank(0, Lit("=", p));
    assert Shape(p, [Quoted]);
    p := Blank(1, Lit("go_package", p));
    assert Shape(p, [Quoted]);
  }

  lemma ServiceShape()
    ensures Shape(SERVICE, [Ident])
  {
    var p := Blank(0, Lit("{", End));
    assert Shape(p, []);
    GroupShape(Ident, p, []);
    p := Blank(1, Group(Ident, p));
    assert Shape(p, [Ident]);
  }

  lemma RpcShape()
    ensures Shape(RPC, [Ident, TypeName, TypeName])
  {
    var p := Blank(0, Lit(");", End));
    assert Shape(p, []);
    GroupShape(TypeName, p, []);
    p := Blank(0, Group(TypeName, p));
    assert Shape(p, [TypeName]);
    p := Blank(1, Lit("returns", Blank(0, Lit("(", p))));
    assert Shape(p.rest.rest, [TypeName]);
    assert Shape(p, [TypeName]);
    p := Blank(0, Lit(")", p));
    assert Shape(p, [TypeName]);
    GroupShape(TypeName, p, [TypeName]);
    p := Blank(0, Group(TypeName, p));
    assert Shape(p, [TypeName, TypeName]);
    p := Blank(0, Lit("(", p));
    assert Shape(p, [TypeName, TypeName]);
    GroupShape(Ident, p, [TypeName, TypeName]);
    p := Blank(1, Group(Ident, p));
    assert Shape(p, [Ident, TypeName, TypeName]);
  }

  lemma PatternsSeparated()
    ensures Separated(IMPORT) && Separated(GO_PACKAGE) && Separated(SERVICE) && Separated(RPC)
  {
    ImportShape(); GoPackageShape(); ServiceShape(); RpcShape();
  }

  lemma GroupCounts()
    ensures |Groups(IMPORT)| == |Groups(GO_PACKAGE)| == |Groups(SERVICE)| == 1
    ensures |Groups(RPC)| == 3
  {
    ImportShape(); GoPackageShape(); ServiceShape(); RpcShape();
  }

  // ---------- the classification is the four relations ----------

  predicate IsDeclaration(s: Statement) {
    s.ImportLine? || s.GoPackageLine? || s.ServiceLine? || s.RpcLine?
  }

  function PatternOf(s: Statement): Pattern
    requires IsDeclaration(s)
  {
    match s
    case ImportLine(_) => IMPORT
    case GoPackageLine(_) => GO_PACKAGE
    case ServiceLine(_) => SERVICE
    case RpcLine(_, _, _) => RPC
  }

  function CapturesOf(s: Statement): seq<string>
    requires IsDeclaration(s)
  {
    match s
    case ImportLine(path) => [path]
    case GoPackageLine(value) => [value]
    case ServiceLine(name) => [name]
    case RpcLine(name, request, response) => [name, request, response]
  }

  /** `line` is the declaration `s`, written with any whitespace the pattern allows and followed by
      any text. */
  ghost predicate Writes(line: string, s: Statement)
    requires IsDeclaration(s)
  {
    Matches(PatternOf(s), line, CapturesOf(s))
  }

  ghost predicate MatchesNone(line: string) {
    forall s {:trigger Writes(line, s)} :: IsDeclaration(s) ==> !Writes(line, s)
  }

  /** A pattern that starts with a keyword accepts only lines that start with it. */
  lemma KeywordFirst(p: Pattern, line: string)
    requires p.Blank? && p.rest.Lit? && p.rest.text != []
    requires Scan(p, line).Some?
    ensures BlankRun(line) < |line| && line[BlankRun(line)] == p.rest.text[0]
  {
  }

  /** No line is accepted by two of the four patterns. */
  lemma PatternsDisjoint(line: string)
    ensures Scan(IMPORT, line).Some? ==> Scan(GO_PACKAGE, line).None?
    ensures Scan(IMPORT, line).Some? || Scan(GO_PACKAGE, line).Some? ==> Scan(SERVICE, line).None?
    ensures Scan(IMPORT, line).Some? || Scan(GO_PACKAGE, line).Some? || Scan(SERVICE, line).Some?
            ==> Scan(RPC, line).None?
  {
    if Scan(IMPORT, line).Some? { KeywordFirst(IMPORT, line); }
    if Scan(GO_PACKAGE, line).Some? { KeywordFirst(GO_PACKAGE, line); }
    if Scan(SERVICE, line).Some? { KeywordFirst(SERVICE, line); }
    if Scan(RPC, line).Some? { KeywordFirst(RPC, line); }
  }

  lemma OneCapture(p: Pattern, line: string, value: string)
    requires Separated(p) && |Groups(p)| == 1
    ensures Matches(p, line, [value]) <==> Scan(p, line).Some? && Scan(p, line).value[0] == value
  {
    ScanDecides(p, line, [value]);
    if Scan(p, line).Some? {
      var c := Scan(p, line).value;
      assert c == [c[0]];
    }
  }

  lemma ThreeCaptures(p: Pattern, line: string, x: string, y: string, z: string)
    requires Separated(p) && |Groups(p)| == 3
    ensures Matches(p, line, [x, y, z])
       <==> Scan(p, line).Some? && var c := Scan(p, line).value; c[0] == x && c[1] == y && c[2] == z
  {
    ScanDecides(p, line, [x, y, z]);
    if Scan(p, line).Some? {
      var c := Scan(p, line).value;
      assert c == [c[0], c[1], c[2]];
    }
  }

  /** A line is classified as a declaration exactly when it is a way of writing it. */
  lemma ClassifyDecides(line: string, s: Statement)
    requires IsDeclaration(s)
    ensures Writes(line, s) <==> Classify(line) == s
  {
    PatternsSeparated(); GroupCounts();
    PatternsDisjoint(line);
    match s
    case ImportLine(path) => OneCapture(IMPORT, line, path);
    case GoPackageLine(value) => OneCapture(GO_PACKAGE, line, value);
    case ServiceLine(name) => OneCapture(SERVICE, line, name);
    case RpcLine(name, request, response) => ThreeCaptures(RPC, line, name, request, response);
  }

  /** A line is a way of writing at most one declaration. */
  lemma WritesUnique(line: string, s: Statement, t: Statement)
    requires IsDeclaration(s) && IsDeclaration(t)
    requires Writes(line, s) && Writes(line, t)
    ensures s == t
  {
    ClassifyDecides(line, s);
    ClassifyDecides(line, t);
  }

  /** The remaining lines close a service or are noise, according to `}`. */
  lemma ClassifyRest(line: string)
    ensures Classify(line) == Close <==> MatchesNone(line) && '}' in line
    ensures Classify(line) == Other <==> MatchesNone(line) && '}' !in line
  {
    forall s | IsDeclaration(s)
      ensures Writes(line, s) <==> Classify(line) == s
    {
      ClassifyDecides(line, s);
    }
    if IsDeclaration(Classify(line)) {
      assert Writes(line, Classify(line));
    }
  }

  // ---------- what the captures look like ----------

  ghost predicate IsIdent(s: string) {
    InGroup(Ident, s)
  }

  ghost predicate IsTypeName(s: string) {
    InGroup(TypeName, s)
  }

  /** The alphabets of the captures, with lines free of newlines. */
  ghost predicate WellFormed(s: Statement) {
    match s
    case ImportLine(path) => InGroup(ImportPath, path)
    case GoPackageLine(value) => InGroup(Quoted, value) && '\n' !in value
    case ServiceLine(name) => IsIdent(name)
    case RpcLine(name, request, response) => IsIdent(name) && IsTypeName(request) && IsTypeName(response)
    case _ => true
  }

  lemma ClassifyWellFormed(line: string)
    requires '\n' !in line
    ensures WellFormed(Classify(line))
  {
    ImportShape(); GoPackageShape(); ServiceShape(); RpcShape();
    match Classify(line)
    case ImportLine(_) => ScanCaptures(IMPORT, line);
    case GoPackageLine(_) =>
      PatternsDisjoint(line);
      ScanCaptures(GO_PACKAGE, line);
      CapturesFromLine(GO_PACKAGE, line, '\n');
    case ServiceLine(_) => ScanCaptures(SERVICE, line);
    case RpcLine(_, _, _) => ScanCaptures(RPC, line);
    case _ =>
  }

  // ---------- printing ----------

  /** A declaration on a line of its own, with the shortest legal whitespace. */
  ghost function Print(s: Statement): string
    requires IsDeclaration(s)
  {
    Build(PatternOf(s), ShortBlanks(PatternOf(s)), CapturesOf(s))
  }

  lemma CapturesFit(s: Statement)
    requires IsDeclaration(s) && WellFormed(s)
    ensures Fits(PatternOf(s), ShortBlanks(PatternOf(s)), CapturesOf(s))
  {
    ImportShape(); GoPackageShape(); ServiceShape(); RpcShape();
    GroupsFit(PatternOf(s), Groups(PatternOf(s)), CapturesOf(s));
  }

  lemma GroupsFit(p: Pattern, groups: seq<Capture>, captures: seq<string>)
    requires Groups(p) == groups && |captures| == |groups|
    requires forall k :: 0 <= k < |captures| ==> InGroup(groups[k], captures[k])
    ensures Fits(p, ShortBlanks(p), captures)
  {
    ShortBlanksFit(p, captures);
  }

  /** Every declaration with legal captures can be printed. */
  lemma PrintWrites(s: Statement)
    requires IsDeclaration(s) && WellFormed(s)
    ensures Writes(Print(s), s)
  {
    CapturesFit(s);
    PiecesDecompose(PatternOf(s), ShortBlanks(PatternOf(s)), CapturesOf(s));
  }

  lemma PiecesDecompose(p: Pattern, blanks: seq<string>, captures: seq<string>)
    requires Fits(p, blanks, captures)
    ensures Matches(p, Build(p, blanks, captures), captures)
  {
    var line := Build(p, blanks, captures);
    assert line == line + [];
    assert Decomposes(p, line, blanks, captures, []);
  }

  lemma OneCaptureStaysOnLine()
    ensures StaysOnLine(IMPORT) && StaysOnLine(SERVICE)
  {
    var p := Lit("\"", Group(ImportPath, Lit("\";", End)));
    assert StaysOnLine(p);
    p := Group(Ident, Blank(0, Lit("{", End)));
    assert StaysOnLine(p);
  }

  lemma GoPackageStaysOnLine()
    ensures StaysOnLine(GO_PACKAGE)
  {
    var p := Group(Quoted, Lit("\";", End));
    assert StaysOnLine(p);
    p := Blank(0, Lit("=", Blank(0, Lit("\"", p))));
    assert StaysOnLine(p);
  }

  lemma RpcStaysOnLine()
    ensures StaysOnLine(RPC)
  {
    var p := Group(TypeName, Blank(0, Lit(");", End)));
    assert StaysOnLine(p);
    p := Lit("returns", Blank(0, Lit("(", Blank(0, p))));
    assert StaysOnLine(p);
    p := Group(TypeName, Blank(0, Lit(")", Blank(1, p))));
    assert StaysOnLine(p);
    p := Group(Ident, Blank(0, Lit("(", Blank(0, p))));
    assert StaysOnLine(p);
  }

  lemma WordHasNoNewline(capture: Capture, s: string)
    requires InGroup(capture, s) && !capture.Quoted?
    ensures '\n' !in s
  {
    GroupAlphabet(capture, s);
  }

  lemma CapturesNoNewline(s: Statement)
    requires IsDeclaration(s) && WellFormed(s)
    ensures NoNewlines(CapturesOf(s))
  {
    match s
    case ImportLine(path) => WordHasNoNewline(ImportPath, path);
    case GoPackageLine(_) =>
    case ServiceLine(name) => WordHasNoNewline(Ident, name);
    case RpcLine(name, request, response) =>
      WordHasNoNewline(Ident, name);
      WordHasNoNewline(TypeName, request);
      WordHasNoNewline(TypeName, response);
  }

  /** A printed declaration stays on its line. */
  lemma PrintOneLine(s: Statement)
    requires IsDeclaration(s) && WellFormed(s)
    ensures IsOneLine(Print(s))
  {
    OneCaptureStaysOnLine(); GoPackageStaysOnLine(); RpcStaysOnLine();
    CapturesNoNewline(s);
    ShortBlanksNoNewline(PatternOf(s));
    CapturesFit(s);
    BuildOneLine(PatternOf(s), ShortBlanks(PatternOf(s)), CapturesOf(s));
  }
}
