/** Writing a service down as a `.proto` file and parsing it gives the service back, wherever its go_package
    line stands, however the declarations are spaced and whatever unrelated lines stand between them. */
module RoundTrip {
  import opened Text
  import opened Patterns
  import opened ProtoLines
  import opened CamelCase
  import opened Paths
  import opened ProtoParser
  import opened ParserLaws

  datatype Signature = Signature(name: string, request: string, response: string)

  datatype Document = Document(
    imports: seq<string>,
    goPackage: string,
    service: string,
    rpcs: seq<Signature>)

  function ImportLines(paths: seq<string>): (r: seq<Statement>)
    ensures |r| == |paths| && forall k :: 0 <= k < |r| ==> r[k] == ImportLine(paths[k])
  {
    seq(|paths|, k requires 0 <= k < |paths| => ImportLine(paths[k]))
  }

  function RpcLines(rpcs: seq<Signature>): (r: seq<Statement>)
    ensures |r| == |rpcs| && forall k :: 0 <= k < |r| ==> r[k] == RpcLine(rpcs[k].name, rpcs[k].request, rpcs[k].response)
  {
    seq(|rpcs|, k requires 0 <= k < |rpcs| => RpcLine(rpcs[k].name, rpcs[k].request, rpcs[k].response))
  }

  function Methods(service: string, rpcs: seq<Signature>): (r: seq<ServiceMethod>)
    ensures |r| == |rpcs|
  {
    if rpcs == [] then []
    else
      var last := rpcs[|rpcs| - 1];
      Methods(service, rpcs[..|rpcs| - 1]) + [MethodOf(service, last.name, last.request, last.response)]
  }

  /** The declarations of a document: imports, go_package, the service line and its rpc lines. */
  function Declarations(d: Document): (r: seq<Statement>)
    ensures AllDeclarations(r)
  {
    ImportLines(d.imports) + [GoPackageLine(d.goPackage)] + ([ServiceLine(d.service)] + RpcLines(d.rpcs))
  }

  /** All but the go_package line, with the service line below the first `i` imports. */
  function WithoutGoPackage(d: Document, i: nat): (r: seq<Statement>)
    requires i <= |d.imports|
    ensures AllDeclarations(r)
    ensures |r| == |d.imports| + 1 + |d.rpcs| && r[i] == ServiceLine(d.service)
  {
    ImportLines(d.imports[..i]) + [ServiceLine(d.service)] + ImportLines(d.imports[i..]) + RpcLines(d.rpcs)
  }

  ghost predicate IsPlacement(d: Document, i: nat, g: nat) {
    i <= |d.imports| && g <= |d.imports| + 1 + |d.rpcs|
  }

  /** An order of the declarations that keeps the imports above the rpcs: the service line stands below
      the first `i` imports, the go_package line below the first `g` of all other declarations. */
  function Arranged(d: Document, i: nat, g: nat): (r: seq<Statement>)
    requires IsPlacement(d, i, g)
    ensures AllDeclarations(r)
    ensures GoPackageLine(d.goPackage) in r && ServiceLine(d.service) in r
  {
    var others := WithoutGoPackage(d, i);
    assert others == others[..g] + others[g..] && others[i] in others;
    others[..g] + [GoPackageLine(d.goPackage)] + others[g..]
  }

  /** The names and values are ones the patterns can capture on one line. */
  ghost predicate Legal(d: Document) {
    AllWellFormed(Declarations(d))
  }

  ghost predicate AllDeclarations(doc: seq<Statement>) {
    forall k :: 0 <= k < |doc| ==> IsDeclaration(doc[k])
  }

  ghost predicate NoRpc(doc: seq<Statement>) {
    forall k :: 0 <= k < |doc| ==> !doc[k].RpcLine?
  }

  /** A line that matches no pattern, with `}` only outside the service or after the last rpc. */
  ghost predicate IsFiller(line: string, doc: seq<Statement>, open: bool) {
    MatchesNone(line) && (open && !NoRpc(doc) ==> '}' !in line)
  }

  /** `lines` writes the declarations `doc` in order, each with any legal whitespace and any text
      after it, between filler lines. */
  ghost predicate LaysOut(lines: seq<string>, doc: seq<Statement>, open: bool)
    requires AllDeclarations(doc)
  {
    if lines == [] then doc == []
    else
      || (IsFiller(lines[0], doc, open) && LaysOut(lines[1..], doc, open && '}' !in lines[0]))
      || (doc != [] && Writes(lines[0], doc[0]) && LaysOut(lines[1..], doc[1..], open || doc[0].ServiceLine?))
  }

  /** Equal states, but for whether a service is open. */
  ghost predicate SameBut(a: State, b: State) {
    a.(inService := b.inService) == b
  }

  lemma RunFront(resolve: Resolver, st: State, k: Statement, rest: seq<Statement>)
    ensures Run(resolve, st, [k] + rest) == Run(resolve, Step(resolve, st, k), rest)
  {
    RunAppend(resolve, st, [k], rest);
    assert [k][..0] == [];
  }

  lemma RunFirstLine(resolve: Resolver, st: State, lines: seq<string>)
    requires lines != []
    ensures Run(resolve, st, Statements(lines))
         == Run(resolve, Step(resolve, st, Statements(lines)[0]), Statements(lines[1..]))
  {
    var ks := Statements(lines);
    StatementsAppend([lines[0]], lines[1..]);
    assert [lines[0]] + lines[1..] == lines;
    assert Statements([lines[0]]) == [ks[0]];
    RunFront(resolve, st, ks[0], Statements(lines[1..]));
  }

  lemma FillerKind(resolve: Resolver, st: State, closes: bool, k: Statement)
    requires k == if closes then Close else Other
    ensures Step(resolve, st, k) == st.(inService := st.inService && !closes)
  {
  }

  lemma {:induction false} NoRpcRuns(resolve: Resolver, a: State, b: State, doc: seq<Statement>)
    requires SameBut(a, b) && AllDeclarations(doc) && NoRpc(doc)
    ensures SameBut(Run(resolve, a, doc), Run(resolve, b, doc))
    decreases |doc|
  {
    if doc != [] {
      NoRpcRuns(resolve, a, b, doc[..|doc| - 1]);
    }
  }

  /** A filler line at most closes the service, and that only after the last rpc. */
  lemma FillerTurn(resolve: Resolver, st: State, lines: seq<string>, doc: seq<Statement>)
    requires lines != [] && AllDeclarations(doc) && IsFiller(lines[0], doc, st.inService)
    ensures var after := st.(inService := st.inService && '}' !in lines[0]);
            && Run(resolve, st, Statements(lines)) == Run(resolve, after, Statements(lines[1..]))
            && SameBut(Run(resolve, after, doc), Run(resolve, st, doc))
  {
    RunFirstLine(resolve, st, lines);
    StatementAt(lines, 0);
    NoiseKind(lines[0]);
    FillerKind(resolve, st, '}' in lines[0], Statements(lines)[0]);
    if NoRpc(doc) {
      NoRpcRuns(resolve, st.(inService := st.inService && '}' !in lines[0]), st, doc);
    }
  }

  lemma WrittenStatement(lines: seq<string>, s: Statement)
    requires lines != [] && IsDeclaration(s) && Writes(lines[0], s)
    ensures Statements(lines)[0] == s
  {
    StatementAt(lines, 0);
    ClassifyDecides(lines[0], s);
  }

  lemma DeclarationOpens(resolve: Resolver, st: State, s: Statement)
    requires IsDeclaration(s)
    ensures Step(resolve, st, s).inService == (st.inService || s.ServiceLine?)
  {
  }

  lemma DeclarationTurn(resolve: Resolver, st: State, lines: seq<string>, doc: seq<Statement>)
    requires lines != [] && doc != [] && IsDeclaration(doc[0]) && Writes(lines[0], doc[0])
    ensures var after := Step(resolve, st, doc[0]);
            && after.inService == (st.inService || doc[0].ServiceLine?)
            && Run(resolve, st, Statements(lines)) == Run(resolve, after, Statements(lines[1..]))
            && Run(resolve, st, doc) == Run(resolve, after, doc[1..])
  {
    WrittenStatement(lines, doc[0]);
    RunFirstLine(resolve, st, lines);
    DeclarationOpens(resolve, st, doc[0]);
    assert [doc[0]] + doc[1..] == doc;
    RunFront(resolve, st, doc[0], doc[1..]);
  }

  /** Running over a layout is running over its declarations, up to whether the service is still open. */
  lemma {:induction false} LayoutRuns(resolve: Resolver, st: State, lines: seq<string>, doc: seq<Statement>)
    requires AllDeclarations(doc) && LaysOut(lines, doc, st.inService)
    ensures SameBut(Run(resolve, st, Statements(lines)), Run(resolve, st, doc))
    decreases |lines|
  {
    if lines != [] {
      if IsFiller(lines[0], doc, st.inService) && LaysOut(lines[1..], doc, st.inService && '}' !in lines[0]) {
        FillerTurn(resolve, st, lines, doc);
        LayoutRuns(resolve, st.(inService := st.inService && '}' !in lines[0]), lines[1..], doc);
      } else {
        DeclarationTurn(resolve, st, lines, doc);
        LayoutRuns(resolve, Step(resolve, st, doc[0]), lines[1..], doc[1..]);
      }
    }
  }

  // ---------- the document's own run ----------

  lemma {:induction false} RunImports(resolve: Resolver, paths: seq<string>)
    ensures var st := Run(resolve, INITIAL, ImportLines(paths)); st == INITIAL.(allImports := st.allImports)
  {
    if paths != [] {
      var n := |paths| - 1;
      RunImports(resolve, paths[..n]);
      assert ImportLines(paths)[..n] == ImportLines(paths[..n]);
    }
  }

  /** What rpc lines add to the state of an open service. */
  ghost predicate Extends(st: State, after: State, added: seq<ServiceMethod>) {
    && after.inService && after.serviceName == st.serviceName && after.goPackage == st.goPackage
    && after.methods == st.methods + added
  }

  lemma RpcStep(resolve: Resolver, st: State, before: State, added: seq<ServiceMethod>, rpc: Signature)
    requires Extends(st, before, added)
    ensures Extends(st, Step(resolve, before, RpcLine(rpc.name, rpc.request, rpc.response)),
                    added + [MethodOf(st.serviceName, rpc.name, rpc.request, rpc.response)])
  {
    var m := MethodOf(st.serviceName, rpc.name, rpc.request, rpc.response);
    assert st.methods + added + [m] == st.methods + (added + [m]);
  }

  lemma {:induction false} RunRpcs(resolve: Resolver, st: State, rpcs: seq<Signature>)
    requires st.inService
    ensures Extends(st, Run(resolve, st, RpcLines(rpcs)), Methods(st.serviceName, rpcs))
    decreases |rpcs|
  {
    if rpcs != [] {
      var n := |rpcs| - 1;
      RunRpcs(resolve, st, rpcs[..n]);
      assert RpcLines(rpcs)[..n] == RpcLines(rpcs[..n]);
      RpcStep(resolve, st, Run(resolve, st, RpcLines(rpcs[..n])), Methods(st.serviceName, rpcs[..n]), rpcs[n]);
    }
  }

  // ---------- the order of the declarations ----------

  ghost predicate NoGoPackage(ks: seq<Statement>) {
    forall k :: 0 <= k < |ks| ==> !ks[k].GoPackageLine?
  }

  lemma GoPackageStep(resolve: Resolver, st: State, value: string, k: Statement)
    requires !k.GoPackageLine?
    ensures Step(resolve, st.(goPackage := value), k) == Step(resolve, st, k).(goPackage := value)
  {
  }

  lemma {:induction false} GoPackageFirst(resolve: Resolver, st: State, value: string, ks: seq<Statement>)
    requires NoGoPackage(ks)
    ensures Run(resolve, st.(goPackage := value), ks) == Run(resolve, st, ks).(goPackage := value)
    decreases |ks|
  {
    if ks != [] {
      var n := |ks| - 1;
      GoPackageFirst(resolve, st, value, ks[..n]);
      GoPackageStep(resolve, Run(resolve, st, ks[..n]), value, ks[n]);
    }
  }

  /** Where the only go_package line stands does not matter. */
  lemma GoPackageAnywhere(resolve: Resolver, a: seq<Statement>, value: string, b: seq<Statement>)
    requires NoGoPackage(b)
    ensures Run(resolve, INITIAL, a + [GoPackageLine(value)] + b) == Run(resolve, INITIAL, a + b).(goPackage := value)
  {
    var st := Run(resolve, INITIAL, a);
    RunAppend(resolve, INITIAL, a, b);
    RunAppend(resolve, INITIAL, a, [GoPackageLine(value)] + b);
    assert a + [GoPackageLine(value)] + b == a + ([GoPackageLine(value)] + b);
    RunFront(resolve, st, GoPackageLine(value), b);
    GoPackageFirst(resolve, st, value, b);
  }

  lemma {:induction false} ServiceFirst(resolve: Resolver, st: State, name: string, paths: seq<string>)
    ensures Run(resolve, Step(resolve, st, ServiceLine(name)), ImportLines(paths))
         == Step(resolve, Run(resolve, st, ImportLines(paths)), ServiceLine(name))
    decreases |paths|
  {
    if paths != [] {
      var n := |paths| - 1;
      ServiceFirst(resolve, st, name, paths[..n]);
      assert ImportLines(paths)[..n] == ImportLines(paths[..n]);
    }
  }

  lemma RunsCommute(resolve: Resolver, a: seq<Statement>, k: Statement, b: seq<Statement>, c: seq<Statement>)
    requires var st := Run(resolve, INITIAL, a); Run(resolve, Step(resolve, st, k), b) == Step(resolve, Run(resolve, st, b), k)
    ensures Run(resolve, INITIAL, a + ([k] + (b + c))) == Run(resolve, INITIAL, (a + b) + ([k] + c))
  {
    var st := Run(resolve, INITIAL, a);
    RunAppend(resolve, INITIAL, a, [k] + (b + c));
    RunFront(resolve, st, k, b + c);
    RunAppend(resolve, Step(resolve, st, k), b, c);
    RunAppend(resolve, INITIAL, a + b, [k] + c);
    RunAppend(resolve, INITIAL, a, b);
    RunFront(resolve, Run(resolve, st, b), k, c);
  }

  lemma WithoutGoPackageParts(d: Document, i: nat)
    requires i <= |d.imports|
    ensures ImportLines(d.imports) == ImportLines(d.imports[..i]) + ImportLines(d.imports[i..])
    ensures WithoutGoPackage(d, i)
         == ImportLines(d.imports[..i]) + ([ServiceLine(d.service)] + (ImportLines(d.imports[i..]) + RpcLines(d.rpcs)))
  {
  }

  /** The service line may stand anywhere among the imports. */
  lemma ServiceAnywhere(resolve: Resolver, d: Document, i: nat)
    requires i <= |d.imports|
    ensures Run(resolve, INITIAL, WithoutGoPackage(d, i))
         == Run(resolve, INITIAL, ImportLines(d.imports) + ([ServiceLine(d.service)] + RpcLines(d.rpcs)))
  {
    var a, b := ImportLines(d.imports[..i]), ImportLines(d.imports[i..]);
    WithoutGoPackageParts(d, i);
    ServiceFirst(resolve, Run(resolve, INITIAL, a), d.service, d.imports[i..]);
    RunsCommute(resolve, a, ServiceLine(d.service), b, RpcLines(d.rpcs));
  }

  lemma GoPackageInto(resolve: Resolver, a: seq<Statement>, b: seq<Statement>, others: seq<Statement>, value: string)
    requires others == a + b && NoGoPackage(b)
    ensures Run(resolve, INITIAL, a + [GoPackageLine(value)] + b) == Run(resolve, INITIAL, others).(goPackage := value)
  {
    GoPackageAnywhere(resolve, a, value, b);
  }

  /** Every arrangement runs to the same state. */
  lemma ArrangedRuns(resolve: Resolver, d: Document, i: nat, g: nat)
    requires IsPlacement(d, i, g)
    ensures Run(resolve, INITIAL, Arranged(d, i, g)) == Run(resolve, INITIAL, Declarations(d))
  {
    var others := WithoutGoPackage(d, i);
    GoPackageInto(resolve, others[..g], others[g..], others, d.goPackage);
    ServiceAnywhere(resolve, d, i);
    DeclarationsRun(resolve, d);
  }

  /** What the declarations come to: the service line below the imports, with the go_package added. */
  lemma DeclarationsRun(resolve: Resolver, d: Document)
    ensures Run(resolve, INITIAL, Declarations(d))
         == Run(resolve, INITIAL, ImportLines(d.imports) + ([ServiceLine(d.service)] + RpcLines(d.rpcs))).(goPackage := d.goPackage)
  {
    GoPackageAnywhere(resolve, ImportLines(d.imports), d.goPackage, [ServiceLine(d.service)] + RpcLines(d.rpcs));
  }

  lemma ServiceRuns(resolve: Resolver, d: Document)
    ensures var st := Run(resolve, INITIAL, ImportLines(d.imports) + ([ServiceLine(d.service)] + RpcLines(d.rpcs)));
            st.serviceName == d.service && st.methods == Methods(d.service, d.rpcs)
  {
    var imports, rpcs := ImportLines(d.imports), RpcLines(d.rpcs);
    RunImports(resolve, d.imports);
    RunAppend(resolve, INITIAL, imports, [ServiceLine(d.service)] + rpcs);
    var st := Run(resolve, INITIAL, imports);
    RunFront(resolve, st, ServiceLine(d.service), rpcs);
    RunRpcs(resolve, Step(resolve, st, ServiceLine(d.service)), d.rpcs);
    assert [] + Methods(d.service, d.rpcs) == Methods(d.service, d.rpcs);
  }

  lemma RunDocument(resolve: Resolver, d: Document)
    ensures var st := Run(resolve, INITIAL, Declarations(d));
            && st.serviceName == d.service && st.goPackage == d.goPackage
            && st.methods == Methods(d.service, d.rpcs)
            && st.imports == Resolved(resolve, FirstUsePaths(Declarations(d), |Declarations(d)|))
  {
    DeclarationsRun(resolve, d);
    ServiceRuns(resolve, d);
    FinalState(resolve, Declarations(d));
  }

  ghost predicate IsNamed(s: Statement) {
    (s.ServiceLine? ==> s.name != "") && (s.GoPackageLine? ==> s.value != "")
  }

  lemma WrittenNamed(line: string, s: Statement)
    requires IsDeclaration(s) && Writes(line, s)
    ensures IsNamed(s)
  {
    ClassifyDecides(line, s);
    ServiceShape(); GoPackageShape();
    PatternsDisjoint(line);
    match s
    case ServiceLine(_) => ScanCaptures(SERVICE, line);
    case GoPackageLine(_) => ScanCaptures(GO_PACKAGE, line);
    case _ =>
  }

  lemma {:induction false} LayoutNamed(lines: seq<string>, doc: seq<Statement>, open: bool)
    requires AllDeclarations(doc) && LaysOut(lines, doc, open)
    ensures forall k :: 0 <= k < |doc| ==> IsNamed(doc[k])
    decreases |lines|
  {
    if lines != [] {
      if IsFiller(lines[0], doc, open) && LaysOut(lines[1..], doc, open && '}' !in lines[0]) {
        LayoutNamed(lines[1..], doc, open && '}' !in lines[0]);
      } else {
        WrittenNamed(lines[0], doc[0]);
        LayoutNamed(lines[1..], doc[1..], open || doc[0].ServiceLine?);
      }
    }
  }

  /** What a document describes. */
  ghost function Described(resolve: Resolver, path: Path, d: Document): Service {
    Service(Dir(path), Stem(LastName(path)), d.service, LastPiece(d.goPackage, '/'), Methods(d.service, d.rpcs),
            Resolved(resolve, FirstUsePaths(Declarations(d), |Declarations(d)|)))
  }

  /** The round trip: from any layout of a document in any arrangement the parser recovers the service
      name, the last segment of go_package, every method in order, and the go_packages of the imports it
      uses. */
  lemma ParseLayout(resolve: Resolver, path: Path, lines: seq<string>, d: Document, i: nat, g: nat)
    requires IsPlacement(d, i, g) && LaysOut(lines, Arranged(d, i, g), false)
    ensures ParseLines(resolve, path, lines) == Ok(Described(resolve, path, d))
  {
    LayoutNamed(lines, Arranged(d, i, g), false);
    assert IsNamed(GoPackageLine(d.goPackage)) && IsNamed(ServiceLine(d.service));
    LayoutRuns(resolve, INITIAL, lines, Arranged(d, i, g));
    ArrangedRuns(resolve, d, i, g);
    RunDocument(resolve, d);
  }

  /** The `k`-th method of the result, field by field. */
  lemma {:induction false} MethodsAt(service: string, rpcs: seq<Signature>, k: nat)
    requires k < |rpcs|
    ensures IsCallerFor(Methods(service, rpcs)[k], service, rpcs[k].name, rpcs[k].request, rpcs[k].response)
    decreases |rpcs|
  {
    if k < |rpcs| - 1 {
      MethodsAt(service, rpcs[..|rpcs| - 1], k);
    }
  }

  /** The same for a file: its text is the lines of a layout, each with a newline after it. */
  lemma ParseLayoutFile(files: Files, root: Path, path: Path, lines: seq<string>, d: Document, i: nat, g: nat)
    requires path in files && files[path] == TextOf(lines)
    requires NoNewlines(lines) && forall k :: 0 <= k < |lines| ==> DropCarriageReturn(lines[k]) == lines[k]
    requires IsPlacement(d, i, g) && LaysOut(lines, Arranged(d, i, g), false)
    ensures Parse(files, root, path) == Ok(Described(FileResolver(files, root), path, d))
  {
    LinesOfText(lines);
    ParseLayout(FileResolver(files, root), path, lines, d, i, g);
  }

  // ---------- printing a document ----------

  ghost function PrintAll(doc: seq<Statement>): (r: seq<string>)
    requires AllDeclarations(doc)
    ensures |r| == |doc| && forall k :: 0 <= k < |r| ==> r[k] == Print(doc[k])
  {
    if doc == [] then [] else [Print(doc[0])] + PrintAll(doc[1..])
  }

  lemma {:induction false} PrintLaysOut(doc: seq<Statement>, open: bool)
    requires AllDeclarations(doc) && AllWellFormed(doc)
    ensures LaysOut(PrintAll(doc), doc, open)
    decreases |doc|
  {
    if doc != [] {
      PrintWrites(doc[0]);
      PrintLaysOut(doc[1..], open || doc[0].ServiceLine?);
      assert PrintAll(doc)[1..] == PrintAll(doc[1..]);
    }
  }

  /** The text of a printed document has its printed declarations for lines. */
  lemma PrintedLines(doc: seq<Statement>)
    requires AllDeclarations(doc) && AllWellFormed(doc)
    ensures Lines(TextOf(PrintAll(doc))) == PrintAll(doc)
  {
    forall k | 0 <= k < |doc|
      ensures IsOneLine(PrintAll(doc)[k])
    {
      PrintOneLine(doc[k]);
    }
    LinesOfText(PrintAll(doc));
  }

  /** Each of those lines is understood as what was printed. */
  lemma PrintedStatements(doc: seq<Statement>)
    requires AllDeclarations(doc) && AllWellFormed(doc)
    ensures Statements(PrintAll(doc)) == doc
  {
    forall k | 0 <= k < |doc|
      ensures Statements(PrintAll(doc))[k] == doc[k]
    {
      StatementAt(PrintAll(doc), k);
      PrintWrites(doc[k]);
      ClassifyDecides(Print(doc[k]), doc[k]);
    }
  }

  lemma ArrangedWellFormed(d: Document, i: nat, g: nat)
    requires IsPlacement(d, i, g) && Legal(d)
    ensures AllWellFormed(Arranged(d, i, g))
  {
    var doc, others := Declarations(d), WithoutGoPackage(d, i);
    var n := |d.imports|;
    forall k | 0 <= k < |others|
      ensures WellFormed(others[k])
    {
      assert others[k] == doc[if k < i then k else if k == i then n + 1 else if k <= n then k - 1 else k + 1];
    }
    assert doc[n] == GoPackageLine(d.goPackage);
  }

  /** Every legal document can be printed, in any arrangement, and what is printed parses back. */
  lemma ParsePrinted(resolve: Resolver, path: Path, d: Document, i: nat, g: nat)
    requires IsPlacement(d, i, g) && Legal(d)
    ensures ParseLines(resolve, path, PrintAll(Arranged(d, i, g))) == Ok(Described(resolve, path, d))
  {
    ArrangedWellFormed(d, i, g);
    PrintLaysOut(Arranged(d, i, g), false);
    ParseLayout(resolve, path, PrintAll(Arranged(d, i, g)), d, i, g);
  }

  /** The same through the text of a file. */
  lemma ParsePrintedFile(files: Files, root: Path, path: Path, d: Document, i: nat, g: nat)
    requires IsPlacement(d, i, g) && Legal(d)
    requires path in files && files[path] == TextOf(PrintAll(Arranged(d, i, g)))
    ensures Parse(files, root, path) == Ok(Described(FileResolver(files, root), path, d))
  {
    ArrangedWellFormed(d, i, g);
    PrintedLines(Arranged(d, i, g));
    ParsePrinted(FileResolver(files, root), path, d, i, g);
  }
}
