/** The Go file rendered for a service, and a decoder that recovers the service from its text. */
module GoFile {
  import opened Text
  import opened CamelCase
  import opened ProtoParser

  // ---------- the template ----------

  const RPCCALL := "github.com/openimsdk/protocol/rpccall"
  const NEW_CALLER := "= rpccall.NewRpcCaller"
  const FUNC_INIT := "func Init"
  const GRPC := "google.golang.org/grpc"

  function QuotedLine(path: string): string {
    "\t\"" + path + "\""
  }

  function SetConnLine(m: ServiceMethod): string {
    "\t" + m.name + ".SetConn(conn)"
  }

  function TypesAndName(m: ServiceMethod): string {
    m.requestType + ", " + m.responseType + "](" + m.fullMethodName + ")"
  }

  function CallerLine(m: ServiceMethod): string {
    "\t" + m.name + " " + NEW_CALLER + "[" + TypesAndName(m)
  }

  function QuotedLines(paths: seq<string>): (r: seq<string>)
    ensures |r| == |paths| && forall k :: 0 <= k < |r| ==> r[k] == QuotedLine(paths[k])
  {
    if paths == [] then [] else [QuotedLine(paths[0])] + QuotedLines(paths[1..])
  }

  function SetConnLines(methods: seq<ServiceMethod>): (r: seq<string>)
    ensures |r| == |methods| && forall k :: 0 <= k < |r| ==> r[k] == SetConnLine(methods[k])
  {
    if methods == [] then [] else [SetConnLine(methods[0])] + SetConnLines(methods[1..])
  }

  function CallerLines(methods: seq<ServiceMethod>): (r: seq<string>)
    ensures |r| == |methods| && forall k :: 0 <= k < |r| ==> r[k] == CallerLine(methods[k])
  {
    if methods == [] then [] else [CallerLine(methods[0])] + CallerLines(methods[1..])
  }

  function InitLine(camel: string): string {
    FUNC_INIT + camel + "(conn *grpc.ClientConn) {"
  }

  function VarSection(s: Service): seq<string> {
    ["}", "", "var ("] + CallerLines(s.methods) + [")", ""]
  }

  function InitSection(s: Service): seq<string> {
    [")", "", InitLine(Camel(s.serviceName))] + SetConnLines(s.methods) + VarSection(s)
  }

  /** The lines of the executed template; a trimmed `range` block puts each item on its own line. */
  function RenderedLines(s: Service): seq<string> {
    ["package " + s.goPackage, "", "import ("] + QuotedLines(s.imports + [RPCCALL, GRPC]) + InitSection(s)
  }

  function Render(s: Service): string {
    Join(RenderedLines(s), "\n")
  }

  // ---------- what may be rendered ----------

  ghost predicate IsTypeText(s: string) {
    forall k :: 0 <= k < |s| ==> IsWord(s[k]) || s[k] == '.'
  }

  /** A method whose parts keep to the alphabets of the rpc pattern, with a generated name. */
  ghost predicate RenderableMethod(m: ServiceMethod) {
    && m.name != "" && !('a' <= m.name[0] <= 'z') && IsWordText(m.name)
    && IsTypeText(m.requestType) && IsTypeText(m.responseType)
    && IsWordText(m.fullMethodName)
  }

  ghost predicate Renderable(s: Service) {
    && '\n' !in s.goPackage
    && NoNewlines(s.imports)
    && IsWordText(s.serviceName)
    && (forall k :: 0 <= k < |s.methods| ==> RenderableMethod(s.methods[k]))
  }

  // ---------- the decoder ----------

  datatype GoText = GoText(
    goPackage: string,
    imports: seq<string>,
    service: string,
    connected: seq<string>,
    methods: seq<ServiceMethod>)

  predicate IsTabbed(line: string) {
    line != "" && line[0] == '\t'
  }

  /** How many lines at the front are indented. */
  function TabRun(lines: seq<string>): (n: nat)
    ensures n <= |lines|
  {
    if lines == [] || !IsTabbed(lines[0]) then 0 else 1 + TabRun(lines[1..])
  }

  function Drop(s: string, n: nat): string {
    if |s| < n then "" else s[n..]
  }

  function Unquote(line: string): string {
    if |line| < 3 then "" else line[2..|line| - 1]
  }

  function DecodeSetConn(line: string): string {
    Before(After(line, '\t'), '.')
  }

  function DecodeCaller(line: string): ServiceMethod {
    var types := After(line, '[');
    ServiceMethod(
      Before(After(line, '\t'), ' '),
      Before(types, ','),
      Before(After(types, ' '), ']'),
      Before(After(types, '('), ')'))
  }

  function UnquoteAll(lines: seq<string>): seq<string> {
    if lines == [] then [] else [Unquote(lines[0])] + UnquoteAll(lines[1..])
  }

  function DecodeSetConns(lines: seq<string>): seq<string> {
    if lines == [] then [] else [DecodeSetConn(lines[0])] + DecodeSetConns(lines[1..])
  }

  function DecodeCallers(lines: seq<string>): seq<ServiceMethod> {
    if lines == [] then [] else [DecodeCaller(lines[0])] + DecodeCallers(lines[1..])
  }

  /** Reads the indented block that follows three unindented lines: the third of these, the block,
      and what comes after. */
  function Section(lines: seq<string>): Option<(string, seq<string>, seq<string>)> {
    if |lines| < 3 then None
    else
      var n := TabRun(lines[3..]);
      Some((lines[2], lines[3..][..n], lines[3..][n..]))
  }

  function DecodeParts(
      packageLine: string, imports: seq<string>, init: string, connected: seq<string>, callers: seq<string>): GoText
    requires |imports| >= 2
  {
    GoText(
      After(packageLine, ' '),
      UnquoteAll(imports[..|imports| - 2]),
      Before(Drop(init, |FUNC_INIT|), '('),
      DecodeSetConns(connected),
      DecodeCallers(callers))
  }

  function DecodeLines(lines: seq<string>): Option<GoText> {
    match Section(lines)
    case None => None
    case Some((_, imports, afterImports)) =>
      match Section(afterImports)
      case None => None
      case Some((init, connected, afterInit)) =>
        match Section(afterInit)
        case None => None
        case Some((_, callers, _)) =>
          if |imports| < 2 then None else Some(DecodeParts(lines[0], imports, init, connected, callers))
  }

  function Decode(text: string): Option<GoText> {
    DecodeLines(Split(text, '\n'))
  }

  // ---------- the decoder undoes the template ----------

  lemma {:induction false} TabRunBlock(block: seq<string>, rest: seq<string>)
    requires forall k :: 0 <= k < |block| ==> IsTabbed(block[k])
    requires rest != [] && !IsTabbed(rest[0])
    ensures TabRun(block + rest) == |block|
  {
    if block == [] {
      assert block + rest == rest;
    } else {
      assert (block + rest)[1..] == block[1..] + rest;
      TabRunBlock(block[1..], rest);
    }
  }

  lemma SectionOf(head: seq<string>, block: seq<string>, rest: seq<string>)
    requires |head| == 3
    requires forall k :: 0 <= k < |block| ==> IsTabbed(block[k])
    requires rest != [] && !IsTabbed(rest[0])
    ensures Section(head + block + rest) == Some((head[2], block, rest))
  {
    var lines := head + block + rest;
    assert lines[3..] == block + rest;
    TabRunBlock(block, rest);
    assert (block + rest)[..|block|] == block && (block + rest)[|block|..] == rest;
  }

  lemma {:induction false} UnquoteQuoted(paths: seq<string>)
    ensures UnquoteAll(QuotedLines(paths)) == paths
  {
    if paths != [] {
      UnquoteQuoted(paths[1..]);
      assert QuotedLine(paths[0])[2..|paths[0]| + 2] == paths[0];
      assert QuotedLines(paths)[1..] == QuotedLines(paths[1..]);
    }
  }

  /** Cutting out the field between two characters. */
  lemma FieldBetween(before: string, open: char, field: string, close: char, after: string)
    requires open !in before && close !in field
    ensures Before(After(before + [open] + field + [close] + after, open), close) == field
    ensures After(before + [open] + field + [close] + after, open) == field + [close] + after
  {
    assert before + [open] + field + [close] + after == before + [open] + (field + [close] + after);
    CutAt(before, open, field + [close] + after);
    CutAt(field, close, after);
  }

  lemma DecodeSetConnLine(m: ServiceMethod)
    requires RenderableMethod(m)
    ensures DecodeSetConn(SetConnLine(m)) == m.name
  {
    assert SetConnLine(m) == "" + ['\t'] + m.name + ['.'] + "SetConn(conn)";
    FieldBetween("", '\t', m.name, '.', "SetConn(conn)");
  }

  lemma CutCaller(line: string, name: string, call: string, types: string)
    requires line == "\t" + name + " " + call + "[" + types
    requires ' ' !in name && '[' !in name && '[' !in call
    ensures Before(After(line, '\t'), ' ') == name
    ensures After(line, '[') == types
  {
    assert line == "" + ['\t'] + name + [' '] + (call + "[" + types);
    FieldBetween("", '\t', name, ' ', call + "[" + types);
    var before := "\t" + name + " " + call;
    assert line == before + ['['] + types;
    CutAt(before, '[', types);
  }

  lemma CutTypes(text: string, request: string, response: string, full: string)
    requires text == request + ", " + response + "](" + full + ")"
    requires ',' !in request && ' ' !in request && '(' !in request
    requires ']' !in response && '(' !in response
    requires ')' !in full
    ensures Before(text, ',') == request
    ensures Before(After(text, ' '), ']') == response
    ensures Before(After(text, '('), ')') == full
  {
    var end := "(" + full + ")";
    assert text == request + [','] + (" " + response + "]" + end);
    CutAt(request, ',', " " + response + "]" + end);
    assert text == (request + ",") + [' '] + response + [']'] + end;
    FieldBetween(request + ",", ' ', response, ']', end);
    var before := request + ", " + response + "]";
    assert text == before + ['('] + full + [')'] + "";
    FieldBetween(before, '(', full, ')', "");
  }

  lemma DecodeCallerLine(m: ServiceMethod)
    requires RenderableMethod(m)
    ensures DecodeCaller(CallerLine(m)) == m
  {
    CutCaller(CallerLine(m), m.name, NEW_CALLER, TypesAndName(m));
    CutTypes(TypesAndName(m), m.requestType, m.responseType, m.fullMethodName);
  }

  lemma {:induction false} DecodeSetConnBlock(methods: seq<ServiceMethod>)
    requires forall k :: 0 <= k < |methods| ==> RenderableMethod(methods[k])
    ensures |DecodeSetConns(SetConnLines(methods))| == |methods|
    ensures forall k :: 0 <= k < |methods| ==> DecodeSetConns(SetConnLines(methods))[k] == methods[k].name
  {
    if methods != [] {
      DecodeSetConnLine(methods[0]);
      DecodeSetConnBlock(methods[1..]);
      assert SetConnLines(methods)[1..] == SetConnLines(methods[1..]);
    }
  }

  lemma {:induction false} DecodeCallerBlock(methods: seq<ServiceMethod>)
    requires forall k :: 0 <= k < |methods| ==> RenderableMethod(methods[k])
    ensures DecodeCallers(CallerLines(methods)) == methods
  {
    if methods != [] {
      DecodeCallerLine(methods[0]);
      DecodeCallerBlock(methods[1..]);
      assert CallerLines(methods)[1..] == CallerLines(methods[1..]);
    }
  }

  // ---------- whole files ----------

  lemma LinesHaveNoNewline(s: Service)
    requires Renderable(s)
    ensures NoNewlines(RenderedLines(s))
  {
    var head, block := ["package " + s.goPackage, "", "import ("], QuotedLines(s.imports + [RPCCALL, GRPC]);
    HeadHasNoNewline(s.goPackage);
    NoNewlinesAppend(s.imports, [RPCCALL, GRPC]);
    ImportsHaveNoNewline(s.imports + [RPCCALL, GRPC]);
    InitHasNoNewline(s);
    NoNewlinesAppend(head, block);
    NoNewlinesAppend(head + block, InitSection(s));
  }

  lemma HeadHasNoNewline(goPackage: string)
    requires '\n' !in goPackage
    ensures NoNewlines(["package " + goPackage, "", "import ("])
    ensures NoNewlines([RPCCALL, GRPC])
  {
  }

  lemma VarHasNoNewline(s: Service)
    requires NoNewlines(CallerLines(s.methods))
    ensures NoNewlines(VarSection(s))
  {
    var head := ["}", "", "var ("];
    NoNewlinesAppend(head, CallerLines(s.methods));
    NoNewlinesAppend(head + CallerLines(s.methods), [")", ""]);
  }

  lemma InitLineHasNoNewline(camel: string)
    requires '\n' !in camel
    ensures NoNewlines([")", "", InitLine(camel)])
  {
    assert '\n' !in FUNC_INIT;
  }

  lemma InitHasNoNewline(s: Service)
    requires Renderable(s)
    ensures NoNewlines(InitSection(s))
  {
    CamelizeAlphabet(s.serviceName, true);
    CallersHaveNoNewline(s.methods);
    VarHasNoNewline(s);
    var head := [")", "", InitLine(Camel(s.serviceName))];
    InitLineHasNoNewline(Camel(s.serviceName));
    NoNewlinesAppend(head, SetConnLines(s.methods));
    NoNewlinesAppend(head + SetConnLines(s.methods), VarSection(s));
  }

  lemma ImportsHaveNoNewline(paths: seq<string>)
    requires NoNewlines(paths)
    ensures NoNewlines(QuotedLines(paths))
  {
  }

  lemma {:induction false} CallersHaveNoNewline(methods: seq<ServiceMethod>)
    requires forall k :: 0 <= k < |methods| ==> RenderableMethod(methods[k])
    ensures NoNewlines(SetConnLines(methods)) && NoNewlines(CallerLines(methods))
  {
    if methods != [] {
      CallerHasNoNewline(methods[0]);
      CallersHaveNoNewline(methods[1..]);
    }
  }

  lemma CallerHasNoNewline(m: ServiceMethod)
    requires RenderableMethod(m)
    ensures '\n' !in SetConnLine(m) && '\n' !in CallerLine(m)
  {
    assert '\n' !in TypesAndName(m);
  }

  lemma SplitRendered(s: Service)
    requires Renderable(s)
    ensures Split(Render(s), '\n') == RenderedLines(s)
  {
    LinesHaveNoNewline(s);
    SplitJoin(RenderedLines(s), '\n');
  }

  lemma Sections(s: Service)
    ensures Section(RenderedLines(s)) == Some(("import (", QuotedLines(s.imports + [RPCCALL, GRPC]), InitSection(s)))
    ensures Section(InitSection(s)) == Some((InitLine(Camel(s.serviceName)), SetConnLines(s.methods), VarSection(s)))
    ensures Section(VarSection(s)) == Some(("var (", CallerLines(s.methods), [")", ""]))
  {
    SectionOf(["package " + s.goPackage, "", "import ("], QuotedLines(s.imports + [RPCCALL, GRPC]), InitSection(s));
    SectionOf([")", "", InitLine(Camel(s.serviceName))], SetConnLines(s.methods), VarSection(s));
    SectionOf(["}", "", "var ("], CallerLines(s.methods), [")", ""]);
  }

  lemma DecodeInitLine(camel: string)
    requires '(' !in camel
    ensures Before(Drop(InitLine(camel), |FUNC_INIT|), '(') == camel
  {
    var after := "conn *grpc.ClientConn) {";
    assert InitLine(camel) == FUNC_INIT + (camel + ['('] + after);
    assert Drop(InitLine(camel), |FUNC_INIT|) == camel + ['('] + after;
    CutAt(camel, '(', after);
  }

  lemma DecodePackageLine(goPackage: string)
    ensures After("package " + goPackage, ' ') == goPackage
  {
    assert "package " + goPackage == "package" + [' '] + goPackage;
    CutAt("package", ' ', goPackage);
  }

  lemma DecodeImports(imports: seq<string>)
    ensures var block := QuotedLines(imports + [RPCCALL, GRPC]); UnquoteAll(block[..|block| - 2]) == imports
  {
    var block := QuotedLines(imports + [RPCCALL, GRPC]);
    assert block[..|block| - 2] == QuotedLines(imports);
    UnquoteQuoted(imports);
  }

  function Names(methods: seq<ServiceMethod>): (r: seq<string>)
    ensures |r| == |methods| && forall k :: 0 <= k < |r| ==> r[k] == methods[k].name
  {
    if methods == [] then [] else [methods[0].name] + Names(methods[1..])
  }

  lemma DecodeRenderedParts(s: Service)
    requires Renderable(s)
    ensures DecodeParts("package " + s.goPackage, QuotedLines(s.imports + [RPCCALL, GRPC]), InitLine(Camel(s.serviceName)),
                        SetConnLines(s.methods), CallerLines(s.methods))
         == GoText(s.goPackage, s.imports, Camel(s.serviceName), Names(s.methods), s.methods)
  {
    CamelizeAlphabet(s.serviceName, true);
    DecodePackageLine(s.goPackage);
    DecodeImports(s.imports);
    DecodeInitLine(Camel(s.serviceName));
    DecodeSetConnBlock(s.methods);
    DecodeCallerBlock(s.methods);
    assert DecodeSetConns(SetConnLines(s.methods)) == Names(s.methods);
  }

  /** The rendered file is decodable: package, imports, service, every method quadruple and the list
      of connected callers are recovered from the text. */
  lemma DecodeRender(s: Service)
    requires Renderable(s)
    ensures Decode(Render(s)) == Some(GoText(s.goPackage, s.imports, Camel(s.serviceName), Names(s.methods), s.methods))
  {
    SplitRendered(s);
    Sections(s);
    assert RenderedLines(s)[0] == "package " + s.goPackage;
    DecodeRenderedParts(s);
  }

  /** The rendered file, line by line. */
  lemma RenderedText(s: Service) returns (imports: seq<string>, connects: seq<string>, callers: seq<string>)
    requires Renderable(s)
    ensures Split(Render(s), '\n')
         == ["package " + s.goPackage, "", "import ("]
            + imports
            + ["\t\"github.com/openimsdk/protocol/rpccall\"", "\t\"google.golang.org/grpc\"", ")", "",
               "func Init" + Camel(s.serviceName) + "(conn *grpc.ClientConn) {"]
            + connects
            + ["}", "", "var ("]
            + callers
            + [")", ""]
    ensures |imports| == |s.imports| && forall k :: 0 <= k < |imports| ==> imports[k] == "\t\"" + s.imports[k] + "\""
    ensures |connects| == |s.methods| && forall k :: 0 <= k < |connects| ==>
              connects[k] == "\t" + s.methods[k].name + ".SetConn(conn)"
    ensures |callers| == |s.methods| && forall k :: 0 <= k < |callers| ==>
              callers[k] == "\t" + s.methods[k].name + " = rpccall.NewRpcCaller[" + s.methods[k].requestType + ", "
                            + s.methods[k].responseType + "](" + s.methods[k].fullMethodName + ")"
  {
    imports, connects, callers := QuotedLines(s.imports), SetConnLines(s.methods), CallerLines(s.methods);
    SplitRendered(s);
    FixedImports(s.imports);
    Regroup(["package " + s.goPackage, "", "import ("], imports, [QuotedLine(RPCCALL), QuotedLine(GRPC)],
            [")", "", InitLine(Camel(s.serviceName))], connects, ["}", "", "var ("], callers, [")", ""]);
    FixedTexts(Camel(s.serviceName));
    forall k | 0 <= k < |callers|
      ensures callers[k] == "\t" + s.methods[k].name + " = rpccall.NewRpcCaller[" + s.methods[k].requestType + ", "
                            + s.methods[k].responseType + "](" + s.methods[k].fullMethodName + ")"
    {
      CallerText(s.methods[k].name, s.methods[k].requestType, s.methods[k].responseType, s.methods[k].fullMethodName);
    }
  }

  lemma FixedImports(imports: seq<string>)
    ensures QuotedLines(imports + [RPCCALL, GRPC]) == QuotedLines(imports) + [QuotedLine(RPCCALL), QuotedLine(GRPC)]
  {
  }

  lemma Regroup(
      head: seq<string>, imports: seq<string>, fixed: seq<string>, init: seq<string>, connects: seq<string>,
      vars: seq<string>, callers: seq<string>, end: seq<string>)
    ensures head + (imports + fixed) + (init + connects + (vars + callers + end))
         == head + imports + (fixed + init) + connects + vars + callers + end
  {
  }

  lemma FixedTexts(camel: string)
    ensures [QuotedLine(RPCCALL), QuotedLine(GRPC)] + [")", "", InitLine(camel)]
         == ["\t\"github.com/openimsdk/protocol/rpccall\"", "\t\"google.golang.org/grpc\"", ")", "",
             "func Init" + camel + "(conn *grpc.ClientConn) {"]
  {
    RpccallText();
    GrpcText();
  }

  lemma RpccallText()
    ensures QuotedLine(RPCCALL) == "\t\"github.com/openimsdk/protocol/rpccall\""
  {
  }

  lemma GrpcText()
    ensures QuotedLine(GRPC) == "\t\"google.golang.org/grpc\""
  {
  }

  lemma CallerText(name: string, request: string, response: string, full: string)
    ensures "\t" + name + " " + NEW_CALLER + "[" + (request + ", " + response + "](" + full + ")")
         == "\t" + name + " = rpccall.NewRpcCaller[" + request + ", " + response + "](" + full + ")"
  {
    assert " " + NEW_CALLER + "[" == " = rpccall.NewRpcCaller[";
    var call := " = rpccall.NewRpcCaller[";
    assert "\t" + name + " " + NEW_CALLER + "[" == "\t" + name + call;
  }

  /** Services that differ in any rendered part render differently. */
  lemma RenderInjective(s: Service, t: Service)
    requires Renderable(s) && Renderable(t)
    ensures Render(s) == Render(t)
       <==> s.goPackage == t.goPackage && s.imports == t.imports && Camel(s.serviceName) == Camel(t.serviceName)
            && s.methods == t.methods
  {
    DecodeRender(s);
    DecodeRender(t);
    if s.goPackage == t.goPackage && s.imports == t.imports && Camel(s.serviceName) == Camel(t.serviceName)
       && s.methods == t.methods {
      assert RenderedLines(s) == RenderedLines(t);
    }
  }
}
