/** What holds of the Go file generated from any parsed service. */
module ParsedServices {
  import opened Text
  import Patterns
  import opened ProtoLines
  import opened CamelCase
  import opened Paths
  import opened ProtoParser
  import opened ParserLaws
  import opened GoFile

  // ---------- alphabets of the generated names ----------

  lemma {:induction false} CamelizeTypeText(s: string, start: bool)
    requires IsTypeText(s)
    ensures IsTypeText(Camelize(s, start))
  {
    if s != [] {
      assert forall k :: 0 <= k < |s[1..]| ==> s[1..][k] == s[k + 1];
      CamelizeTypeText(s[1..], s[0] == '_');
    }
  }

  lemma CamelTypeText(s: string)
    requires IsTypeText(s)
    ensures IsTypeText(Camel(s))
  {
    if '.' in s {
      DotSplits(s);
      PieceTypeText(s, 0);
      PieceTypeText(s, 1);
      CamelizeTypeText(Split(s, '.')[1], true);
    } else {
      CamelizeTypeText(s, true);
    }
  }

  lemma PieceTypeText(s: string, i: nat)
    requires IsTypeText(s) && i < |Split(s, '.')|
    ensures IsTypeText(Split(s, '.')[i])
  {
    var piece := Split(s, '.')[i];
    forall k | 0 <= k < |piece|
      ensures IsWord(piece[k]) || piece[k] == '.'
    {
      if piece[k] !in s {
        PieceChars(s, '.', piece[k]);
        assert false;
      }
    }
  }

  lemma {:induction false} CamelizeStart(s: string)
    requires Camelize(s, true) != []
    ensures !('a' <= Camelize(s, true)[0] <= 'z')
  {
    if s[0] == '_' {
      CamelizeStart(s[1..]);
    }
  }

  lemma CallerNameText(name: string)
    requires IsWordText(name)
    ensures var caller := Camelize(name, true) + "Caller";
            caller != "" && !('a' <= caller[0] <= 'z') && IsWordText(caller)
  {
    CamelizeAlphabet(name, true);
    if Camelize(name, true) != [] {
      CamelizeStart(name);
    }
  }

  lemma FullMethodNameText(service: string, name: string)
    requires IsWordText(service) && IsWordText(name)
    ensures IsWordText(Camelize(service, true) + "_" + Camelize(name, true) + "_" + FULL_METHOD_NAME)
  {
    CamelizeAlphabet(service, true);
    CamelizeAlphabet(name, true);
    WordTextJoins(Camelize(service, true), Camelize(name, true), FULL_METHOD_NAME);
  }

  lemma WordTextJoins(a: string, b: string, c: string)
    requires IsWordText(a) && IsWordText(b) && IsWordText(c)
    ensures IsWordText(a + "_" + b + "_" + c)
  {
  }

  lemma MethodRenderable(service: string, name: string, request: string, response: string)
    requires IsWordText(service) && IsWordText(name) && IsTypeText(request) && IsTypeText(response)
    ensures RenderableMethod(MethodOf(service, name, request, response))
  {
    CamelTypeText(request);
    CamelTypeText(response);
    CallerNameText(name);
    FullMethodNameText(service, name);
  }

  lemma IdentIsWordText(s: string)
    ensures IsIdent(s) ==> IsWordText(s)
    ensures IsTypeName(s) ==> IsTypeText(s)
  {
    if IsTypeName(s) {
      Patterns.GroupAlphabet(Patterns.TypeName, s);
    }
  }

  lemma {:induction false} NearestServiceWord(ks: seq<Statement>, n: nat)
    requires n <= |ks| && AllWellFormed(ks)
    ensures IsWordText(NearestService(ks, n))
  {
    if n > 0 {
      NearestServiceWord(ks, n - 1);
      assert WellFormed(ks[n - 1]);
    }
  }

  lemma {:induction false} MethodsRenderable(ks: seq<Statement>, n: nat)
    requires n <= |ks| && AllWellFormed(ks)
    ensures forall k :: 0 <= k < |MethodsBefore(ks, n)| ==> RenderableMethod(MethodsBefore(ks, n)[k])
  {
    if n > 0 {
      MethodsRenderable(ks, n - 1);
      if IsMethodAt(ks, n - 1) {
        var k := ks[n - 1];
        assert WellFormed(k);
        NearestServiceWord(ks, n - 1);
        IdentIsWordText(k.name);
        IdentIsWordText(k.request);
        IdentIsWordText(k.response);
        MethodRenderable(NearestService(ks, n - 1), k.name, k.request, k.response);
      }
    }
  }

  lemma {:induction false} ResolvedNoNewlines(files: Files, root: Path, paths: seq<string>)
    ensures NoNewlines(Resolved(FileResolver(files, root), paths))
    decreases |paths|
  {
    if paths != [] {
      var n := |paths| - 1;
      ResolvedNoNewlines(files, root, paths[..n]);
      GoPackageNoNewline(files, JoinPath(root, paths[n]));
    }
  }

  lemma FirstGoPackageText(ks: seq<Statement>)
    requires AllWellFormed(ks) && FirstGoPackage(ks).Some?
    ensures '\n' !in FirstGoPackage(ks).value
  {
    FirstGoPackageFound(ks);
    var k :| 0 <= k < |ks| && ks[k] == GoPackageLine(FirstGoPackage(ks).value);
    assert WellFormed(ks[k]);
  }

  lemma GoPackageNoNewline(files: Files, path: Path)
    ensures GoPackageIn(files, path).Ok? ==> '\n' !in GoPackageIn(files, path).value
  {
    if GoPackageIn(files, path).Ok? {
      ParsedLinesWellFormed(files, path);
      FirstGoPackageText(Statements(Lines(files[path])));
    }
  }

  /** Every parsed service keeps to the alphabets the decoder relies on. */
  lemma ParsedRenderable(files: Files, root: Path, path: Path)
    requires Parse(files, root, path).Ok?
    ensures Renderable(Parse(files, root, path).value)
  {
    var ks := Statements(Lines(files[path]));
    ParseClosedForm(files, root, path);
    ParsedLinesWellFormed(files, path);
    NearestServiceWord(ks, |ks|);
    MethodsRenderable(ks, |ks|);
    ResolvedNoNewlines(files, root, FirstUsePaths(ks, |ks|));
    NearestGoPackageText(ks, |ks|);
    PieceChars(NearestGoPackage(ks, |ks|), '/', '\n');
  }

  lemma {:induction false} NearestGoPackageText(ks: seq<Statement>, n: nat)
    requires n <= |ks| && AllWellFormed(ks)
    ensures '\n' !in NearestGoPackage(ks, n)
  {
    if n > 0 {
      NearestGoPackageText(ks, n - 1);
      assert WellFormed(ks[n - 1]);
    }
  }

  // ---------- a generated file declares no go_package ----------

  /** The first character that is not the leading tab is neither blank nor `o`. */
  predicate StartsUnlikeOption(line: string) {
    || line == ""
    || (!IsBlank(line[0]) && line[0] != 'o')
    || (|line| >= 2 && line[0] == '\t' && !IsBlank(line[1]) && line[1] != 'o')
  }

  lemma NotGoPackageLine(line: string)
    requires StartsUnlikeOption(line)
    ensures !Classify(line).GoPackageLine?
  {
    if Patterns.Scan(GO_PACKAGE, line).Some? {
      KeywordFirst(GO_PACKAGE, line);
    }
  }

  lemma CallerStartsUnlikeOption(m: ServiceMethod)
    requires RenderableMethod(m)
    ensures StartsUnlikeOption(SetConnLine(m)) && StartsUnlikeOption(CallerLine(m))
  {
    assert SetConnLine(m)[1] == m.name[0] && CallerLine(m)[1] == m.name[0];
  }

  ghost predicate AllUnlikeOption(lines: seq<string>) {
    forall k :: 0 <= k < |lines| ==> StartsUnlikeOption(lines[k])
  }

  lemma {:induction false} CallersUnlikeOption(methods: seq<ServiceMethod>)
    requires forall k :: 0 <= k < |methods| ==> RenderableMethod(methods[k])
    ensures AllUnlikeOption(SetConnLines(methods)) && AllUnlikeOption(CallerLines(methods))
  {
    if methods != [] {
      CallerStartsUnlikeOption(methods[0]);
      CallersUnlikeOption(methods[1..]);
    }
  }

  lemma ImportsUnlikeOption(paths: seq<string>)
    ensures AllUnlikeOption(QuotedLines(paths))
  {
  }

  lemma RenderedUnlikeOption(s: Service)
    requires Renderable(s)
    ensures AllUnlikeOption(RenderedLines(s))
  {
    ImportsUnlikeOption(s.imports + [RPCCALL, GRPC]);
    CallersUnlikeOption(s.methods);
    assert AllUnlikeOption(["package " + s.goPackage, "", "import ("]);
    assert AllUnlikeOption([")", "", InitLine(Camel(s.serviceName))]);
    assert AllUnlikeOption(["}", "", "var ("]);
    assert AllUnlikeOption([")", ""]);
  }

  lemma StatementUnlikeOption(text: string, k: nat)
    requires AllUnlikeOption(Split(text, '\n')) && k < |Lines(text)|
    ensures !Statements(Lines(text))[k].GoPackageLine?
  {
    LineAt(text, k);
    assert StartsUnlikeOption(Split(text, '\n')[k]);
    DropKeepsStart(Split(text, '\n')[k]);
    NotGoPackageLine(Lines(text)[k]);
    StatementAt(Lines(text), k);
  }

  lemma DropKeepsStart(line: string)
    requires StartsUnlikeOption(line)
    ensures StartsUnlikeOption(DropCarriageReturn(line))
  {
  }

  lemma NoGoPackageIn(text: string)
    requires AllUnlikeOption(Split(text, '\n'))
    ensures FirstGoPackage(Statements(Lines(text))) == None
  {
    var ks := Statements(Lines(text));
    forall k: nat | k < |ks|
      ensures !ks[k].GoPackageLine?
    {
      StatementUnlikeOption(text, k);
    }
    FirstGoPackageFound(ks);
  }

  /** No importer can read a go_package from a generated file. */
  lemma RenderedHasNoGoPackage(s: Service)
    requires Renderable(s)
    ensures FirstGoPackage(Statements(Lines(Render(s)))) == None
  {
    SplitRendered(s);
    RenderedUnlikeOption(s);
    NoGoPackageIn(Render(s));
  }

  // ---------- the generated caller names ----------

  ghost predicate PairwiseDistinct(names: seq<string>) {
    forall j, k :: 0 <= j < k < |names| ==> names[j] != names[k]
  }

  lemma CallerNameInjective(a: string, b: string)
    requires IsIdent(a) && IsIdent(b)
    ensures Camel(a) + "Caller" == Camel(b) + "Caller" <==> Collide(a, b)
  {
    var x, y := Camel(a), Camel(b);
    CamelEqual(a, b);
    if x + "Caller" == y + "Caller" {
      assert (x + "Caller")[..|x|] == x && (y + "Caller")[..|y|] == y;
    }
  }

  /** No two sites have method names that collide. */
  ghost predicate NamesApart(ks: seq<Statement>, sites: seq<nat>)
    requires AreRpcs(ks, sites)
  {
    forall j, k :: 0 <= j < k < |sites| ==> !Collide(ks[sites[j]].name, ks[sites[k]].name)
  }

  ghost predicate AreRpcs(ks: seq<Statement>, sites: seq<nat>) {
    forall k :: 0 <= k < |sites| ==> sites[k] < |ks| && ks[sites[k]].RpcLine?
  }

  lemma SitesCollide(ks: seq<Statement>, j: nat, k: nat)
    requires AllWellFormed(ks)
    requires j < |MethodSites(ks, |ks|)| && k < |MethodSites(ks, |ks|)|
    ensures var sites, methods := MethodSites(ks, |ks|), MethodsBefore(ks, |ks|);
            && |methods| == |sites|
            && (methods[j].name == methods[k].name <==> Collide(ks[sites[j]].name, ks[sites[k]].name))
  {
    var sites := MethodSites(ks, |ks|);
    MethodAtSite(ks, j);
    MethodAtSite(ks, k);
    assert WellFormed(ks[sites[j]]) && WellFormed(ks[sites[k]]);
    CallerNameInjective(ks[sites[j]].name, ks[sites[k]].name);
  }

  lemma SitesDistinct(ks: seq<Statement>)
    requires AllWellFormed(ks)
    ensures PairwiseDistinct(Names(MethodsBefore(ks, |ks|))) <==> NamesApart(ks, MethodSites(ks, |ks|))
  {
    var sites, names := MethodSites(ks, |ks|), Names(MethodsBefore(ks, |ks|));
    MethodPerSite(ks);
    if PairwiseDistinct(names) {
      forall j: nat, k: nat | j < k < |sites|
        ensures !Collide(ks[sites[j]].name, ks[sites[k]].name)
      {
        SitesCollide(ks, j, k);
        assert names[j] != names[k];
      }
    }
    if NamesApart(ks, sites) {
      forall j: nat, k: nat | j < k < |sites|
        ensures names[j] != names[k]
      {
        SitesCollide(ks, j, k);
      }
    }
  }

  /** The generated callers are pairwise distinct exactly when no two method names of the file collide. */
  lemma CallersDistinct(files: Files, root: Path, path: Path)
    requires Parse(files, root, path).Ok?
    ensures var ks := Statements(Lines(files[path]));
            PairwiseDistinct(Names(Parse(files, root, path).value.methods)) <==> NamesApart(ks, MethodSites(ks, |ks|))
  {
    ParseClosedForm(files, root, path);
    ParsedLinesWellFormed(files, path);
    SitesDistinct(Statements(Lines(files[path])));
  }

  // ---------- names without underscores ----------

  ghost predicate NoUnderscores(ks: seq<Statement>, sites: seq<nat>)
    requires AreRpcs(ks, sites)
  {
    forall k :: 0 <= k < |sites| ==> '_' !in ks[sites[k]].name
  }

  /** No two sites have method names that differ at most in the case of their first letter. */
  ghost predicate ApartInCase(ks: seq<Statement>, sites: seq<nat>)
    requires AreRpcs(ks, sites)
  {
    forall j, k :: 0 <= j < k < |sites| ==> !SameButFirstCase(ks[sites[j]].name, ks[sites[k]].name)
  }

  lemma CleanCollide(a: string, b: string)
    requires IsIdent(a) && IsIdent(b) && '_' !in a && '_' !in b
    ensures Collide(a, b) <==> SameButFirstCase(a, b)
  {
    CamelEqual(a, b);
    CamelCollision(a, b);
  }

  /** For underscore-free method names the callers are pairwise distinct exactly when no two method names
      of the file differ at most in the case of their first letter. */
  lemma CleanCallersDistinct(files: Files, root: Path, path: Path)
    requires Parse(files, root, path).Ok?
    requires var ks := Statements(Lines(files[path])); NoUnderscores(ks, MethodSites(ks, |ks|))
    ensures var ks := Statements(Lines(files[path]));
            PairwiseDistinct(Names(Parse(files, root, path).value.methods)) <==> ApartInCase(ks, MethodSites(ks, |ks|))
  {
    ParseClosedForm(files, root, path);
    ParsedLinesWellFormed(files, path);
    CleanSitesDistinct(Statements(Lines(files[path])));
  }

  lemma CleanSitesDistinct(ks: seq<Statement>)
    requires AllWellFormed(ks) && NoUnderscores(ks, MethodSites(ks, |ks|))
    ensures PairwiseDistinct(Names(MethodsBefore(ks, |ks|))) <==> ApartInCase(ks, MethodSites(ks, |ks|))
  {
    SitesDistinct(ks);
    CleanSites(ks, MethodSites(ks, |ks|));
  }

  lemma CleanSites(ks: seq<Statement>, sites: seq<nat>)
    requires AllWellFormed(ks) && AreRpcs(ks, sites) && NoUnderscores(ks, sites)
    ensures NamesApart(ks, sites) <==> ApartInCase(ks, sites)
  {
    forall j: nat, k: nat | j < k < |sites|
      ensures Collide(ks[sites[j]].name, ks[sites[k]].name) <==> SameButFirstCase(ks[sites[j]].name, ks[sites[k]].name)
    {
      assert WellFormed(ks[sites[j]]) && WellFormed(ks[sites[k]]);
      CleanCollide(ks[sites[j]].name, ks[sites[k]].name);
    }
  }

  /** Every site's method name begins with a lower-case letter, and no two are the same. */
  ghost predicate LowerAndDistinct(ks: seq<Statement>, sites: seq<nat>)
    requires AreRpcs(ks, sites)
  {
    && (forall k :: 0 <= k < |sites| ==> ks[sites[k]].name != "" && 'a' <= ks[sites[k]].name[0] <= 'z')
    && (forall j, k :: 0 <= j < k < |sites| ==> ks[sites[j]].name != ks[sites[k]].name)
  }

  lemma LowerNamesAreApart(ks: seq<Statement>, sites: seq<nat>)
    requires AreRpcs(ks, sites) && LowerAndDistinct(ks, sites)
    ensures ApartInCase(ks, sites)
  {
    forall j, k | 0 <= j < k < |sites|
      ensures !SameButFirstCase(ks[sites[j]].name, ks[sites[k]].name)
    {
      LowerNamesApart(ks[sites[j]].name, ks[sites[k]].name);
    }
  }

  /** Distinct underscore-free method names that begin with lower-case letters give distinct callers. */
  lemma LowerCallersDistinct(files: Files, root: Path, path: Path)
    requires Parse(files, root, path).Ok?
    requires var ks := Statements(Lines(files[path]));
             NoUnderscores(ks, MethodSites(ks, |ks|)) && LowerAndDistinct(ks, MethodSites(ks, |ks|))
    ensures PairwiseDistinct(Names(Parse(files, root, path).value.methods))
  {
    var ks := Statements(Lines(files[path]));
    LowerNamesAreApart(ks, MethodSites(ks, |ks|));
    CleanCallersDistinct(files, root, path);
  }

  /** The Init function of the generated file calls SetConn on exactly the callers its var block
      declares, once each, in order. */
  lemma InitConnectsDeclared(files: Files, root: Path, path: Path)
      returns (before: seq<string>, connects: seq<string>, callers: seq<string>)
    requires Parse(files, root, path).Ok?
    ensures var s := Parse(files, root, path).value;
            && Split(Render(s), '\n')
               == before + ["func Init" + Camel(s.serviceName) + "(conn *grpc.ClientConn) {"] + connects
                  + ["}", "", "var ("] + callers + [")", ""]
            && |connects| == |s.methods| == |callers|
            && (forall k :: 0 <= k < |connects| ==> connects[k] == "\t" + s.methods[k].name + ".SetConn(conn)")
            && (forall k :: 0 <= k < |callers| ==> DeclaresCaller(callers[k], s.methods[k].name))
    ensures var s := Parse(files, root, path).value;
            && Decode(Render(s)).Some?
            && Decode(Render(s)).value.connected == Names(Decode(Render(s)).value.methods)
            && Decode(Render(s)).value.methods == s.methods
  {
    var s := Parse(files, root, path).value;
    ParsedRenderable(files, root, path);
    DecodeRender(s);
    before, connects, callers := InitOfRendered(s);
  }

  /** The line declares a caller of this name. */
  ghost predicate DeclaresCaller(line: string, name: string) {
    exists types :: line == "\t" + name + " = rpccall.NewRpcCaller" + types
  }

  lemma InitOfRendered(s: Service) returns (before: seq<string>, connects: seq<string>, callers: seq<string>)
    requires Renderable(s)
    ensures Split(Render(s), '\n')
         == before + ["func Init" + Camel(s.serviceName) + "(conn *grpc.ClientConn) {"] + connects
            + ["}", "", "var ("] + callers + [")", ""]
    ensures |connects| == |s.methods| == |callers|
    ensures forall k :: 0 <= k < |connects| ==> connects[k] == "\t" + s.methods[k].name + ".SetConn(conn)"
    ensures forall k :: 0 <= k < |callers| ==> DeclaresCaller(callers[k], s.methods[k].name)
  {
    var imports;
    imports, connects, callers := RenderedText(s);
    var head, fixed := ["package " + s.goPackage, "", "import ("],
                       ["\t\"github.com/openimsdk/protocol/rpccall\"", "\t\"google.golang.org/grpc\"", ")", ""];
    var init := "func Init" + Camel(s.serviceName) + "(conn *grpc.ClientConn) {";
    before := head + imports + fixed;
    InitLast(head + imports, fixed, init);
    forall k | 0 <= k < |callers|
      ensures DeclaresCaller(callers[k], s.methods[k].name)
    {
      var m := s.methods[k];
      CallerDeclares(callers[k], m.name, m.requestType, m.responseType, m.fullMethodName);
    }
  }

  lemma InitLast(head: seq<string>, fixed: seq<string>, init: string)
    requires |fixed| == 4
    ensures head + [fixed[0], fixed[1], fixed[2], fixed[3], init] == head + fixed + [init]
  {
  }

  lemma CallerDeclares(line: string, name: string, request: string, response: string, full: string)
    requires line == "\t" + name + " = rpccall.NewRpcCaller[" + request + ", " + response + "](" + full + ")"
    ensures DeclaresCaller(line, name)
  {
    var call := " = rpccall.NewRpcCaller";
    var types := "[" + request + ", " + response + "](" + full + ")";
    assert call + "[" == " = rpccall.NewRpcCaller[";
    assert line == "\t" + name + call + types;
  }
}
