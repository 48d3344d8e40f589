/** A family of projects for which one run of the generator is not enough: a `.proto` file that imports
    from the Go file generated for it, while that still has a go_package line. */
module SelfImport {
  import opened Text
  import opened Patterns
  import opened ProtoLines
  import opened Paths
  import opened ProtoParser
  import opened ParserLaws
  import opened RoundTrip
  import opened GoFile
  import opened Generator
  import opened GeneratorLaws

  /** Four lines: an import, a go_package, a service and an rpc that uses the import under `alias`. */
  ghost predicate UsesImport(ks: seq<Statement>, path: string, alias: string) {
    && |ks| == 4
    && ks[0] == ImportLine(path) && Stem(path) == alias
    && ks[1].GoPackageLine? && ks[1].value != ""
    && ks[2].ServiceLine? && ks[2].name != ""
    && ks[3].RpcLine? && '.' in ks[3].request && AliasOf(ks[3].request) == alias
  }

  lemma UsesImportDeclared(ks: seq<Statement>, path: string, alias: string)
    requires UsesImport(ks, path, alias)
    ensures Declared(ks, 3, alias) == Some(path)
  {
    assert Declares(ks[0], alias);
    assert Declared(ks, 1, alias) == Some(path);
    assert Declared(ks, 2, alias) == Declared(ks, 1, alias);
  }

  lemma NoEarlierUse(ks: seq<Statement>, alias: string)
    requires |ks| == 4 && !ks[0].RpcLine? && !ks[1].RpcLine? && !ks[2].RpcLine?
    ensures !UsedBefore(ks, 3, alias)
  {
  }

  lemma UsesImportFirst(ks: seq<Statement>, path: string, alias: string)
    requires UsesImport(ks, path, alias)
    ensures IsMethodAt(ks, 3) && IsFirstUse(ks, 3)
  {
    UsesImportDeclared(ks, path, alias);
    OpenStep(ks, 2);
    assert IsMethodAt(ks, 3);
    NoEarlierUse(ks, alias);
  }

  lemma NotAFirstUse(ks: seq<Statement>, n: nat)
    requires n < |ks| && !ks[n].RpcLine?
    ensures FirstUsePaths(ks, n + 1) == FirstUsePaths(ks, n)
  {
  }

  lemma UsesImportOnce(ks: seq<Statement>, path: string, alias: string)
    requires UsesImport(ks, path, alias)
    ensures IsMethodAt(ks, 3) && FirstUsePaths(ks, 4) == [path]
  {
    UsesImportDeclared(ks, path, alias);
    UsesImportFirst(ks, path, alias);
    NotAFirstUse(ks, 0);
    NotAFirstUse(ks, 1);
    NotAFirstUse(ks, 2);
  }

  lemma UsesImportNames(ks: seq<Statement>, path: string, alias: string)
    requires UsesImport(ks, path, alias)
    ensures NearestService(ks, 4) != "" && NearestGoPackage(ks, 4) != "" && MethodsBefore(ks, 4) != []
  {
    assert NearestService(ks, 3) == ks[2].name;
    assert NearestGoPackage(ks, 2) == ks[1].value;
    assert NearestGoPackage(ks, 3) == ks[1].value;
    UsesImportOnce(ks, path, alias);
  }

  predicate IsPlain(name: string) {
    '/' !in name && '.' !in name && ToLower(name) == name
  }

  function ProtoName(name: string): (r: Name)
    requires '/' !in name
    ensures HasSuffix(r, PROTO)
  {
    assert (name + PROTO)[|name|..] == PROTO;
    assert |name + PROTO| > 2;
    name + PROTO
  }

  function GoName(name: string): (r: Name)
    requires '/' !in name
    ensures HasSuffix(r, CALLER_GO)
  {
    assert (name + CALLER_GO)[|name|..] == CALLER_GO;
    assert |name + CALLER_GO| > 2;
    name + CALLER_GO
  }

  /** The project of one such file and its Go file, the latter with a go_package line in it. */
  ghost predicate IsSelfImporting(files: Files, root: Path, d: Name, name: string)
    requires IsPlain(name)
  {
    var p, q := root + [d] + [ProtoName(name)], root + [d] + [GoName(name)];
    && files.Keys == {p, q}
    && GoPackageIn(files, q).Ok?
    && var path := d + "/" + GoName(name); UsesImport(Statements(Lines(files[p])), path, Stem(path))
  }

  lemma SelfImportingParses(files: Files, root: Path, p: Path, path: string) returns (s: Service)
    requires p in files && UsesImport(Statements(Lines(files[p])), path, Stem(path))
    ensures ParsesTo(files, root, p, s) && s.methods != []
    ensures UsedPaths(files, p) == [path]
  {
    var ks := Statements(Lines(files[p]));
    UsesImportNames(ks, path, Stem(path));
    UsesImportOnce(ks, path, Stem(path));
    OutcomeClosedForm(FileResolver(files, root), p, ks);
    s := Parse(files, root, p).value;
  }

  /** Its Go file is the one beside it. */
  lemma SelfImportingWrites(files: Files, root: Path, dir: Path, name: string, s: Service)
    requires IsPlain(name) && ParsesTo(files, root, dir + [ProtoName(name)], s)
    ensures OutputPath(s) == dir + [GoName(name)]
  {
    var p := dir + [ProtoName(name)];
    ParsedPlace(files, root, p, name, s);
    assert p[..|p| - 1] == dir;
    JoinPathName(dir, GoName(name));
  }

  lemma OnlyProto(root: Path, d: Name, name: string, r: Path)
    requires IsPlain(name)
    requires r == root + [d] + [ProtoName(name)] || r == root + [d] + [GoName(name)]
    ensures IsProtoFile(root, r) <==> r == root + [d] + [ProtoName(name)]
  {
    assert r[..|root|] == root;
    SuffixesDiffer(ProtoName(name));
    if HasSuffix(GoName(name), PROTO) {
      SuffixesDiffer(GoName(name));
    }
  }

  lemma ParsedFileRuns(files: Files, root: Path, p: Path, s: Service)
    requires p in files && IsProtoFile(root, p) && ParsesTo(files, root, p, s)
    ensures exists i :: 0 <= i < |RunServices(files, root)| && RunServices(files, root)[i] == s
  {
    var paths, services := RunPaths(files, root), RunServices(files, root);
    InputsListed(root, files.Keys, p);
    ParsableHasAll(FileParser(files, root), Inputs(root, files.Keys), p);
    RunServicesAre(files, root);
    var i :| 0 <= i < |paths| && paths[i] == p;
    assert ParsesTo(files, root, paths[i], services[i]);
  }

  lemma SelfImportingOverwrites(files: Files, root: Path, d: Name, name: string)
    requires IsPlain(name) && IsSelfImporting(files, root, d, name)
    ensures var p, q := root + [d] + [ProtoName(name)], root + [d] + [GoName(name)];
            && p in files && ReadsOutput(files, root, p) && IsOutput(RunServices(files, root), q)
  {
    var p, q, path := root + [d] + [ProtoName(name)], root + [d] + [GoName(name)], d + "/" + GoName(name);
    var s := SelfImportingParses(files, root, p, path);
    SelfImportingWrites(files, root, root + [d], name, s);
    OnlyProto(root, d, name, p);
    ParsedFileRuns(files, root, p, s);
    assert WritesTo(s, q);
    JoinPathTwo(root, d, GoName(name));
    assert Overwritten(files, root, JoinPath(root, UsedPaths(files, p)[0]));
  }

  lemma OnlyRunPath(files: Files, root: Path, d: Name, name: string, i: nat)
    requires IsPlain(name) && files.Keys == {root + [d] + [ProtoName(name)], root + [d] + [GoName(name)]}
    requires i < |RunPaths(files, root)|
    ensures RunPaths(files, root)[i] == root + [d] + [ProtoName(name)]
  {
    RunPathIsProto(files, root, i);
    OnlyProto(root, d, name, RunPaths(files, root)[i]);
  }

  lemma OnlyReaderClobbers(files: Files, root: Path, p: Path, q: Path)
    requires p in files && ReadsOutput(files, root, p) && IsOutput(RunServices(files, root), q)
    requires forall i :: 0 <= i < |RunPaths(files, root)| ==> RunPaths(files, root)[i] == p
    ensures Clobbers(files, root)
  {
    LastWriterExists(RunServices(files, root), q);
    var i: nat :| IsLastWriter(RunServices(files, root), i) && OutputPath(RunServices(files, root)[i]) == q;
    RunServicesAre(files, root);
    assert RunPaths(files, root)[i] == p;
  }

  /** Without the condition a second run can change files: every such project loses an import. */
  lemma SelfImportingIsClobbered(files: Files, root: Path, d: Name, name: string)
    requires IsPlain(name) && IsSelfImporting(files, root, d, name)
    ensures Clobbers(files, root)
    ensures Generated(Generated(files, root), root) != Generated(files, root)
  {
    SelfImportingOverwrites(files, root, d, name);
    forall i | 0 <= i < |RunPaths(files, root)|
      ensures RunPaths(files, root)[i] == root + [d] + [ProtoName(name)]
    {
      OnlyRunPath(files, root, d, name, i);
    }
    OnlyReaderClobbers(files, root, root + [d] + [ProtoName(name)], root + [d] + [GoName(name)]);
    IdempotentUnlessClobbered(files, root);
  }

  // ---------- such projects exist ----------

  /** A `.proto` file that imports `path` and uses it in one rpc line. */
  function ProtoDocument(path: string, name: string, request: string): (r: seq<Statement>)
    ensures AllDeclarations(r)
  {
    [ImportLine(path), GoPackageLine(name), ServiceLine(name), RpcLine(name, request, name)]
  }

  lemma WordName(name: string)
    requires IsIdent(name)
    ensures InGroup(Quoted, name) && '\n' !in name && IsTypeName(name)
  {
    assert name[..|name|] == name && name[|name|..] == [];
    assert SplitsType(name, |name|, |name|);
  }

  lemma QualifiedName(alias: string, name: string)
    requires IsIdent(alias) && IsIdent(name) && '.' !in alias
    ensures var request := alias + "." + name; IsTypeName(request) && '.' in request && AliasOf(request) == alias
  {
    var request := alias + "." + name;
    AliasOfQualified(alias, name);
    assert request[..|alias|] == alias && request[|alias|] == '.' && request[|alias| + 1..] == name;
    assert SplitsType(request, |alias|, |alias| + 1);
  }

  lemma AllInJoins(capture: Capture, a: string, b: string)
    requires AllIn(capture, a) && AllIn(capture, b)
    ensures AllIn(capture, a + b)
  {
  }

  lemma CallerAlias(name: string)
    requires IsIdent(name) && '.' !in name
    ensures IsIdent(name + "_caller") && '.' !in name + "_caller"
  {
    AllInJoins(Ident, name, "_caller");
  }

  lemma CallerPath(d: string, alias: string, suffix: string)
    requires IsIdent(d) && IsIdent(alias) && AllIn(ImportPath, suffix)
    ensures InGroup(ImportPath, d + "/" + (alias + suffix))
  {
    AllInJoins(ImportPath, alias, suffix);
    AllInJoins(ImportPath, d, "/");
    AllInJoins(ImportPath, d + "/", alias + suffix);
  }

  lemma CallerFile(name: string)
    requires '/' !in name
    ensures GoName(name) == name + "_caller" + ".go"
  {
    assert CALLER_GO == "_caller" + ".go";
  }

  /** What the names give: a legal import path, and the alias it declares. */
  lemma CallerNames(d: string, name: string) returns (alias: string)
    requires IsIdent(d) && IsIdent(name) && IsPlain(name)
    ensures InGroup(ImportPath, d + "/" + GoName(name))
    ensures IsIdent(alias) && '.' !in alias && Stem(d + "/" + GoName(name)) == alias
  {
    CallerAlias(name);
    CallerFile(name);
    alias := name + "_caller";
    CallerPath(d, alias, ".go");
    CallerStem(d, alias, "go", ".go");
  }

  lemma CallerStem(d: string, alias: string, ext: string, suffix: string)
    requires '/' !in alias && '/' !in ext && '.' !in ext && suffix == "." + ext
    ensures Stem(d + "/" + (alias + suffix)) == alias
  {
    StemOfImport(d, alias, ext);
    assert d + "/" + alias + "." + ext == d + "/" + (alias + suffix);
  }

  /** A document that uses the import, under the alias its path declares, is legal. */
  lemma ProtoDocumentUses(path: string, alias: string, name: string)
    requires InGroup(ImportPath, path) && Stem(path) == alias
    requires IsIdent(alias) && IsIdent(name) && '.' !in alias
    ensures var doc := ProtoDocument(path, name, alias + "." + name);
            AllWellFormed(doc) && UsesImport(doc, path, Stem(path))
  {
    WordName(name);
    QualifiedName(alias, name);
  }

  lemma GoFileHasGoPackage(files: Files, q: Path, name: string)
    requires IsIdent(name) && AllDeclarations([GoPackageLine(name)])
    requires q in files && files[q] == TextOf(PrintAll([GoPackageLine(name)]))
    ensures GoPackageIn(files, q) == Ok(name)
  {
    WordName(name);
    PrintedLines([GoPackageLine(name)]);
    PrintedStatements([GoPackageLine(name)]);
  }

  lemma ProtoFileUsesImport(text: string, doc: seq<Statement>, path: string)
    requires AllDeclarations(doc) && AllWellFormed(doc) && UsesImport(doc, path, Stem(path))
    requires text == TextOf(PrintAll(doc))
    ensures UsesImport(Statements(Lines(text)), path, Stem(path))
  {
    PrintedLines(doc);
    PrintedStatements(doc);
  }

  /** For every directory and file name of lower-case word characters there is such a project, and running
      the generator on it twice is not running it once. */
  lemma SelfImportingExists(root: Path, d: Name, name: string) returns (files: Files)
    requires IsIdent(d) && IsIdent(name) && IsPlain(name)
    ensures IsSelfImporting(files, root, d, name)
    ensures Generated(Generated(files, root), root) != Generated(files, root)
  {
    var p, q, path := root + [d] + [ProtoName(name)], root + [d] + [GoName(name)], d + "/" + GoName(name);
    var alias := CallerNames(d, name);
    var doc := ProtoDocument(path, name, alias + "." + name);
    ProtoDocumentUses(path, alias, name);
    files := map[p := TextOf(PrintAll(doc)), q := TextOf(PrintAll([GoPackageLine(name)]))];
    SuffixesDiffer(ProtoName(name));
    assert p[|p| - 1] != q[|q| - 1];
    ProtoFileUsesImport(files[p], doc, path);
    GoFileHasGoPackage(files, q, name);
    SelfImportingIsClobbered(files, root, d, name);
  }

  /** One of them, in directory `a` at the top of the file system. */
  lemma TwoRunsDiffer() returns (files: Files)
    ensures Generated(Generated(files, []), []) != Generated(files, [])
  {
    files := SelfImportingExists([], "a", "a");
  }
}
