/** Running the generator again: what it leaves alone, when the second run changes nothing, and that
    the third never does. */
module GeneratorLaws {
  import opened Text
  import opened ProtoLines
  import opened CamelCase
  import opened Paths
  import opened ProtoParser
  import opened ParserLaws
  import opened GoFile
  import opened ParsedServices
  import opened Generator

  // ---------- the parsed files ----------

  function Parsable(parse: Parser, inputs: seq<Path>): seq<Path> {
    if inputs == [] then []
    else
      var n := |inputs| - 1;
      Parsable(parse, inputs[..n]) + if parse(inputs[n]).Ok? then [inputs[n]] else []
  }

  lemma {:induction false} ParsableAreInputs(parse: Parser, inputs: seq<Path>, p: Path)
    requires p in Parsable(parse, inputs)
    ensures p in inputs
    decreases |inputs|
  {
    var n := |inputs| - 1;
    if p in Parsable(parse, inputs[..n]) {
      ParsableAreInputs(parse, inputs[..n], p);
    }
  }

  lemma {:induction false} ParsableHasAll(parse: Parser, inputs: seq<Path>, p: Path)
    requires p in inputs && parse(p).Ok?
    ensures p in Parsable(parse, inputs)
    decreases |inputs|
  {
    var n := |inputs| - 1;
    if p in inputs[..n] {
      ParsableHasAll(parse, inputs[..n], p);
    }
  }

  lemma {:induction false} ParsableInOrder(parse: Parser, inputs: seq<Path>, i: nat, j: nat, p: Path, q: Path)
    requires PathsInOrder(inputs) && i < j < |Parsable(parse, inputs)|
    requires Parsable(parse, inputs)[i] == p && Parsable(parse, inputs)[j] == q
    ensures PathBefore(p, q)
    decreases |inputs|
  {
    var n := |inputs| - 1;
    if j < |Parsable(parse, inputs[..n])| {
      ParsableInOrder(parse, inputs[..n], i, j, p, q);
    } else {
      ParsableAreInputs(parse, inputs[..n], p);
      var k :| 0 <= k < n && inputs[..n][k] == p;
      assert q == inputs[n] && inputs[k] == p;
    }
  }

  ghost predicate AllParseTo(parse: Parser, paths: seq<Path>, services: seq<Service>) {
    |services| == |paths| && forall i :: 0 <= i < |paths| ==> parse(paths[i]) == Ok(services[i])
  }

  lemma {:induction false} ServicesOfParsable(parse: Parser, inputs: seq<Path>)
    ensures AllParseTo(parse, Parsable(parse, inputs), Services(parse, inputs))
    decreases |inputs|
  {
    if inputs != [] {
      ServicesOfParsable(parse, inputs[..|inputs| - 1]);
    }
  }

  /** `s` is what `p` parses to. */
  ghost predicate ParsesTo(files: Files, root: Path, p: Path, s: Service) {
    Parse(files, root, p) == Ok(s)
  }

  /** Two services that agree in everything but their imports. */
  ghost predicate SameButImports(s: Service, t: Service) {
    s.(imports := t.imports) == t
  }

  ghost predicate SameText(files: Files, later: Files, p: Path) {
    p in files && p in later && files[p] == later[p]
  }

  /** A file with the same text parses to the same service, up to the imports. */
  lemma SameTextParses(files: Files, later: Files, root: Path, p: Path)
    requires SameText(files, later, p)
    ensures Parse(files, root, p).Ok? <==> Parse(later, root, p).Ok?
    ensures Parse(files, root, p).Ok? ==> SameButImports(Parse(files, root, p).value, Parse(later, root, p).value)
  {
    OutcomeClosedForm(FileResolver(files, root), p, Statements(Lines(files[p])));
    OutcomeClosedForm(FileResolver(later, root), p, Statements(Lines(files[p])));
  }

  lemma {:induction false} SameParsable(parse: Parser, later: Parser, inputs: seq<Path>)
    requires forall i :: 0 <= i < |inputs| ==> (parse(inputs[i]).Ok? <==> later(inputs[i]).Ok?)
    ensures Parsable(parse, inputs) == Parsable(later, inputs)
    decreases |inputs|
  {
    if inputs != [] {
      SameParsable(parse, later, inputs[..|inputs| - 1]);
    }
  }

  // ---------- output paths ----------

  lemma ToLowerKeeps(s: string)
    requires '/' !in s
    ensures '/' !in ToLower(s)
  {
  }

  lemma CallerName(stem: string)
    requires '/' !in stem
    ensures IsName(ToLower(stem) + CALLER_GO)
    ensures HasSuffix(ToLower(stem) + CALLER_GO, CALLER_GO)
  {
    ToLowerKeeps(stem);
    var name := ToLower(stem) + CALLER_GO;
    assert |name| > 2;
    assert name[|ToLower(stem)|..] == CALLER_GO;
  }

  lemma StemOfName(name: string)
    requires IsName(name)
    ensures '/' !in Stem(name)
  {
    SplitWhole(name, '/');
  }

  /** The Go file of a parsed service lies beside its `.proto` file, with the stem in lower case. */
  lemma OutputShape(p: Path, s: Service)
    requires p != [] && s.filePath == Dir(p) && s.fileName == Stem(LastName(p))
    ensures var out := OutputPath(s);
            && out == Dir(p) + [ToLower(s.fileName) + CALLER_GO]
            && out != [] && Dir(out) == Dir(p) && HasSuffix(out[|out| - 1], CALLER_GO)
  {
    StemOfName(p[|p| - 1]);
    CallerName(s.fileName);
    JoinPathName(s.filePath, ToLower(s.fileName) + CALLER_GO);
  }

  lemma SuffixesDiffer(name: string)
    requires HasSuffix(name, PROTO)
    ensures !HasSuffix(name, CALLER_GO)
  {
    assert name[|name| - 2] == name[|name| - |PROTO|..][|PROTO| - 2] == 't';
    if |name| >= |CALLER_GO| {
      assert name[|name| - 2] == name[|name| - |CALLER_GO|..][|CALLER_GO| - 2];
      assert CALLER_GO[|CALLER_GO| - 2] == 'g';
    }
  }

  /** The services of a run. */
  ghost function RunServices(files: Files, root: Path): seq<Service> {
    Services(FileParser(files, root), Inputs(root, files.Keys))
  }

  ghost function RunPaths(files: Files, root: Path): seq<Path> {
    Parsable(FileParser(files, root), Inputs(root, files.Keys))
  }

  /** The services of a run are what its parsable inputs parse to; each input is a `.proto` file. */
  lemma RunServicesAre(files: Files, root: Path)
    ensures var paths, services := RunPaths(files, root), RunServices(files, root);
            && |services| == |paths|
            && (forall i :: 0 <= i < |paths| ==> ParsesTo(files, root, paths[i], services[i]))
            && (forall i :: 0 <= i < |paths| ==> paths[i] in files && IsProtoFile(root, paths[i]))
  {
    var inputs := Inputs(root, files.Keys);
    ServicesOfParsable(FileParser(files, root), inputs);
    var paths, services := RunPaths(files, root), RunServices(files, root);
    forall i | 0 <= i < |paths|
      ensures ParsesTo(files, root, paths[i], services[i])
      ensures paths[i] in files && IsProtoFile(root, paths[i])
    {
      assert FileParser(files, root)(paths[i]) == Ok(services[i]);
      ParsableAreInputs(FileParser(files, root), inputs, paths[i]);
      InputsListed(root, files.Keys, paths[i]);
    }
  }

  lemma RunPathIsProto(files: Files, root: Path, i: nat)
    requires i < |RunPaths(files, root)|
    ensures RunPaths(files, root)[i] in files.Keys && IsProtoFile(root, RunPaths(files, root)[i])
  {
    RunServicesAre(files, root);
  }

  lemma RunPathParses(files: Files, root: Path, p: Path)
    requires p in RunPaths(files, root)
    ensures p in Inputs(root, files.Keys) && Parse(files, root, p).Ok?
  {
    ParsableAreInputs(FileParser(files, root), Inputs(root, files.Keys), p);
    RunServicesAre(files, root);
    var i :| 0 <= i < |RunPaths(files, root)| && RunPaths(files, root)[i] == p;
    assert ParsesTo(files, root, RunPaths(files, root)[i], RunServices(files, root)[i]);
  }

  /** A run parses exactly the listed files that parse. */
  lemma RunPathsMeaning(files: Files, root: Path, p: Path)
    ensures p in RunPaths(files, root) <==> p in Inputs(root, files.Keys) && Parse(files, root, p).Ok?
  {
    if p in RunPaths(files, root) {
      RunPathParses(files, root, p);
    }
    if p in Inputs(root, files.Keys) && Parse(files, root, p).Ok? {
      ParsableHasAll(FileParser(files, root), Inputs(root, files.Keys), p);
    }
  }

  /** They are parsed, and their outputs written, in the order of the listing. */
  lemma RunPathsInOrder(files: Files, root: Path)
    ensures PathsInOrder(RunPaths(files, root))
  {
    InputsInOrder(root, files.Keys);
    ParsablesInOrder(FileParser(files, root), Inputs(root, files.Keys));
  }

  lemma ParsablesInOrder(parse: Parser, inputs: seq<Path>)
    requires PathsInOrder(inputs)
    ensures PathsInOrder(Parsable(parse, inputs))
  {
    var paths := Parsable(parse, inputs);
    forall i: nat, j: nat | i < j < |paths|
      ensures PathBefore(paths[i], paths[j])
    {
      ParsableInOrder(parse, inputs, i, j, paths[i], paths[j]);
    }
  }

  /** Every output lies beside an input and ends in `_caller.go`. */
  lemma OutputsShape(files: Files, root: Path, p: Path)
    requires IsOutput(RunServices(files, root), p)
    ensures p != [] && HasSuffix(p[|p| - 1], CALLER_GO)
    ensures exists q :: q in files && IsProtoFile(root, q) && Dir(p) == Dir(q)
  {
    RunServicesAre(files, root);
    var services, paths := RunServices(files, root), RunPaths(files, root);
    var i :| 0 <= i < |services| && WritesTo(services[i], p);
    assert ParsesTo(files, root, paths[i], services[i]);
    ParseClosedForm(files, root, paths[i]);
    OutputShape(paths[i], services[i]);
  }

  /** No input is written. */
  lemma InputsAreNotOutputs(files: Files, root: Path, p: Path)
    requires p != [] && HasSuffix(p[|p| - 1], PROTO)
    ensures !IsOutput(RunServices(files, root), p)
  {
    if IsOutput(RunServices(files, root), p) {
      OutputsShape(files, root, p);
      SuffixesDiffer(p[|p| - 1]);
    }
  }

  /** A run adds or replaces outputs and leaves every other file as it was. */
  lemma RunFrame(files: Files, root: Path, p: Path)
    ensures p in Generated(files, root) <==> p in files || IsOutput(RunServices(files, root), p)
    ensures p in files && !IsOutput(RunServices(files, root), p) ==> SameText(files, Generated(files, root), p)
  {
    var services := RunServices(files, root);
    if IsOutput(services, p) {
      LastWriterExists(services, p);
      var i: nat :| IsLastWriter(services, i) && OutputPath(services[i]) == p;
      WriteAllLast(files, services, i, p, Render(services[i]));
    } else {
      WriteAllOther(files, services, p);
    }
  }

  /** What a run leaves at an output: the file of the last parsed service that writes there, from which
      all that the service renders to can be read back. */
  lemma RunWrites(files: Files, root: Path, p: Path) returns (i: nat, s: Service)
    requires IsOutput(RunServices(files, root), p)
    ensures IsLastWriter(RunServices(files, root), i) && i < |RunPaths(files, root)|
    ensures ParsesTo(files, root, RunPaths(files, root)[i], s) && OutputPath(s) == p
    ensures p in Generated(files, root) && Generated(files, root)[p] == Render(s)
    ensures Decode(Generated(files, root)[p])
         == Some(GoText(s.goPackage, s.imports, Camel(s.serviceName), Names(s.methods), s.methods))
  {
    var services := RunServices(files, root);
    LastWriterExists(services, p);
    i :| IsLastWriter(services, i) && OutputPath(services[i]) == p;
    s := services[i];
    RunServicesAre(files, root);
    WriteAllLast(files, services, i, p, Render(s));
    ParsedRenderable(files, root, RunPaths(files, root)[i]);
    DecodeRender(s);
  }

  lemma ParsedNames(files: Files, root: Path, p: Path, s: Service)
    requires ParsesTo(files, root, p, s)
    ensures s.filePath == Dir(p) && s.fileName == Stem(LastName(p))
  {
    ParseClosedForm(files, root, p);
  }

  lemma PieceOfName(stem: string, suffix: string)
    requires '/' !in stem + suffix
    ensures '/' !in stem
  {
    assert forall k :: 0 <= k < |stem| ==> (stem + suffix)[k] == stem[k];
  }

  lemma StemOfProto(name: Name, stem: string)
    requires name == stem + ".proto"
    ensures '/' !in stem && Stem(name) == stem
  {
    PieceOfName(stem, ".proto");
    ExtensionText(stem, name);
    StemOfFile(stem, "proto");
  }

  lemma ExtensionText(stem: string, name: string)
    requires name == stem + ".proto"
    ensures name == stem + "." + "proto"
  {
  }

  /** A parsed service knows the directory and the stem of its file. */
  lemma ParsedPlace(files: Files, root: Path, path: Path, stem: string, s: Service)
    requires ParsesTo(files, root, path, s)
    requires path != [] && path[|path| - 1] == stem + ".proto"
    ensures s.filePath == path[..|path| - 1] && s.fileName == stem
  {
    ParsedNames(files, root, path, s);
    StemOfProto(path[|path| - 1], stem);
  }

  lemma CallerGoIsSmall()
    ensures NoCapitals("_caller.go")
  {
    assert forall k :: 0 <= k < |"_caller.go"| ==> !('A' <= "_caller.go"[k] <= 'Z');
    NoCapitalsIn("_caller.go");
  }

  lemma NoCapitalsIn(s: string)
    requires forall k :: 0 <= k < |s| ==> !('A' <= s[k] <= 'Z')
    ensures NoCapitals(s)
  {
    forall k | 0 <= k < |s|
      ensures s[k] !in "ABCDEFGHIJKLMNOPQRSTUVWXYZ"
    {
      CapitalLetter(s[k]);
    }
  }

  lemma SmallName(stem: string, suffix: string) returns (small: string)
    requires NoCapitals(suffix)
    ensures small == ToLower(stem) && InLowerCase(small, stem) && NoCapitals(small + suffix)
  {
    small := ToLower(stem);
    ToLowerMeaning(stem);
    LowerCaseHasNoCapitals(small, stem);
    NoCapitalsAppend(small, suffix);
  }

  lemma OutputPathOf(s: Service)
    requires '/' !in s.fileName
    ensures OutputPath(s) == s.filePath + [ToLower(s.fileName) + "_caller.go"]
  {
    CallerName(s.fileName);
    JoinPathName(s.filePath, ToLower(s.fileName) + CALLER_GO);
  }

  /** The output that a service leaves lies beside the `.proto` file it was parsed from; its name is the
      stem with its capital letters made small and `_caller.go`, so no capital letter is left in it. */
  lemma OutputName(files: Files, root: Path, p: Path) returns (i: nat, stem: string, small: string)
    requires IsOutput(RunServices(files, root), p)
    ensures IsLastWriter(RunServices(files, root), i) && i < |RunPaths(files, root)|
    ensures p != [] && RunPaths(files, root)[i] == p[..|p| - 1] + [stem + ".proto"]
    ensures p[|p| - 1] == small + "_caller.go" && InLowerCase(small, stem)
    ensures NoCapitals(p[|p| - 1])
  {
    var s;
    i, s := RunWrites(files, root, p);
    RunPathIsProto(files, root, i);
    stem, small := OutputNameOf(files, root, RunPaths(files, root)[i], s);
  }

  lemma OutputNameOf(files: Files, root: Path, q: Path, s: Service) returns (stem: string, small: string)
    requires IsProtoFile(root, q) && ParsesTo(files, root, q, s)
    ensures var p := OutputPath(s);
            && p != [] && q == p[..|p| - 1] + [stem + ".proto"]
            && p[|p| - 1] == small + "_caller.go" && InLowerCase(small, stem) && NoCapitals(p[|p| - 1])
  {
    stem := ParsedStem(files, root, q, s);
    small := SmallOutputName(s);
    LastOf(s.filePath, OutputPath(s), small + "_caller.go");
  }

  lemma LastOf(dir: Path, p: Path, name: string)
    requires p == dir + [name]
    ensures p != [] && p[..|p| - 1] == dir && p[|p| - 1] == name
  {
  }

  lemma SmallOutputName(s: Service) returns (small: string)
    requires '/' !in s.fileName
    ensures OutputPath(s) == s.filePath + [small + "_caller.go"]
    ensures InLowerCase(small, s.fileName) && NoCapitals(small + "_caller.go")
  {
    OutputPathOf(s);
    CallerGoIsSmall();
    small := SmallName(s.fileName, "_caller.go");
  }

  lemma ProtoNameParts(name: Name) returns (stem: string)
    requires HasSuffix(name, PROTO)
    ensures name == stem + ".proto" && '/' !in stem && Stem(name) == stem
  {
    ProtoSuffix(name);
    stem :| name == stem + ".proto";
    StemOfProto(name, stem);
  }

  lemma ParsedStem(files: Files, root: Path, q: Path, s: Service) returns (stem: string)
    requires IsProtoFile(root, q) && ParsesTo(files, root, q, s)
    ensures q == s.filePath + [stem + ".proto"] && s.fileName == stem && '/' !in stem
  {
    stem := ProtoNameParts(q[|q| - 1]);
    ParsedNames(files, root, q, s);
    DirAndName(q);
  }

  lemma DirAndName(q: Path)
    requires q != []
    ensures q == Dir(q) + [q[|q| - 1]]
  {
  }

  lemma ProtoFilesKept(files: Files, root: Path, p: Path)
    requires IsProtoFile(root, p)
    ensures p in Generated(files, root) <==> p in files
    ensures p in files ==> SameText(files, Generated(files, root), p)
  {
    InputsAreNotOutputs(files, root, p);
    RunFrame(files, root, p);
  }

  // ---------- the listing of the next run ----------

  lemma SameProtoNames(root: Path, d: Name, paths: set<Path>, later: set<Path>)
    requires forall p: Path :: IsProtoFile(root, p) ==> (p in paths <==> p in later)
    ensures ProtoNames(root, d, paths) == ProtoNames(root, d, later)
  {
  }

  lemma {:induction false} SameGlobAll(root: Path, dirs: seq<Name>, paths: set<Path>, later: set<Path>)
    requires forall p: Path :: IsProtoFile(root, p) ==> (p in paths <==> p in later)
    ensures GlobAll(root, dirs, paths) == GlobAll(root, dirs, later)
    decreases |dirs|
  {
    if dirs != [] {
      SameGlobAll(root, dirs[..|dirs| - 1], paths, later);
      SameProtoNames(root, dirs[|dirs| - 1], paths, later);
    }
  }

  ghost predicate IsBelow(root: Path, p: Path) {
    |p| >= |root| + 2 && p[..|root|] == root
  }

  /** An output brings in no new directory. */
  lemma OutputDirectory(files: Files, root: Path, p: Path)
    requires IsOutput(RunServices(files, root), p)
    ensures IsBelow(root, p) && p[|root|] in Directories(root, files.Keys)
  {
    OutputsShape(files, root, p);
    var q :| q in files && IsProtoFile(root, q) && Dir(p) == Dir(q);
    assert p[..|p| - 1] == q[..|q| - 1];
    assert |p| == |root| + 2;
    assert p[..|root|] == p[..|p| - 1][..|root|] == q[..|root|];
    assert p[|root|] == p[..|p| - 1][|root|] == q[|root|];
  }

  lemma SameDirectories(files: Files, root: Path)
    ensures Directories(root, files.Keys) == Directories(root, Generated(files, root).Keys)
  {
    var later := Generated(files, root);
    forall p: Path
      ensures p in files ==> p in later
      ensures p in later && p !in files ==> IsBelow(root, p) && p[|root|] in Directories(root, files.Keys)
    {
      RunFrame(files, root, p);
      if IsOutput(RunServices(files, root), p) {
        OutputDirectory(files, root, p);
      }
    }
    forall d
      ensures d in Directories(root, files.Keys) <==> d in Directories(root, later.Keys)
    {
      if d in Directories(root, files.Keys) {
        var p :| p in files && |p| >= |root| + 2 && p[..|root|] == root && p[|root|] == d;
        assert p in later.Keys;
      }
      if d in Directories(root, later.Keys) {
        var p :| p in later && |p| >= |root| + 2 && p[..|root|] == root && p[|root|] == d;
        if p in files {
          assert p in files.Keys;
        }
      }
    }
  }

  /** The next run lists the same files, and they have the same text. */
  lemma SameInputs(files: Files, root: Path)
    ensures Inputs(root, Generated(files, root).Keys) == Inputs(root, files.Keys)
    ensures RunPaths(Generated(files, root), root) == RunPaths(files, root)
  {
    var later, inputs := Generated(files, root), Inputs(root, files.Keys);
    forall p: Path | IsProtoFile(root, p)
      ensures p in files.Keys <==> p in later.Keys
    {
      ProtoFilesKept(files, root, p);
    }
    SameDirectories(files, root);
    SameGlobAll(root, Sorted(Directories(root, files.Keys)), files.Keys, later.Keys);
    var parse, parseLater := FileParser(files, root), FileParser(later, root);
    forall i | 0 <= i < |inputs|
      ensures parse(inputs[i]).Ok? <==> parseLater(inputs[i]).Ok?
    {
      InputsListed(root, files.Keys, inputs[i]);
      ProtoFilesKept(files, root, inputs[i]);
      SameTextParses(files, later, root, inputs[i]);
    }
    SameParsable(parse, parseLater, inputs);
  }

  // ---------- the services of the next run ----------

  ghost predicate SameServices(services: seq<Service>, later: seq<Service>) {
    |services| == |later| && forall i :: 0 <= i < |services| ==> SameButImports(services[i], later[i])
  }

  /** The next run parses the same services, except perhaps for their imports. */
  lemma ServicesAgain(files: Files, root: Path)
    ensures SameServices(RunServices(files, root), RunServices(Generated(files, root), root))
  {
    var later := Generated(files, root);
    var services, again, paths := RunServices(files, root), RunServices(later, root), RunPaths(files, root);
    RunServicesAre(files, root);
    RunServicesAre(later, root);
    SameInputs(files, root);
    forall i | 0 <= i < |paths|
      ensures SameButImports(services[i], again[i])
    {
      ProtoFilesKept(files, root, paths[i]);
      SameTextParses(files, later, root, paths[i]);
      assert ParsesTo(files, root, paths[i], services[i]) && ParsesTo(later, root, paths[i], again[i]);
    }
  }

  lemma SameOutputs(services: seq<Service>, later: seq<Service>)
    requires SameServices(services, later)
    ensures forall i: nat :: i < |services| ==> OutputPath(services[i]) == OutputPath(later[i])
    ensures forall p :: IsOutput(services, p) <==> IsOutput(later, p)
    ensures forall i: nat :: IsLastWriter(services, i) <==> IsLastWriter(later, i)
  {
    forall i: nat | i < |services|
      ensures OutputPath(services[i]) == OutputPath(later[i])
      ensures forall p :: WritesTo(services[i], p) <==> WritesTo(later[i], p)
    {
      assert SameButImports(services[i], later[i]);
    }
    forall p
      ensures IsOutput(services, p) <==> IsOutput(later, p)
    {
      if IsOutput(services, p) {
        var i :| 0 <= i < |services| && WritesTo(services[i], p);
        assert WritesTo(later[i], p);
      }
      if IsOutput(later, p) {
        var i :| 0 <= i < |later| && WritesTo(later[i], p);
        assert WritesTo(services[i], p);
      }
    }
  }

  /** What a run writes has no go_package to import. */
  lemma OutputHasNoGoPackage(files: Files, root: Path, p: Path)
    requires IsOutput(RunServices(files, root), p)
    ensures GoPackageIn(Generated(files, root), p).Err?
  {
    var services, paths := RunServices(files, root), RunPaths(files, root);
    RunServicesAre(files, root);
    LastWriterExists(services, p);
    var i: nat :| IsLastWriter(services, i) && OutputPath(services[i]) == p;
    WriteAllLast(files, services, i, p, Render(services[i]));
    assert ParsesTo(files, root, paths[i], services[i]);
    ParsedRenderable(files, root, paths[i]);
    RenderedHasNoGoPackage(services[i]);
  }

  lemma OthersKeepGoPackage(files: Files, root: Path, p: Path)
    requires !IsOutput(RunServices(files, root), p)
    ensures GoPackageIn(Generated(files, root), p) == GoPackageIn(files, p)
  {
    RunFrame(files, root, p);
  }

  // ---------- when imports change ----------

  /** An import path that resolved at first and fails later. */
  ghost predicate IsLost(resolve: Resolver, later: Resolver, path: string) {
    resolve(path).Ok? && later(path).Err?
  }

  lemma NoneLostSnoc(resolve: Resolver, later: Resolver, front: seq<string>, path: string)
    ensures NoneLost(resolve, later, front + [path]) <==> NoneLost(resolve, later, front) && !IsLost(resolve, later, path)
  {
    assert (front + [path])[|front|] == path;
    assert forall k :: 0 <= k < |front| ==> (front + [path])[k] == front[k];
  }

  lemma SnocSame(x: seq<string>, y: seq<string>, value: string)
    ensures y + [value] == x + [value] <==> x == y
  {
    if y + [value] == x + [value] {
      assert (y + [value])[..|y|] == y && (x + [value])[..|x|] == x;
    }
  }

  /** When resolving can only get lost, the resolved list stays the same exactly when nothing is. */
  lemma {:induction false} ResolvedAgain(resolve: Resolver, later: Resolver, paths: seq<string>)
    requires forall p :: later(p).Ok? ==> later(p) == resolve(p)
    ensures |Resolved(later, paths)| <= |Resolved(resolve, paths)|
    ensures Resolved(later, paths) == Resolved(resolve, paths)
       <==> NoneLost(resolve, later, paths)
    decreases |paths|
  {
    if paths != [] {
      var front, path := paths[..|paths| - 1], paths[|paths| - 1];
      ResolvedAgain(resolve, later, front);
      assert paths == front + [path];
      NoneLostSnoc(resolve, later, front, path);
      ResolvedSnoc(resolve, front, path);
      ResolvedSnoc(later, front, path);
      var x, y := Resolved(resolve, front), Resolved(later, front);
      if later(path).Ok? {
        SnocSame(x, y, later(path).value);
      } else {
        assert x + [] == x && y + [] == y;
      }
    }
  }

  /** The imports a file uses, in first-use order. */
  ghost function UsedPaths(files: Files, p: Path): seq<string>
    requires p in files
  {
    var ks := Statements(Lines(files[p]));
    FirstUsePaths(ks, |ks|)
  }

  /** The file at `p` imports a go_package from a file the run overwrites. */
  ghost predicate ReadsOutput(files: Files, root: Path, p: Path)
    requires p in files
  {
    !NoneOverwritten(files, root, UsedPaths(files, p))
  }

  ghost predicate Overwritten(files: Files, root: Path, q: Path) {
    IsOutput(RunServices(files, root), q) && GoPackageIn(files, q).Ok?
  }

  lemma LostIsOverwritten(files: Files, root: Path, path: string)
    ensures var resolve, later := FileResolver(files, root), FileResolver(Generated(files, root), root);
            && (later(path).Ok? ==> later(path) == resolve(path))
            && (IsLost(resolve, later, path) <==> Overwritten(files, root, JoinPath(root, path)))
  {
    var q := JoinPath(root, path);
    if IsOutput(RunServices(files, root), q) {
      OutputHasNoGoPackage(files, root, q);
    } else {
      OthersKeepGoPackage(files, root, q);
    }
  }

  lemma ResolvingOnlyLoses(files: Files, root: Path)
    ensures var resolve, later := FileResolver(files, root), FileResolver(Generated(files, root), root);
            forall path :: later(path).Ok? ==> later(path) == resolve(path)
  {
    var resolve, later := FileResolver(files, root), FileResolver(Generated(files, root), root);
    forall path
      ensures later(path).Ok? ==> later(path) == resolve(path)
    {
      LostIsOverwritten(files, root, path);
    }
  }

  ghost predicate NoneLost(resolve: Resolver, later: Resolver, paths: seq<string>) {
    forall k :: 0 <= k < |paths| ==> !IsLost(resolve, later, paths[k])
  }

  ghost predicate NoneOverwritten(files: Files, root: Path, paths: seq<string>) {
    forall k :: 0 <= k < |paths| ==> !Overwritten(files, root, JoinPath(root, paths[k]))
  }

  lemma {:induction false} NoneLostMeans(files: Files, root: Path, paths: seq<string>)
    ensures NoneLost(FileResolver(files, root), FileResolver(Generated(files, root), root), paths)
       <==> NoneOverwritten(files, root, paths)
    decreases |paths|
  {
    forall k | 0 <= k < |paths|
      ensures IsLost(FileResolver(files, root), FileResolver(Generated(files, root), root), paths[k])
         <==> Overwritten(files, root, JoinPath(root, paths[k]))
    {
      LostIsOverwritten(files, root, paths[k]);
    }
  }

  lemma PathsAgain(files: Files, root: Path, paths: seq<string>)
    ensures Resolved(FileResolver(files, root), paths) == Resolved(FileResolver(Generated(files, root), root), paths)
       <==> NoneOverwritten(files, root, paths)
  {
    ResolvingOnlyLoses(files, root);
    ResolvedAgain(FileResolver(files, root), FileResolver(Generated(files, root), root), paths);
    NoneLostMeans(files, root, paths);
  }

  lemma ParsedImports(files: Files, root: Path, p: Path, s: Service)
    requires ParsesTo(files, root, p, s)
    ensures p in files && s.imports == Resolved(FileResolver(files, root), UsedPaths(files, p))
  {
    ParseClosedForm(files, root, p);
  }

  /** A file's imports are the same in the next run exactly when it reads no output. */
  lemma ImportsAgain(files: Files, root: Path, p: Path, s: Service, t: Service)
    requires SameText(files, Generated(files, root), p)
    requires ParsesTo(files, root, p, s) && ParsesTo(Generated(files, root), root, p, t)
    ensures s.imports == t.imports <==> !ReadsOutput(files, root, p)
  {
    ParsedImports(files, root, p, s);
    ParsedImports(Generated(files, root), root, p, t);
    PathsAgain(files, root, UsedPaths(files, p));
  }

  // ---------- running twice ----------

  /** Some service whose text stays in its output file imports from a file the run overwrites. */
  ghost predicate Clobbers(files: Files, root: Path) {
    exists i: nat :: i < |RunPaths(files, root)| && RunPaths(files, root)[i] in files
      && IsLastWriter(RunServices(files, root), i) && ReadsOutput(files, root, RunPaths(files, root)[i])
  }

  /** The text of output `i` after one more run. */
  lemma OutputAgain(files: Files, root: Path, i: nat)
    requires IsLastWriter(RunServices(files, root), i)
    ensures i < |RunPaths(files, root)| && RunPaths(files, root)[i] in files
    ensures var p, later := OutputPath(RunServices(files, root)[i]), Generated(files, root);
            && p in later && p in Generated(later, root)
            && (later[p] == Generated(later, root)[p] <==> !ReadsOutput(files, root, RunPaths(files, root)[i]))
  {
    var later := Generated(files, root);
    var services, again, paths := RunServices(files, root), RunServices(later, root), RunPaths(files, root);
    RunServicesAre(files, root);
    RunServicesAre(later, root);
    SameInputs(files, root);
    ServicesAgain(files, root);
    SameOutputs(services, again);
    var s, t, p := services[i], again[i], OutputPath(services[i]);
    WriteAllLast(files, services, i, p, Render(services[i]));
    WriteAllLast(later, again, i, p, Render(again[i]));
    assert ParsesTo(files, root, paths[i], s) && ParsesTo(later, root, paths[i], t);
    ProtoFilesKept(files, root, paths[i]);
    assert SameButImports(s, t);
    ImportsAgain(files, root, paths[i], s, t);
    ParsedRenderable(files, root, paths[i]);
    ParsedRenderable(later, root, paths[i]);
    RenderInjective(s, t);
  }

  /** One run leaves nothing for the next to change exactly when no service whose Go file it writes
      imports from a file that it overwrites. */
  lemma IdempotentUnlessClobbered(files: Files, root: Path)
    ensures Generated(Generated(files, root), root) == Generated(files, root) <==> !Clobbers(files, root)
  {
    var later := Generated(files, root);
    var twice := Generated(later, root);
    if Clobbers(files, root) {
      var i: nat :| i < |RunPaths(files, root)| && RunPaths(files, root)[i] in files
        && IsLastWriter(RunServices(files, root), i) && ReadsOutput(files, root, RunPaths(files, root)[i]);
      OutputAgain(files, root, i);
      assert later != twice;
    } else {
      forall p: Path
        ensures p in later <==> p in twice
        ensures p in later ==> later[p] == twice[p]
      {
        SecondRunKeeps(files, root, p);
      }
      assert later == twice;
    }
  }

  lemma SecondRunKeeps(files: Files, root: Path, p: Path)
    requires !Clobbers(files, root)
    ensures var later := Generated(files, root); var twice := Generated(later, root);
            && (p in later <==> p in twice)
            && (p in later ==> later[p] == twice[p])
  {
    var later := Generated(files, root);
    ServicesAgain(files, root);
    SameOutputs(RunServices(files, root), RunServices(later, root));
    RunFrame(files, root, p);
    RunFrame(later, root, p);
    if IsOutput(RunServices(files, root), p) {
      LastWriterExists(RunServices(files, root), p);
      var i: nat :| IsLastWriter(RunServices(files, root), i) && OutputPath(RunServices(files, root)[i]) == p;
      OutputAgain(files, root, i);
    }
  }

  /** After one run nothing is clobbered any more. */
  lemma NothingClobberedTwice(files: Files, root: Path)
    ensures !Clobbers(Generated(files, root), root)
  {
    var later := Generated(files, root);
    ServicesAgain(files, root);
    SameOutputs(RunServices(files, root), RunServices(later, root));
    forall q
      ensures !Overwritten(later, root, q)
    {
      if IsOutput(RunServices(later, root), q) {
        OutputHasNoGoPackage(files, root, q);
      }
    }
  }

  /** Whatever the files hold, two runs reach a fixed point: a third changes nothing. */
  lemma TwoRunsSettle(files: Files, root: Path)
    ensures var twice := Generated(Generated(files, root), root); Generated(twice, root) == twice
  {
    NothingClobberedTwice(files, root);
    IdempotentUnlessClobbered(Generated(files, root), root);
  }

  // ---------- imports of .proto files ----------

  /** Every import line of a listed file names a `.proto` file. */
  ghost predicate ImportsProtos(files: Files, root: Path) {
    forall p, path :: p in files && IsProtoFile(root, p) && ImportLine(path) in Statements(Lines(files[p]))
      ==> HasSuffix(path, PROTO)
  }

  lemma ProtoPathJoins(root: Path, path: string)
    requires HasSuffix(path, PROTO)
    ensures var q := JoinPath(root, path); q != [] && HasSuffix(q[|q| - 1], PROTO)
  {
    var stem := path[..|path| - |PROTO|];
    assert path == stem + PROTO;
    LastPieceAppend(stem, '/', PROTO);
    var last := LastPiece(path, '/');
    assert last[|LastPiece(stem, '/')|..] == PROTO;
    assert |last| > 2;
    PiecesAreFree(path, '/');
    JoinPathLast(root, path);
  }

  lemma {:induction false} UsedPathsAreImported(ks: seq<Statement>, n: nat, k: nat)
    requires n <= |ks| && k < |FirstUsePaths(ks, n)|
    ensures ImportLine(FirstUsePaths(ks, n)[k]) in ks
    decreases n
  {
    if k < |FirstUsePaths(ks, n - 1)| {
      UsedPathsAreImported(ks, n - 1, k);
    } else {
      DeclaredSound(ks, n - 1, AliasOf(ks[n - 1].request));
    }
  }

  lemma ProtoImportsReadNoOutput(files: Files, root: Path, p: Path, k: nat)
    requires ImportsProtos(files, root)
    requires p in files && IsProtoFile(root, p) && k < |UsedPaths(files, p)|
    ensures !IsOutput(RunServices(files, root), JoinPath(root, UsedPaths(files, p)[k]))
  {
    var ks := Statements(Lines(files[p]));
    UsedPathsAreImported(ks, |ks|, k);
    ProtoPathJoins(root, UsedPaths(files, p)[k]);
    InputsAreNotOutputs(files, root, JoinPath(root, UsedPaths(files, p)[k]));
  }

  /** When import paths end in `.proto`, running twice is running once. */
  lemma IdempotentForProtoImports(files: Files, root: Path)
    requires ImportsProtos(files, root)
    ensures Generated(Generated(files, root), root) == Generated(files, root)
  {
    RunServicesAre(files, root);
    forall p, k: nat | p in files && IsProtoFile(root, p) && k < |UsedPaths(files, p)|
      ensures !Overwritten(files, root, JoinPath(root, UsedPaths(files, p)[k]))
    {
      ProtoImportsReadNoOutput(files, root, p, k);
    }
    assert !Clobbers(files, root);
    IdempotentUnlessClobbered(files, root);
  }
}
