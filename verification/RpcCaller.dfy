/** The generator itself: a project directory whose files it reads and overwrites in place. */
module RpcCaller {
  import opened Text
  import Patterns
  import opened ProtoLines
  import opened CamelCase
  import opened Paths
  import opened ProtoParser
  import ParserLaws
  import opened GoFile
  import opened Generator

  // ---------- one turn of the parser's loop, pattern by pattern ----------

  ghost function StateAt(resolve: Resolver, lines: seq<string>, i: nat): State
    requires i <= |lines|
  {
    Run(resolve, INITIAL, Statements(lines[..i]))
  }

  lemma LineStep(resolve: Resolver, lines: seq<string>, i: nat)
    requires i < |lines|
    ensures StateAt(resolve, lines, i + 1) == Step(resolve, StateAt(resolve, lines, i), Classify(lines[i]))
  {
    assert lines[..i + 1][..i] == lines[..i];
    assert |Statements(lines[..i + 1])| == i + 1;
  }

  lemma ImportTurn(resolve: Resolver, lines: seq<string>, i: nat, c: seq<string>)
    requires i < |lines| && Patterns.Scan(IMPORT, lines[i]) == Some(c)
    ensures |c| == 1
    ensures var st := StateAt(resolve, lines, i);
            StateAt(resolve, lines, i + 1) == st.(allImports := st.allImports[Stem(c[0]) := c[0]])
  {
    GroupCounts();
    LineStep(resolve, lines, i);
  }

  lemma GoPackageTurn(resolve: Resolver, lines: seq<string>, i: nat, c: seq<string>)
    requires i < |lines| && Patterns.Scan(GO_PACKAGE, lines[i]) == Some(c)
    ensures |c| == 1
    ensures StateAt(resolve, lines, i + 1) == StateAt(resolve, lines, i).(goPackage := c[0])
  {
    GoPackageScan(lines[i]);
    LineStep(resolve, lines, i);
  }

  lemma ServiceTurn(resolve: Resolver, lines: seq<string>, i: nat, c: seq<string>)
    requires i < |lines| && Patterns.Scan(SERVICE, lines[i]) == Some(c)
    ensures |c| == 1
    ensures StateAt(resolve, lines, i + 1) == StateAt(resolve, lines, i).(serviceName := c[0], inService := true)
  {
    GroupCounts();
    PatternsDisjoint(lines[i]);
    LineStep(resolve, lines, i);
  }

  /** The state after an rpc line of an open service, given what the lookup of its import answers. */
  function AfterRpc(st: State, m: ServiceMethod, request: string, answer: Result<string>): State {
    var imp := Split(request, '.')[0];
    if '.' in request && imp in st.allImports && imp !in st.alreadyImports then
      st.(methods := st.methods + [m],
          alreadyImports := st.alreadyImports + {imp},
          imports := if answer.Ok? then st.imports + [answer.value] else st.imports)
    else st.(methods := st.methods + [m])
  }

  function Answer(resolve: Resolver, st: State, request: string): Result<string> {
    var imp := Split(request, '.')[0];
    if imp in st.allImports then resolve(st.allImports[imp]) else Err(NoGoPackage)
  }

  lemma RpcScan(line: string, c: seq<string>)
    requires Patterns.Scan(RPC, line) == Some(c)
    ensures |c| == 3 && Classify(line) == RpcLine(c[0], c[1], c[2])
  {
    GroupCounts();
    PatternsDisjoint(line);
  }

  lemma RpcStep(resolve: Resolver, st: State, name: string, request: string, response: string, m: ServiceMethod)
    requires st.inService && m == MethodOf(st.serviceName, name, request, response)
    ensures Step(resolve, st, RpcLine(name, request, response)) == AfterRpc(st, m, request, Answer(resolve, st, request))
  {
  }

  lemma RpcTurn(resolve: Resolver, lines: seq<string>, i: nat, c: seq<string>)
    requires i < |lines| && Patterns.Scan(RPC, lines[i]) == Some(c)
    requires StateAt(resolve, lines, i).inService
    ensures |c| == 3
    ensures var st := StateAt(resolve, lines, i);
            StateAt(resolve, lines, i + 1)
            == AfterRpc(st, MethodOf(st.serviceName, c[0], c[1], c[2]), c[1], Answer(resolve, st, c[1]))
  {
    RpcScan(lines[i], c);
    LineStep(resolve, lines, i);
    var st := StateAt(resolve, lines, i);
    RpcStep(resolve, st, c[0], c[1], c[2], MethodOf(st.serviceName, c[0], c[1], c[2]));
  }

  /** A line that matches none of the first three patterns, and not the rpc pattern in a service. */
  lemma OtherTurn(resolve: Resolver, lines: seq<string>, i: nat)
    requires i < |lines|
    requires Patterns.Scan(IMPORT, lines[i]).None? && Patterns.Scan(GO_PACKAGE, lines[i]).None?
    requires Patterns.Scan(SERVICE, lines[i]).None?
    requires StateAt(resolve, lines, i).inService ==> Patterns.Scan(RPC, lines[i]).None?
    ensures var st := StateAt(resolve, lines, i);
            StateAt(resolve, lines, i + 1) == st.(inService := st.inService && '}' !in lines[i])
  {
    LineStep(resolve, lines, i);
    OtherStep(resolve, StateAt(resolve, lines, i), lines[i]);
  }

  lemma OtherStep(resolve: Resolver, st: State, line: string)
    requires Patterns.Scan(IMPORT, line).None? && Patterns.Scan(GO_PACKAGE, line).None?
    requires Patterns.Scan(SERVICE, line).None?
    requires st.inService ==> Patterns.Scan(RPC, line).None?
    ensures Step(resolve, st, Classify(line)) == st.(inService := st.inService && '}' !in line)
  {
  }

  /** After the last line the state gives the result. */
  lemma LoopDone(files: Files, root: Path, path: Path)
    requires path in files
    ensures var lines := Lines(files[path]);
            Parse(files, root, path) == Outcome(path, StateAt(FileResolver(files, root), lines, |lines|))
  {
    var lines := Lines(files[path]);
    assert lines[..|lines|] == lines;
  }

  // ---------- the go_package of another file ----------

  /** One turn of the search: the line at `i` has the first go_package, or the search goes on. */
  lemma SearchTurn(lines: seq<string>, i: nat)
    requires i < |lines|
    ensures var ks, r := Statements(lines), Patterns.Scan(GO_PACKAGE, lines[i]);
            && (r.Some? ==> |r.value| == 1 && FirstGoPackage(ks[i..]) == Some(r.value[0]))
            && (r.None? ==> FirstGoPackage(ks[i..]) == FirstGoPackage(ks[i + 1..]))
  {
    var ks := Statements(lines);
    StatementAt(lines, i);
    GoPackageScan(lines[i]);
    assert ks[i..][0] == ks[i] && ks[i..][1..] == ks[i + 1..];
  }

  /** The go_package pattern on its own, without trying the import pattern first. */
  lemma GoPackageScan(line: string)
    ensures var r := Patterns.Scan(GO_PACKAGE, line);
            && (r.Some? <==> Classify(line).GoPackageLine?)
            && (r.Some? ==> |r.value| == 1 && Classify(line).value == r.value[0])
  {
    GroupCounts();
    PatternsDisjoint(line);
  }

  method NewMethod(serviceName: string, methodName: string, requestType: string, responseType: string)
    returns (m: ServiceMethod)
    ensures m == MethodOf(serviceName, methodName, requestType, responseType)
  {
    var service := ToCamelCase(serviceName);
    var name := ToCamelCase(methodName);
    var request := ToCamelCase(requestType);
    var response := ToCamelCase(responseType);
    m := ServiceMethod(name + "Caller", request, response, service + "_" + name + "_" + FULL_METHOD_NAME);
  }

  class Workspace {
    const root: Path
    var files: Files

    constructor (root: Path, files: Files)
      ensures this.root == root && this.files == files
    {
      this.root, this.files := root, files;
    }

    /** The first go_package of a file. */
    method GetGoPackage(filePath: Path) returns (r: Result<string>)
      ensures r == GoPackageIn(files, filePath)
    {
      if filePath !in files {
        return Err(OpenFailed);
      }
      var lines := Lines(files[filePath]);
      ghost var ks := Statements(lines);
      assert ks[0..] == ks;
      for i := 0 to |lines|
        invariant FirstGoPackage(ks[i..]) == FirstGoPackage(ks)
      {
        var matches := Patterns.Scan(GO_PACKAGE, lines[i]);
        SearchTurn(lines, i);
        if matches.Some? {
          return Ok(matches.value[0]);
        }
      }
      return Err(NoGoPackage);
    }

    /** One pass over the lines of a `.proto` file. */
    method ScanLines(lines: seq<string>) returns (st: State)
      ensures st == StateAt(FileResolver(files, root), lines, |lines|)
    {
      var goPackage, serviceName := "", "";
      var methods: seq<ServiceMethod>, imports: seq<string> := [], [];
      var alreadyImports: set<string>, allImports: map<string, string> := {}, map[];
      var inService := false;
      ghost var resolve := FileResolver(files, root);
      for i := 0 to |lines|
        invariant StateAt(resolve, lines, i)
               == State(goPackage, serviceName, methods, imports, alreadyImports, allImports, inService)
      {
        var line := lines[i];
        var matches := Patterns.Scan(IMPORT, line);
        if matches.Some? {
          ImportTurn(resolve, lines, i, matches.value);
          var pkg := Stem(matches.value[0]);
          allImports := allImports[pkg := matches.value[0]];
          continue;
        }
        matches := Patterns.Scan(GO_PACKAGE, line);
        if matches.Some? {
          GoPackageTurn(resolve, lines, i, matches.value);
          goPackage := matches.value[0];
          continue;
        }
        matches := Patterns.Scan(SERVICE, line);
        if matches.Some? {
          ServiceTurn(resolve, lines, i, matches.value);
          serviceName := matches.value[0];
          inService := true;
          continue;
        }
        if inService {
          matches := Patterns.Scan(RPC, line);
          if matches.Some? {
            RpcTurn(resolve, lines, i, matches.value);
            ghost var before := StateAt(resolve, lines, i);
            ghost var answer := Answer(resolve, before, matches.value[1]);
            var methodName, requestType, responseType := matches.value[0], matches.value[1], matches.value[2];
            var caller := NewMethod(serviceName, methodName, requestType, responseType);
            methods := methods + [caller];
            if '.' in requestType {
              var imp := Split(requestType, '.')[0];
              if imp in allImports && imp !in alreadyImports {
                alreadyImports := alreadyImports + {imp};
                var gopkg := GetGoPackage(JoinPath(root, allImports[imp]));
                assert gopkg == answer;
                if gopkg.Ok? {
                  imports := imports + [gopkg.value];
                }
              }
            }
            continue;
          }
        }
        OtherTurn(resolve, lines, i);
        if inService && '}' in line {
          inService := false;
        }
      }
      st := State(goPackage, serviceName, methods, imports, alreadyImports, allImports, inService);
    }

    method ParseProtoFile(path: Path) returns (r: Result<Service>)
      ensures r == Parse(files, root, path)
    {
      if path !in files {
        return Err(OpenFailed);
      }
      var st := ScanLines(Lines(files[path]));
      LoopDone(files, root, path);
      r := Outcome(path, st);
    }

    /** Writes the Go file of a service that has methods, and nothing else. */
    method GenerateGoFile(service: Service)
      modifies this`files
      ensures files == WriteOne(old(files), service)
    {
      if |service.methods| == 0 {
        return;
      }
      var text := Render(service);
      var goFileName := ToLower(service.fileName) + CALLER_GO;
      files := files[JoinPath(service.filePath, goFileName) := text];
    }

    /** The first phase: parses every `.proto` file of every directory, skipping those that fail. */
    method ParseProject() returns (services: seq<Service>)
      ensures services == Services(FileParser(files, root), Inputs(root, files.Keys))
    {
      services := [];
      var paths := files.Keys;
      var entries := Sorted(Directories(root, paths));
      for d := 0 to |entries|
        invariant services == Services(FileParser(files, root), Listed(root, entries, paths, d, 0))
      {
        var protoFiles := Glob(root, entries[d], paths);
        for f := 0 to |protoFiles|
          invariant services == Services(FileParser(files, root), Listed(root, entries, paths, d, f))
        {
          var service := ParseProtoFile(protoFiles[f]);
          NextFile(FileParser(files, root), root, entries, paths, d, f);
          if service.Ok? {
            services := services + [service.value];
          }
        }
        NextDirectory(root, entries, paths, d);
      }
      AllListed(root, entries, paths);
    }

    /** Parses every listed file, then writes every output. */
    method Generate()
      modifies this`files
      ensures files == Generated(old(files), root)
    {
      var services := ParseProject();
      for i := 0 to |services|
        invariant files == WriteAll(old(files), services[..i])
      {
        GenerateGoFile(services[i]);
        NextWrite(old(files), services, i);
      }
      assert services[..|services|] == services;
    }
  }

  // ---------- the driver's nested loops ----------

  /** What is listed before file `f` of directory `d`. */
  ghost function Listed(root: Path, entries: seq<Name>, paths: set<Path>, d: nat, f: nat): seq<Path>
    requires d <= |entries|
    requires f == 0 || (d < |entries| && f <= |Glob(root, entries[d], paths)|)
  {
    GlobAll(root, entries[..d], paths) + if f == 0 then [] else Glob(root, entries[d], paths)[..f]
  }

  lemma NextFile(parse: Parser, root: Path, entries: seq<Name>, paths: set<Path>, d: nat, f: nat)
    requires d < |entries| && f < |Glob(root, entries[d], paths)|
    ensures Services(parse, Listed(root, entries, paths, d, f + 1))
         == Services(parse, Listed(root, entries, paths, d, f))
            + match parse(Glob(root, entries[d], paths)[f]) case Ok(service) => [service] case Err(_) => []
  {
    var before, after := Listed(root, entries, paths, d, f), Listed(root, entries, paths, d, f + 1);
    var p := Glob(root, entries[d], paths)[f];
    assert after == before + [p];
    assert after[..|after| - 1] == before;
  }

  lemma NextDirectory(root: Path, entries: seq<Name>, paths: set<Path>, d: nat)
    requires d < |entries|
    ensures Listed(root, entries, paths, d + 1, 0)
         == Listed(root, entries, paths, d, |Glob(root, entries[d], paths)|)
  {
    assert entries[..d + 1][..d] == entries[..d];
    var files := Glob(root, entries[d], paths);
    assert files[..|files|] == files;
  }

  lemma AllListed(root: Path, entries: seq<Name>, paths: set<Path>)
    ensures Listed(root, entries, paths, |entries|, 0) == GlobAll(root, entries, paths)
  {
    assert entries[..|entries|] == entries;
  }

  lemma NextWrite(files: Files, services: seq<Service>, i: nat)
    requires i < |services|
    ensures WriteAll(files, services[..i + 1]) == WriteOne(WriteAll(files, services[..i]), services[i])
  {
    assert services[..i + 1][..i] == services[..i];
  }
}
