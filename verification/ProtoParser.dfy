/** The parser of one `.proto` file: its loop state, one step per line, and the closed form of the
    state over the whole sequence of lines. */
module ProtoParser {
  import opened Text
  import opened ProtoLines
  import opened CamelCase
  import opened Paths

  datatype ServiceMethod = ServiceMethod(
    name: string,
    requestType: string,
    responseType: string,
    fullMethodName: string)

  datatype Service = Service(
    filePath: Path,
    fileName: string,
    serviceName: string,
    goPackage: string,
    methods: seq<ServiceMethod>,
    imports: seq<string>)

  // ---------- the go_package of another file ----------

  /** The value of the first go_package line. */
  function FirstGoPackage(ks: seq<Statement>): Option<string> {
    if ks == [] then None
    else if ks[0].GoPackageLine? then Some(ks[0].value)
    else FirstGoPackage(ks[1..])
  }

  function GoPackageIn(files: Files, path: Path): Result<string> {
    if path !in files then Err(OpenFailed)
    else match FirstGoPackage(Statements(Lines(files[path])))
      case None => Err(NoGoPackage)
      case Some(value) => Ok(value)
  }

  /** What getGoPackage answers for an imported path. */
  type Resolver = string -> Result<string>

  // ---------- the loop state ----------

  datatype State = State(
    goPackage: string,
    serviceName: string,
    methods: seq<ServiceMethod>,
    imports: seq<string>,
    alreadyImports: set<string>,
    allImports: map<string, string>,
    inService: bool)

  const INITIAL := State("", "", [], [], {}, map[], false)

  function MethodOf(service: string, name: string, request: string, response: string): ServiceMethod {
    ServiceMethod(Camel(name) + "Caller", Camel(request), Camel(response), FullMethodName(service, name))
  }

  /** The generated fields of a method: each comes from its own part of the rpc line. */
  ghost predicate IsCallerFor(m: ServiceMethod, service: string, name: string, request: string, response: string) {
    && m.name == Camel(name) + "Caller"
    && m.requestType == Camel(request)
    && m.responseType == Camel(response)
    && m.fullMethodName == Camel(service) + "_" + Camel(name) + "_" + "FullMethodName"
  }

  function AliasOf(request: string): string {
    Split(request, '.')[0]
  }

  /** The import side of an rpc line: the first use of a declared alias records it and, when the
      imported file has a go_package, adds that. */
  function UseImport(resolve: Resolver, st: State, request: string): State {
    var imp := AliasOf(request);
    if '.' in request && imp in st.allImports && imp !in st.alreadyImports then
      var marked := st.(alreadyImports := st.alreadyImports + {imp});
      match resolve(st.allImports[imp])
      case Ok(value) => marked.(imports := st.imports + [value])
      case Err(_) => marked
    else st
  }

  function Step(resolve: Resolver, st: State, k: Statement): State {
    match k
    case ImportLine(path) => st.(allImports := st.allImports[Stem(path) := path])
    case GoPackageLine(value) => st.(goPackage := value)
    case ServiceLine(name) => st.(serviceName := name, inService := true)
    case RpcLine(name, request, response) =>
      if st.inService then
        UseImport(resolve, st.(methods := st.methods + [MethodOf(st.serviceName, name, request, response)]), request)
      else st
    case Close => st.(inService := false)
    case Other => st
  }

  function Run(resolve: Resolver, st: State, ks: seq<Statement>): State {
    if ks == [] then st
    else Step(resolve, Run(resolve, st, ks[..|ks| - 1]), ks[|ks| - 1])
  }

  lemma {:induction false} RunAppend(resolve: Resolver, st: State, a: seq<Statement>, b: seq<Statement>)
    ensures Run(resolve, st, a + b) == Run(resolve, Run(resolve, st, a), b)
  {
    if b == [] {
      assert a + b == a;
    } else {
      var n := |b| - 1;
      assert (a + b)[..|a + b| - 1] == a + b[..n];
      RunAppend(resolve, st, a, b[..n]);
    }
  }

  function Outcome(path: Path, st: State): Result<Service> {
    if st.serviceName == "" then Err(NoServiceName)
    else if st.goPackage == "" then Err(NoGoPackage)
    else
      Ok(Service(Dir(path), Stem(LastName(path)), st.serviceName, LastPiece(st.goPackage, '/'), st.methods, st.imports))
  }

  function ParseLines(resolve: Resolver, path: Path, lines: seq<string>): Result<Service> {
    Outcome(path, Run(resolve, INITIAL, Statements(lines)))
  }

  /** The resolver of a run: imported paths are looked up below the project root. */
  function FileResolver(files: Files, root: Path): Resolver {
    (path: string) => GoPackageIn(files, JoinPath(root, path))
  }

  /** What parsing a file gives. */
  function Parse(files: Files, root: Path, path: Path): Result<Service> {
    if path !in files then Err(OpenFailed) else ParseLines(FileResolver(files, root), path, Lines(files[path]))
  }

  // ---------- the closed form ----------

  /** A service is open before line `n`: some earlier service line has no closing line after it. */
  ghost predicate OpenAt(ks: seq<Statement>, n: nat)
    requires n <= |ks|
  {
    exists j :: 0 <= j < n && ks[j].ServiceLine? && forall k :: j < k < n ==> !ks[k].Close?
  }

  /** The name on the nearest service line before line `n`. */
  function NearestService(ks: seq<Statement>, n: nat): string
    requires n <= |ks|
  {
    if n == 0 then "" else if ks[n - 1].ServiceLine? then ks[n - 1].name else NearestService(ks, n - 1)
  }

  function NearestGoPackage(ks: seq<Statement>, n: nat): string
    requires n <= |ks|
  {
    if n == 0 then "" else if ks[n - 1].GoPackageLine? then ks[n - 1].value else NearestGoPackage(ks, n - 1)
  }

  predicate Declares(k: Statement, alias: string) {
    k.ImportLine? && Stem(k.path) == alias
  }

  /** The path the nearest import line before line `n` declares for an alias. */
  function Declared(ks: seq<Statement>, n: nat, alias: string): Option<string>
    requires n <= |ks|
  {
    if n == 0 then None
    else if Declares(ks[n - 1], alias) then Some(ks[n - 1].path)
    else Declared(ks, n - 1, alias)
  }

  /** Line `i` is an rpc line of an open service. */
  ghost predicate IsMethodAt(ks: seq<Statement>, i: nat)
    requires i < |ks|
  {
    ks[i].RpcLine? && OpenAt(ks, i)
  }

  /** The method such a line declares: it carries the nearest preceding service name. */
  function MethodAt(ks: seq<Statement>, i: nat): ServiceMethod
    requires i < |ks| && ks[i].RpcLine?
  {
    MethodOf(NearestService(ks, i), ks[i].name, ks[i].request, ks[i].response)
  }

  ghost function MethodsBefore(ks: seq<Statement>, n: nat): seq<ServiceMethod>
    requires n <= |ks|
  {
    if n == 0 then []
    else MethodsBefore(ks, n - 1) + if IsMethodAt(ks, n - 1) then [MethodAt(ks, n - 1)] else []
  }

  /** Line `i` is a method whose request type is qualified by an alias declared above it. */
  ghost predicate IsUse(ks: seq<Statement>, i: nat)
    requires i < |ks|
  {
    IsMethodAt(ks, i) && '.' in ks[i].request && Declared(ks, i, AliasOf(ks[i].request)).Some?
  }

  ghost predicate UsesAlias(ks: seq<Statement>, i: nat, alias: string)
    requires i < |ks|
  {
    IsUse(ks, i) && AliasOf(ks[i].request) == alias
  }

  ghost predicate UsedBefore(ks: seq<Statement>, n: nat, alias: string)
    requires n <= |ks|
  {
    exists i: nat :: i < n && UsesAlias(ks, i, alias)
  }

  /** No line above uses the alias that line `i` uses. */
  ghost predicate IsFirstUse(ks: seq<Statement>, i: nat)
    requires i < |ks|
  {
    IsUse(ks, i) && !UsedBefore(ks, i, AliasOf(ks[i].request))
  }

  /** The imported files, in the order in which their aliases are first used. */
  ghost function FirstUsePaths(ks: seq<Statement>, n: nat): seq<string>
    requires n <= |ks|
  {
    if n == 0 then []
    else
      FirstUsePaths(ks, n - 1)
      + if IsFirstUse(ks, n - 1) then [Declared(ks, n - 1, AliasOf(ks[n - 1].request)).value] else []
  }

  /** The go_packages of the files that have one. */
  function Resolved(resolve: Resolver, paths: seq<string>): seq<string> {
    if paths == [] then []
    else
      var n := |paths| - 1;
      Resolved(resolve, paths[..n])
      + match resolve(paths[n])
        case Ok(value) => [value]
        case Err(_) => []
  }

  lemma OpenStep(ks: seq<Statement>, n: nat)
    requires n < |ks|
    ensures OpenAt(ks, n + 1) <==> ks[n].ServiceLine? || (OpenAt(ks, n) && !ks[n].Close?)
  {
    if OpenAt(ks, n) && !ks[n].Close? {
      var j :| 0 <= j < n && ks[j].ServiceLine? && forall k :: j < k < n ==> !ks[k].Close?;
      assert forall k :: j < k < n + 1 ==> !ks[k].Close?;
    }
  }

  lemma UsedStep(ks: seq<Statement>, n: nat, alias: string)
    requires n < |ks|
    ensures UsedBefore(ks, n + 1, alias) <==> UsedBefore(ks, n, alias) || UsesAlias(ks, n, alias)
  {
  }

  ghost predicate ScopeHolds(ks: seq<Statement>, n: nat, st: State)
    requires n <= |ks|
  {
    && (st.inService <==> OpenAt(ks, n))
    && st.serviceName == NearestService(ks, n)
    && st.goPackage == NearestGoPackage(ks, n)
    && st.methods == MethodsBefore(ks, n)
  }

  ghost predicate AliasesHold(ks: seq<Statement>, n: nat, st: State)
    requires n <= |ks|
  {
    && (forall a :: a in st.allImports <==> Declared(ks, n, a).Some?)
    && (forall a :: a in st.allImports ==> Declared(ks, n, a) == Some(st.allImports[a]))
  }

  ghost predicate ImportsHold(resolve: Resolver, ks: seq<Statement>, n: nat, st: State)
    requires n <= |ks|
  {
    && (forall a :: a in st.alreadyImports <==> UsedBefore(ks, n, a))
    && st.imports == Resolved(resolve, FirstUsePaths(ks, n))
  }

  /** The loop state after `n` lines is the closed form. */
  ghost predicate IsClosedForm(resolve: Resolver, ks: seq<Statement>, n: nat, st: State)
    requires n <= |ks|
  {
    ScopeHolds(ks, n, st) && AliasesHold(ks, n, st) && ImportsHold(resolve, ks, n, st)
  }

  lemma ResolvedSnoc(resolve: Resolver, paths: seq<string>, path: string)
    ensures Resolved(resolve, paths + [path])
         == Resolved(resolve, paths)
            + match resolve(path) case Ok(value) => [value] case Err(_) => []
  {
    assert (paths + [path])[..|paths|] == paths;
  }

  lemma ScopeStep(resolve: Resolver, ks: seq<Statement>, n: nat, st: State)
    requires n < |ks| && ScopeHolds(ks, n, st)
    ensures ScopeHolds(ks, n + 1, Step(resolve, st, ks[n]))
  {
    OpenStep(ks, n);
    assert MethodsBefore(ks, n) + [] == MethodsBefore(ks, n);
  }

  lemma AliasesStep(resolve: Resolver, ks: seq<Statement>, n: nat, st: State)
    requires n < |ks| && AliasesHold(ks, n, st)
    ensures AliasesHold(ks, n + 1, Step(resolve, st, ks[n]))
  {
  }

  /** Line `n` adds to the imports exactly when it is a first use. */
  lemma FirstUseTest(ks: seq<Statement>, n: nat, st: State, alias: string)
    requires n < |ks| && ks[n].RpcLine? && alias == AliasOf(ks[n].request)
    requires st.inService <==> OpenAt(ks, n)
    requires AliasesHold(ks, n, st)
    requires forall a :: a in st.alreadyImports <==> UsedBefore(ks, n, a)
    ensures IsUse(ks, n) <==> st.inService && '.' in ks[n].request && alias in st.allImports
    ensures IsFirstUse(ks, n) <==> IsUse(ks, n) && alias !in st.alreadyImports
    ensures IsUse(ks, n) ==> Declared(ks, n, alias) == Some(st.allImports[alias])
  {
  }

  /** A line that is not a use changes neither side. */
  lemma ImportsIdle(resolve: Resolver, ks: seq<Statement>, n: nat, st: State, after: State)
    requires n < |ks| && ImportsHold(resolve, ks, n, st)
    requires !IsUse(ks, n)
    requires after.alreadyImports == st.alreadyImports && after.imports == st.imports
    ensures ImportsHold(resolve, ks, n + 1, after)
  {
    forall a
      ensures UsedBefore(ks, n + 1, a) <==> UsedBefore(ks, n, a)
    {
      UsedStep(ks, n, a);
    }
    assert FirstUsePaths(ks, n + 1) == FirstUsePaths(ks, n);
  }

  lemma UsesMarked(ks: seq<Statement>, n: nat, marked: set<string>, alias: string)
    requires n < |ks| && UsesAlias(ks, n, alias)
    requires forall a :: a in marked <==> UsedBefore(ks, n, a)
    ensures forall a :: a in marked + {alias} <==> UsedBefore(ks, n + 1, a)
  {
    forall a
      ensures UsedBefore(ks, n + 1, a) <==> UsedBefore(ks, n, a) || a == alias
    {
      UsedStep(ks, n, a);
    }
  }

  lemma FirstUseAdds(ks: seq<Statement>, n: nat, alias: string)
    requires n < |ks| && UsesAlias(ks, n, alias)
    ensures FirstUsePaths(ks, n + 1)
         == if UsedBefore(ks, n, alias) then FirstUsePaths(ks, n)
            else FirstUsePaths(ks, n) + [Declared(ks, n, alias).value]
  {
  }

  /** A use marks its alias, and adds the import when it is the first. */
  lemma ImportsUse(resolve: Resolver, ks: seq<Statement>, n: nat, st: State, after: State, alias: string)
    requires n < |ks| && ImportsHold(resolve, ks, n, st)
    requires UsesAlias(ks, n, alias)
    requires after.alreadyImports == st.alreadyImports + {alias}
    requires after.imports == if UsedBefore(ks, n, alias) then st.imports
                              else Resolved(resolve, FirstUsePaths(ks, n) + [Declared(ks, n, alias).value])
    ensures ImportsHold(resolve, ks, n + 1, after)
  {
    UsesMarked(ks, n, st.alreadyImports, alias);
    FirstUseAdds(ks, n, alias);
  }

  lemma ImportsStep(resolve: Resolver, ks: seq<Statement>, n: nat, st: State)
    requires n < |ks| && IsClosedForm(resolve, ks, n, st)
    ensures ImportsHold(resolve, ks, n + 1, Step(resolve, st, ks[n]))
  {
    var after := Step(resolve, st, ks[n]);
    if ks[n].RpcLine? {
      var alias := AliasOf(ks[n].request);
      FirstUseTest(ks, n, st, alias);
      if IsUse(ks, n) {
        if IsFirstUse(ks, n) {
          ResolvedSnoc(resolve, FirstUsePaths(ks, n), st.allImports[alias]);
        }
        ImportsUse(resolve, ks, n, st, after, alias);
      } else {
        ImportsIdle(resolve, ks, n, st, after);
      }
    } else {
      ImportsIdle(resolve, ks, n, st, after);
    }
  }

  lemma {:induction false} ClosedForm(resolve: Resolver, ks: seq<Statement>, n: nat)
    requires n <= |ks|
    ensures IsClosedForm(resolve, ks, n, Run(resolve, INITIAL, ks[..n]))
  {
    if n > 0 {
      ClosedForm(resolve, ks, n - 1);
      var st := Run(resolve, INITIAL, ks[..n - 1]);
      ScopeStep(resolve, ks, n - 1, st);
      AliasesStep(resolve, ks, n - 1, st);
      ImportsStep(resolve, ks, n - 1, st);
      assert ks[..n][..n - 1] == ks[..n - 1];
    }
  }

  /** The same for a whole file. */
  lemma FinalState(resolve: Resolver, ks: seq<Statement>)
    ensures IsClosedForm(resolve, ks, |ks|, Run(resolve, INITIAL, ks))
  {
    ClosedForm(resolve, ks, |ks|);
    assert ks[..|ks|] == ks;
  }

  /** The service a sequence of statements describes: the nearest service and go_package above the end,
      the methods of the open services in order, and the resolved first uses of the imports. */
  ghost predicate Describes(resolve: Resolver, path: Path, ks: seq<Statement>, s: Service) {
    && s.filePath == Dir(path)
    && s.fileName == Stem(LastName(path))
    && s.serviceName == NearestService(ks, |ks|) != ""
    && NearestGoPackage(ks, |ks|) != ""
    && s.goPackage == LastPiece(NearestGoPackage(ks, |ks|), '/')
    && s.methods == MethodsBefore(ks, |ks|)
    && s.imports == Resolved(resolve, FirstUsePaths(ks, |ks|))
  }

  lemma OutcomeClosedForm(resolve: Resolver, path: Path, ks: seq<Statement>)
    ensures var r := Outcome(path, Run(resolve, INITIAL, ks));
            && (r.Ok? <==> NearestService(ks, |ks|) != "" && NearestGoPackage(ks, |ks|) != "")
            && (r == Err(NoServiceName) <==> NearestService(ks, |ks|) == "")
            && (r == Err(NoGoPackage) <==> NearestService(ks, |ks|) != "" && NearestGoPackage(ks, |ks|) == "")
            && (r.Ok? ==> Describes(resolve, path, ks, r.value))
  {
    FinalState(resolve, ks);
  }

  /** A parsed service is in closed form. */
  lemma ParseClosedForm(files: Files, root: Path, path: Path)
    requires Parse(files, root, path).Ok?
    ensures Describes(FileResolver(files, root), path, Statements(Lines(files[path])), Parse(files, root, path).value)
  {
    OutcomeClosedForm(FileResolver(files, root), path, Statements(Lines(files[path])));
  }
}
