/** What the parser promises over whole files. */
module ParserLaws {
  import opened Text
  import Patterns
  import opened ProtoLines
  import opened CamelCase
  import opened Paths
  import opened ProtoParser

  // ---------- which lines become methods ----------

  /** The lines before `n` that declare a method, in order. */
  ghost function MethodSites(ks: seq<Statement>, n: nat): (r: seq<nat>)
    requires n <= |ks|
    ensures forall k :: 0 <= k < |r| ==> r[k] < n && ks[r[k]].RpcLine?
  {
    if n == 0 then [] else MethodSites(ks, n - 1) + if IsMethodAt(ks, n - 1) then [n - 1] else []
  }

  /** The sites are exactly the rpc lines of an open service, each once. */
  lemma {:induction false} SitesExact(ks: seq<Statement>, n: nat)
    requires n <= |ks|
    ensures forall j, k :: 0 <= j < k < |MethodSites(ks, n)| ==> MethodSites(ks, n)[j] < MethodSites(ks, n)[k]
    ensures forall i: nat :: i in MethodSites(ks, n) <==> i < n && IsMethodAt(ks, i)
  {
    if n > 0 {
      SitesExact(ks, n - 1);
    }
  }

  /** Each method is the one its line declares. */
  ghost predicate Paired(ks: seq<Statement>, sites: seq<nat>, methods: seq<ServiceMethod>) {
    && |methods| == |sites|
    && forall k :: 0 <= k < |sites| ==>
         sites[k] < |ks| && ks[sites[k]].RpcLine? && methods[k] == MethodAt(ks, sites[k])
  }

  lemma PairedSnoc(ks: seq<Statement>, sites: seq<nat>, methods: seq<ServiceMethod>, i: nat, m: ServiceMethod)
    requires Paired(ks, sites, methods)
    requires i < |ks| && ks[i].RpcLine? && MethodAt(ks, i) == m
    ensures Paired(ks, sites + [i], methods + [m])
  {
  }

  lemma {:induction false} SitesPaired(ks: seq<Statement>, n: nat)
    requires n <= |ks|
    ensures Paired(ks, MethodSites(ks, n), MethodsBefore(ks, n))
  {
    if n > 0 {
      SitesPaired(ks, n - 1);
      if IsMethodAt(ks, n - 1) {
        PairedSnoc(ks, MethodSites(ks, n - 1), MethodsBefore(ks, n - 1), n - 1, MethodAt(ks, n - 1));
      }
    }
  }

  lemma MethodPerSite(ks: seq<Statement>)
    ensures |MethodsBefore(ks, |ks|)| == |MethodSites(ks, |ks|)|
  {
    SitesPaired(ks, |ks|);
  }

  /** The method list is the image, in order, of the sites. */
  lemma MethodAtSite(ks: seq<Statement>, k: nat)
    requires k < |MethodSites(ks, |ks|)|
    ensures |MethodsBefore(ks, |ks|)| == |MethodSites(ks, |ks|)|
    ensures MethodsBefore(ks, |ks|)[k] == MethodAt(ks, MethodSites(ks, |ks|)[k])
  {
    SitesPaired(ks, |ks|);
  }

  /** The nearest service name is that of the last service line above; without one it is empty. */
  lemma {:induction false} NearestServiceIs(ks: seq<Statement>, n: nat, i: nat)
    requires n <= |ks|
    ensures i < n && ks[i].ServiceLine? && (forall k :: i < k < n ==> !ks[k].ServiceLine?) ==>
              NearestService(ks, n) == ks[i].name
    ensures (forall k :: 0 <= k < n ==> !ks[k].ServiceLine?) ==> NearestService(ks, n) == ""
    decreases n
  {
    if n > 0 {
      NearestServiceIs(ks, n - 1, i);
    }
  }

  /** In every run, over any number of services, a method carries the camel-cased name of the nearest
      service line above it, while the file's service name is that of its last service line. */
  lemma MethodHistory(resolve: Resolver, path: Path, lines: seq<string>, k: nat)
    requires ParseLines(resolve, path, lines).Ok?
    requires k < |ParseLines(resolve, path, lines).value.methods|
    ensures var s, ks := ParseLines(resolve, path, lines).value, Statements(lines);
            && |s.methods| == |MethodSites(ks, |ks|)|
            && s.serviceName == NearestService(ks, |ks|)
            && var i := MethodSites(ks, |ks|)[k];
               && IsMethodAt(ks, i)
               && IsCallerFor(s.methods[k], NearestService(ks, i), ks[i].name, ks[i].request, ks[i].response)
  {
    var ks := Statements(lines);
    OutcomeClosedForm(resolve, path, ks);
    MethodPerSite(ks);
    SiteCaller(ks, k);
    SitesExact(ks, |ks|);
    assert MethodSites(ks, |ks|)[k] in MethodSites(ks, |ks|);
  }

  lemma SiteCaller(ks: seq<Statement>, k: nat)
    requires k < |MethodSites(ks, |ks|)|
    ensures |MethodsBefore(ks, |ks|)| == |MethodSites(ks, |ks|)|
    ensures var i := MethodSites(ks, |ks|)[k];
            IsCallerFor(MethodsBefore(ks, |ks|)[k], NearestService(ks, i), ks[i].name, ks[i].request, ks[i].response)
  {
    MethodAtSite(ks, k);
  }

  // ---------- imports ----------

  /** An alias stands for the path of the line that declares it... */
  lemma DeclaredHere(ks: seq<Statement>, n: nat, alias: string)
    requires n < |ks| && Declares(ks[n], alias)
    ensures Declared(ks, n + 1, alias) == Some(ks[n].path)
  {
  }

  /** ...until another line does. */
  lemma {:induction false} DeclaredStays(ks: seq<Statement>, m: nat, n: nat, alias: string)
    requires m <= n <= |ks| && forall k :: m <= k < n ==> !Declares(ks[k], alias)
    ensures Declared(ks, n, alias) == Declared(ks, m, alias)
    decreases n
  {
    if m < n {
      DeclaredStays(ks, m, n - 1, alias);
    }
  }

  /** Without such a line it stands for nothing. */
  lemma DeclaredNone(ks: seq<Statement>, n: nat, alias: string)
    requires n <= |ks| && forall k :: 0 <= k < n ==> !Declares(ks[k], alias)
    ensures Declared(ks, n, alias) == None
  {
    DeclaredStays(ks, 0, n, alias);
  }

  ghost function FirstUseAliases(ks: seq<Statement>, n: nat): seq<string>
    requires n <= |ks|
  {
    if n == 0 then []
    else FirstUseAliases(ks, n - 1) + if IsFirstUse(ks, n - 1) then [AliasOf(ks[n - 1].request)] else []
  }

  lemma {:induction false} FirstUseAliasesAreUsed(ks: seq<Statement>, n: nat, alias: string)
    requires n <= |ks|
    ensures alias in FirstUseAliases(ks, n) <==> UsedBefore(ks, n, alias)
  {
    if n > 0 {
      FirstUseAliasesAreUsed(ks, n - 1, alias);
      UsedStep(ks, n - 1, alias);
      assert UsesAlias(ks, n - 1, alias) && !UsedBefore(ks, n - 1, alias) ==> IsFirstUse(ks, n - 1);
    }
  }

  /** The lines before `n` that use an alias first, in order. */
  ghost function FirstUses(ks: seq<Statement>, n: nat): (r: seq<nat>)
    requires n <= |ks|
    ensures forall k :: 0 <= k < |r| ==> r[k] < n
  {
    if n == 0 then [] else FirstUses(ks, n - 1) + if IsFirstUse(ks, n - 1) then [n - 1] else []
  }

  /** The first uses are listed each once and in order. */
  lemma {:induction false} FirstUsesExact(ks: seq<Statement>, n: nat)
    requires n <= |ks|
    ensures forall j, k :: 0 <= j < k < |FirstUses(ks, n)| ==> FirstUses(ks, n)[j] < FirstUses(ks, n)[k]
    ensures forall i: nat :: i in FirstUses(ks, n) <==> i < n && IsFirstUse(ks, i)
  {
    if n > 0 {
      FirstUsesExact(ks, n - 1);
    }
  }

  /** Line `i` uses `alias`, and the nearest import line above it that declares the alias names `path`. */
  ghost predicate UsesPath(ks: seq<Statement>, i: nat, alias: string, path: string) {
    i < |ks| && ks[i].RpcLine? && AliasOf(ks[i].request) == alias && Declared(ks, i, alias) == Some(path)
  }

  ghost predicate AllUsePaths(ks: seq<Statement>, uses: seq<nat>, aliases: seq<string>, paths: seq<string>) {
    && |aliases| == |uses| && |paths| == |uses|
    && forall k :: 0 <= k < |uses| ==> UsesPath(ks, uses[k], aliases[k], paths[k])
  }

  lemma AllUsePathsSnoc(
      ks: seq<Statement>, uses: seq<nat>, aliases: seq<string>, paths: seq<string>, i: nat, alias: string, path: string)
    requires AllUsePaths(ks, uses, aliases, paths) && UsesPath(ks, i, alias, path)
    ensures AllUsePaths(ks, uses + [i], aliases + [alias], paths + [path])
  {
  }

  lemma {:induction false} FirstUsesDeclared(ks: seq<Statement>, n: nat)
    requires n <= |ks|
    ensures AllUsePaths(ks, FirstUses(ks, n), FirstUseAliases(ks, n), FirstUsePaths(ks, n))
  {
    if n > 0 {
      FirstUsesDeclared(ks, n - 1);
      if IsFirstUse(ks, n - 1) {
        var alias := AliasOf(ks[n - 1].request);
        AllUsePathsSnoc(ks, FirstUses(ks, n - 1), FirstUseAliases(ks, n - 1), FirstUsePaths(ks, n - 1),
                        n - 1, alias, Declared(ks, n - 1, alias).value);
      } else {
        assert FirstUses(ks, n) == FirstUses(ks, n - 1);
        assert FirstUseAliases(ks, n) == FirstUseAliases(ks, n - 1) && FirstUsePaths(ks, n) == FirstUsePaths(ks, n - 1);
      }
    }
  }

  lemma {:induction false} FirstUsesPaired(ks: seq<Statement>, n: nat)
    requires n <= |ks|
    ensures |FirstUseAliases(ks, n)| == |FirstUsePaths(ks, n)|
    ensures forall j, k :: 0 <= j < k < |FirstUseAliases(ks, n)| ==> FirstUseAliases(ks, n)[j] != FirstUseAliases(ks, n)[k]
  {
    if n > 0 {
      FirstUsesPaired(ks, n - 1);
      if IsFirstUse(ks, n - 1) {
        FirstUseAliasesAreUsed(ks, n - 1, AliasOf(ks[n - 1].request));
      }
    }
  }

  /** Each used alias is imported for once: the aliases behind the import list are pairwise distinct
      and are exactly the used ones, and each path is what its alias names where it is first used, in the
      order of the first uses. */
  lemma ImportedOnce(ks: seq<Statement>, n: nat)
    requires n <= |ks|
    ensures |FirstUseAliases(ks, n)| == |FirstUsePaths(ks, n)|
    ensures forall a :: a in FirstUseAliases(ks, n) <==> UsedBefore(ks, n, a)
    ensures forall j, k :: 0 <= j < k < |FirstUseAliases(ks, n)| ==> FirstUseAliases(ks, n)[j] != FirstUseAliases(ks, n)[k]
    ensures AllUsePaths(ks, FirstUses(ks, n), FirstUseAliases(ks, n), FirstUsePaths(ks, n))
  {
    FirstUsesPaired(ks, n);
    FirstUsesDeclared(ks, n);
    forall a
      ensures a in FirstUseAliases(ks, n) <==> UsedBefore(ks, n, a)
    {
      FirstUseAliasesAreUsed(ks, n, a);
    }
  }

  /** The alias of a qualified type is what stands before its first dot. */
  lemma AliasOfQualified(alias: string, name: string)
    requires '.' !in alias
    ensures AliasOf(alias + "." + name) == alias
  {
    SplitAtFirst(alias, '.', name);
  }

  lemma ResolvedOne(resolve: Resolver, path: string)
    ensures Resolved(resolve, [path]) == match resolve(path) case Ok(value) => [value] case Err(_) => []
  {
    assert [path][..0] == [];
  }

  /** The import list is the go_packages of the imported files that have one, in order: resolving a longer
      list of paths is resolving its parts. */
  lemma {:induction false} ResolvedAppend(resolve: Resolver, a: seq<string>, b: seq<string>)
    ensures Resolved(resolve, a + b) == Resolved(resolve, a) + Resolved(resolve, b)
    ensures |b| == 1 ==> Resolved(resolve, b) == match resolve(b[0]) case Ok(value) => [value] case Err(_) => []
    decreases |b|
  {
    if b == [] {
      assert a + b == a;
    } else {
      var n := |b| - 1;
      assert (a + b)[..|a + b| - 1] == a + b[..n];
      ResolvedAppend(resolve, a, b[..n]);
      if n == 0 {
        ResolvedOne(resolve, b[0]);
        assert b == [b[0]];
      }
    }
  }

  // ---------- when parsing succeeds ----------

  ghost predicate AllWellFormed(ks: seq<Statement>) {
    forall k :: 0 <= k < |ks| ==> WellFormed(ks[k])
  }

  lemma LinesWellFormed(lines: seq<string>)
    requires NoNewlines(lines)
    ensures AllWellFormed(Statements(lines))
  {
    forall k | 0 <= k < |lines|
      ensures WellFormed(Statements(lines)[k])
    {
      StatementAt(lines, k);
      ClassifyWellFormed(lines[k]);
    }
  }

  lemma LinesNoNewlines(text: string)
    ensures NoNewlines(Lines(text))
  {
    forall k | 0 <= k < |Lines(text)|
      ensures '\n' !in Lines(text)[k]
    {
      LineHasNoNewline(text, k);
    }
  }

  lemma {:induction false} NearestServiceFound(ks: seq<Statement>, n: nat)
    requires n <= |ks| && AllWellFormed(ks)
    ensures NearestService(ks, n) != "" <==> exists k :: 0 <= k < n && ks[k].ServiceLine?
    ensures NearestService(ks, n) != "" ==> IsIdent(NearestService(ks, n))
  {
    if n > 0 {
      NearestServiceFound(ks, n - 1);
      assert WellFormed(ks[n - 1]);
    }
  }

  /** The last go_package line decides. */
  lemma {:induction false} NearestGoPackageFound(ks: seq<Statement>, n: nat)
    requires n <= |ks| && AllWellFormed(ks)
    ensures NearestGoPackage(ks, n) != "" <==> exists k :: 0 <= k < n && ks[k].GoPackageLine?
    ensures NearestGoPackage(ks, n) != "" ==> GoPackageLine(NearestGoPackage(ks, n)) in ks
  {
    if n > 0 {
      NearestGoPackageFound(ks, n - 1);
      assert WellFormed(ks[n - 1]);
    }
  }

  /** Some line writes a service declaration. */
  ghost predicate HasServiceLine(lines: seq<string>) {
    exists k, name :: 0 <= k < |lines| && Writes(lines[k], ServiceLine(name))
  }

  /** Some line writes a go_package declaration. */
  ghost predicate HasGoPackageLine(lines: seq<string>) {
    exists k, value :: 0 <= k < |lines| && Writes(lines[k], GoPackageLine(value))
  }

  lemma ServiceLineWritten(lines: seq<string>, k: nat)
    requires k < |lines|
    ensures Statements(lines)[k].ServiceLine? <==> exists name :: Writes(lines[k], ServiceLine(name))
  {
    StatementAt(lines, k);
    var s := Statements(lines)[k];
    if s.ServiceLine? {
      ClassifyDecides(lines[k], s);
      assert Writes(lines[k], ServiceLine(s.name));
    }
    if name :| Writes(lines[k], ServiceLine(name)) {
      ClassifyDecides(lines[k], ServiceLine(name));
    }
  }

  lemma GoPackageLineWritten(lines: seq<string>, k: nat)
    requires k < |lines|
    ensures Statements(lines)[k].GoPackageLine? <==> exists value :: Writes(lines[k], GoPackageLine(value))
  {
    StatementAt(lines, k);
    var s := Statements(lines)[k];
    if s.GoPackageLine? {
      ClassifyDecides(lines[k], s);
      assert Writes(lines[k], GoPackageLine(s.value));
    }
    if value :| Writes(lines[k], GoPackageLine(value)) {
      ClassifyDecides(lines[k], GoPackageLine(value));
    }
  }

  lemma ServiceLineCounts(lines: seq<string>)
    requires AllWellFormed(Statements(lines))
    ensures var ks := Statements(lines); NearestService(ks, |ks|) != "" <==> HasServiceLine(lines)
  {
    var ks := Statements(lines);
    NearestServiceFound(ks, |ks|);
    forall k: nat | k < |lines|
      ensures ks[k].ServiceLine? <==> exists name :: Writes(lines[k], ServiceLine(name))
    {
      ServiceLineWritten(lines, k);
    }
  }

  lemma GoPackageLineCounts(lines: seq<string>)
    requires AllWellFormed(Statements(lines))
    ensures var ks := Statements(lines); NearestGoPackage(ks, |ks|) != "" <==> HasGoPackageLine(lines)
  {
    var ks := Statements(lines);
    NearestGoPackageFound(ks, |ks|);
    forall k: nat | k < |lines|
      ensures ks[k].GoPackageLine? <==> exists value :: Writes(lines[k], GoPackageLine(value))
    {
      GoPackageLineWritten(lines, k);
    }
  }

  /** Parsing succeeds exactly when the file can be read, some line matches the service pattern and
      some line matches the go_package pattern; otherwise the first missing one is reported. */
  lemma ParseSucceeds(files: Files, root: Path, path: Path)
    ensures path !in files ==> Parse(files, root, path) == Err(OpenFailed)
    ensures path in files ==>
              var r, lines := Parse(files, root, path), Lines(files[path]);
              && (r.Ok? <==> HasServiceLine(lines) && HasGoPackageLine(lines))
              && (r == Err(NoServiceName) <==> !HasServiceLine(lines))
              && (r == Err(NoGoPackage) <==> HasServiceLine(lines) && !HasGoPackageLine(lines))
  {
    if path in files {
      var lines := Lines(files[path]);
      ParsedLinesWellFormed(files, path);
      ServiceLineCounts(lines);
      GoPackageLineCounts(lines);
      OutcomeClosedForm(FileResolver(files, root), path, Statements(lines));
    }
  }

  // ---------- the two readers of go_package ----------

  lemma {:induction false} FirstGoPackageFound(ks: seq<Statement>)
    ensures FirstGoPackage(ks).None? <==> forall k :: 0 <= k < |ks| ==> !ks[k].GoPackageLine?
    ensures FirstGoPackage(ks).Some? ==> GoPackageLine(FirstGoPackage(ks).value) in ks
  {
    if ks != [] {
      FirstGoPackageFound(ks[1..]);
      assert forall k :: 0 < k < |ks| ==> ks[k] == ks[1..][k - 1];
      if ks[0].GoPackageLine? {
        assert ks[0] in ks;
      }
    }
  }

  lemma ParsedLinesWellFormed(files: Files, path: Path)
    requires path in files
    ensures AllWellFormed(Statements(Lines(files[path])))
  {
    LinesNoNewlines(files[path]);
    LinesWellFormed(Lines(files[path]));
  }

  lemma ParsedGoPackage(files: Files, root: Path, path: Path)
    requires Parse(files, root, path).Ok?
    ensures path in files
    ensures var ks := Statements(Lines(files[path]));
            && NearestGoPackage(ks, |ks|) != ""
            && Parse(files, root, path).value.goPackage == LastPiece(NearestGoPackage(ks, |ks|), '/')
  {
    ParseClosedForm(files, root, path);
  }

  lemma GoPackageInIs(files: Files, path: Path, value: string)
    requires path in files && FirstGoPackage(Statements(Lines(files[path]))) == Some(value)
    ensures GoPackageIn(files, path) == Ok(value)
  {
  }

  /** Importers of a file are given its first go_package value, the generated file takes the last segment
      of the last one; so the two agree exactly when the first and the last value end in the same segment. */
  lemma GoPackageReadersAgree(files: Files, root: Path, path: Path) returns (i: nat, j: nat)
    requires Parse(files, root, path).Ok?
    ensures var ks, goPackage := Statements(Lines(files[path])), Parse(files, root, path).value.goPackage;
            && IsFirstGoPackage(ks, i) && IsLastGoPackage(ks, j)
            && GoPackageIn(files, path) == Ok(ks[i].value)
            && goPackage == LastPiece(ks[j].value, '/')
            && (goPackage == LastPiece(GoPackageIn(files, path).value, '/')
                <==> LastPiece(ks[i].value, '/') == LastPiece(ks[j].value, '/'))
  {
    var ks := Statements(Lines(files[path]));
    ParsedGoPackage(files, root, path);
    ParsedLinesWellFormed(files, path);
    NearestGoPackageFound(ks, |ks|);
    i := FirstGoPackageAt(ks);
    j := LastGoPackageAt(ks, |ks|);
    LastGoPackageWins(ks, |ks|, j);
    FirstGoPackageWins(ks, i);
    GoPackageInIs(files, path, ks[i].value);
  }

  ghost predicate HasFirstGoPackage(ks: seq<Statement>, value: string) {
    exists i: nat :: IsFirstGoPackage(ks, i) && ks[i].value == value
  }

  lemma FirstGoPackageExact(ks: seq<Statement>, value: string)
    ensures FirstGoPackage(ks) == Some(value) <==> HasFirstGoPackage(ks, value)
  {
    if FirstGoPackage(ks).Some? {
      FirstGoPackageFound(ks);
      var i := FirstGoPackageAt(ks);
      FirstGoPackageWins(ks, i);
    }
    if i: nat :| IsFirstGoPackage(ks, i) && ks[i].value == value {
      FirstGoPackageWins(ks, i);
    }
  }

  lemma GoPackageInExact(files: Files, q: Path, value: string, ks: seq<Statement>)
    requires q in files && ks == Statements(Lines(files[q]))
    ensures GoPackageIn(files, q) == Ok(value) <==> FirstGoPackage(ks) == Some(value)
  {
  }

  /** What an import path resolves to: the value of the first go_package line of the file it names below
      the root. */
  lemma ResolverMeaning(files: Files, root: Path, path: string, value: string)
    ensures FileResolver(files, root)(path) == Ok(value)
       <==> var q := JoinPath(root, path); q in files && HasFirstGoPackage(Statements(Lines(files[q])), value)
  {
    var q := JoinPath(root, path);
    if q in files {
      GoPackageInExact(files, q, value, Statements(Lines(files[q])));
      FirstGoPackageExact(Statements(Lines(files[q])), value);
    }
  }

  /** The package of the generated file is what follows the last slash of the last go_package value, or all of it. */
  lemma GoPackageSegment(files: Files, root: Path, path: Path) returns (j: nat, before: string)
    requires Parse(files, root, path).Ok?
    ensures var ks, goPackage := Statements(Lines(files[path])), Parse(files, root, path).value.goPackage;
            && IsLastGoPackage(ks, j)
            && '/' !in goPackage
            && (ks[j].value == goPackage || ks[j].value == before + "/" + goPackage)
  {
    var i;
    i, j := GoPackageReadersAgree(files, root, path);
    before := LastPieceExact(Statements(Lines(files[path]))[j].value, '/');
  }

  ghost predicate OneGoPackage(ks: seq<Statement>) {
    forall x, y :: GoPackageLine(x) in ks && GoPackageLine(y) in ks ==> x == y
  }

  /** They do when all go_package lines hold the same value (one line, for instance). */
  lemma OneGoPackageAgrees(files: Files, root: Path, path: Path)
    requires Parse(files, root, path).Ok?
    requires OneGoPackage(Statements(Lines(files[path])))
    ensures GoPackageIn(files, path).Ok?
    ensures Parse(files, root, path).value.goPackage == LastPiece(GoPackageIn(files, path).value, '/')
  {
    var ks := Statements(Lines(files[path]));
    var i, j := GoPackageReadersAgree(files, root, path);
    assert ks[i] in ks && ks[i] == GoPackageLine(ks[i].value);
    assert ks[j] in ks && ks[j] == GoPackageLine(ks[j].value);
  }

  lemma {:induction false} FirstGoPackageAt(ks: seq<Statement>) returns (i: nat)
    requires exists k :: 0 <= k < |ks| && ks[k].GoPackageLine?
    ensures IsFirstGoPackage(ks, i)
    decreases |ks|
  {
    if k :| 0 <= k < |ks| - 1 && ks[k].GoPackageLine? {
      var before := ks[..|ks| - 1];
      assert before[k] == ks[k];
      i := FirstGoPackageAt(before);
      assert forall k :: 0 <= k < i ==> ks[k] == before[k];
    } else {
      i := |ks| - 1;
    }
  }

  lemma {:induction false} LastGoPackageAt(ks: seq<Statement>, n: nat) returns (j: nat)
    requires n <= |ks|
    requires exists k :: 0 <= k < n && ks[k].GoPackageLine?
    requires forall k :: n <= k < |ks| ==> !ks[k].GoPackageLine?
    ensures IsLastGoPackage(ks, j)
    decreases n
  {
    if ks[n - 1].GoPackageLine? {
      j := n - 1;
    } else {
      j := LastGoPackageAt(ks, n - 1);
    }
  }

  lemma {:induction false} LastGoPackageWins(ks: seq<Statement>, n: nat, j: nat)
    requires j < n <= |ks| && IsLastGoPackage(ks, j)
    ensures NearestGoPackage(ks, n) == ks[j].value
  {
    if j < n - 1 {
      LastGoPackageWins(ks, n - 1, j);
    }
  }

  lemma {:induction false} FirstGoPackageWins(ks: seq<Statement>, i: nat)
    requires IsFirstGoPackage(ks, i)
    ensures FirstGoPackage(ks) == Some(ks[i].value)
  {
    if i > 0 {
      assert IsFirstGoPackage(ks[1..], i - 1);
      FirstGoPackageWins(ks[1..], i - 1);
    }
  }

  ghost predicate IsFirstGoPackage(ks: seq<Statement>, i: nat) {
    i < |ks| && ks[i].GoPackageLine? && forall k :: 0 <= k < i ==> !ks[k].GoPackageLine?
  }

  ghost predicate IsLastGoPackage(ks: seq<Statement>, j: nat) {
    j < |ks| && ks[j].GoPackageLine? && forall k :: j < k < |ks| ==> !ks[k].GoPackageLine?
  }

  // ---------- noise ----------

  lemma {:induction false} StatementsAppend(a: seq<string>, b: seq<string>)
    ensures Statements(a + b) == Statements(a) + Statements(b)
    decreases |b|
  {
    if b == [] {
      assert a + b == a;
    } else {
      var n := |b| - 1;
      assert (a + b)[..|a + b| - 1] == a + b[..n];
      StatementsAppend(a, b[..n]);
    }
  }

  /** A line that matches no pattern and has no `}`, or stands outside a service. */
  ghost predicate IsNoise(line: string, above: seq<Statement>) {
    MatchesNone(line) && ('}' !in line || !OpenAt(above, |above|))
  }

  lemma NoiseIdle(resolve: Resolver, above: seq<string>, noise: string)
    requires IsNoise(noise, Statements(above))
    ensures var st := Run(resolve, INITIAL, Statements(above)); Step(resolve, st, Classify(noise)) == st
  {
    NoiseKind(noise);
    FinalState(resolve, Statements(above));
  }

  lemma NoiseKind(noise: string)
    requires MatchesNone(noise)
    ensures Classify(noise) == if '}' in noise then Close else Other
  {
    ClassifyRest(noise);
  }

  /** `lines` is `kept` with any number of noise lines put in anywhere. */
  ghost predicate AddsNoise(lines: seq<string>, kept: seq<string>) {
    if lines == [] then kept == []
    else
      var n := |lines| - 1;
      || (IsNoise(lines[n], Statements(lines[..n])) && AddsNoise(lines[..n], kept))
      || (kept != [] && lines[n] == kept[|kept| - 1] && AddsNoise(lines[..n], kept[..|kept| - 1]))
  }

  lemma NoiseLast(resolve: Resolver, lines: seq<string>, noise: string)
    requires IsNoise(noise, Statements(lines))
    ensures Run(resolve, INITIAL, Statements(lines + [noise])) == Run(resolve, INITIAL, Statements(lines))
  {
    RunSnoc(resolve, lines, noise);
    NoiseIdle(resolve, lines, noise);
  }

  lemma RunSnoc(resolve: Resolver, lines: seq<string>, line: string)
    ensures Run(resolve, INITIAL, Statements(lines + [line]))
         == Step(resolve, Run(resolve, INITIAL, Statements(lines)), Classify(line))
  {
    assert (lines + [line])[..|lines|] == lines;
    var ks := Statements(lines);
    assert (ks + [Classify(line)])[..|ks|] == ks;
  }

  lemma SameLast(resolve: Resolver, lines: seq<string>, kept: seq<string>, line: string)
    requires Run(resolve, INITIAL, Statements(lines)) == Run(resolve, INITIAL, Statements(kept))
    ensures Run(resolve, INITIAL, Statements(lines + [line])) == Run(resolve, INITIAL, Statements(kept + [line]))
  {
    RunSnoc(resolve, lines, line);
    RunSnoc(resolve, kept, line);
  }

  lemma {:induction false} AddedNoiseRuns(resolve: Resolver, lines: seq<string>, kept: seq<string>)
    requires AddsNoise(lines, kept)
    ensures Run(resolve, INITIAL, Statements(lines)) == Run(resolve, INITIAL, Statements(kept))
    decreases |lines|
  {
    if lines != [] {
      var n := |lines| - 1;
      assert lines[..n] + [lines[n]] == lines;
      if IsNoise(lines[n], Statements(lines[..n])) && AddsNoise(lines[..n], kept) {
        AddedNoiseRuns(resolve, lines[..n], kept);
        NoiseLast(resolve, lines[..n], lines[n]);
      } else {
        var m := |kept| - 1;
        assert kept[..m] + [kept[m]] == kept;
        AddedNoiseRuns(resolve, lines[..n], kept[..m]);
        SameLast(resolve, lines[..n], kept[..m], kept[m]);
      }
    }
  }

  /** Noise lines never change what a file parses to, however many there are and wherever they stand. */
  lemma NoiseInvariance(resolve: Resolver, path: Path, lines: seq<string>, kept: seq<string>)
    requires AddsNoise(lines, kept)
    ensures ParseLines(resolve, path, lines) == ParseLines(resolve, path, kept)
  {
    AddedNoiseRuns(resolve, lines, kept);
  }

  lemma {:induction false} AddsNothing(lines: seq<string>)
    ensures AddsNoise(lines, lines)
    decreases |lines|
  {
    if lines != [] {
      AddsNothing(lines[..|lines| - 1]);
    }
  }

  lemma AddsLast(a: seq<string>, noise: string, lines: seq<string>)
    requires IsNoise(noise, Statements(a)) && lines == a + [noise]
    ensures AddsNoise(lines, a)
  {
    AddsNothing(a);
    assert lines[..|a|] == a;
  }

  lemma KeepsLast(lines: seq<string>, kept: seq<string>)
    requires lines != [] && kept != [] && lines[|lines| - 1] == kept[|kept| - 1]
    requires AddsNoise(lines[..|lines| - 1], kept[..|kept| - 1])
    ensures AddsNoise(lines, kept)
  {
  }

  lemma DropLast(a: seq<string>, b: seq<string>)
    requires b != []
    ensures (a + b)[..|a + b| - 1] == a + b[..|b| - 1]
  {
  }

  lemma {:induction false} AddsOne(a: seq<string>, noise: string, b: seq<string>, lines: seq<string>, kept: seq<string>)
    requires IsNoise(noise, Statements(a))
    requires lines == a + [noise] + b && kept == a + b
    ensures AddsNoise(lines, kept)
    decreases |b|
  {
    if b == [] {
      AddsLast(a, noise, lines);
      assert kept == a;
    } else {
      DropLast(a + [noise], b);
      DropLast(a, b);
      AddsOne(a, noise, b[..|b| - 1], lines[..|lines| - 1], kept[..|kept| - 1]);
      KeepsLast(lines, kept);
    }
  }

  /** In particular one such line can be inserted. */
  lemma NoiseLine(resolve: Resolver, path: Path, a: seq<string>, noise: string, b: seq<string>)
    requires IsNoise(noise, Statements(a))
    ensures ParseLines(resolve, path, a + [noise] + b) == ParseLines(resolve, path, a + b)
  {
    AddsOne(a, noise, b, a + [noise] + b, a + b);
    NoiseInvariance(resolve, path, a + [noise] + b, a + b);
  }

  // ---------- headers ----------

  ghost predicate NoService(ks: seq<Statement>) {
    forall k :: 0 <= k < |ks| ==> !ks[k].ServiceLine?
  }

  /** Imports of one base name name one file, and there is one go_package value. */
  ghost predicate Consistent(ks: seq<Statement>) {
    && (forall p, q :: ImportLine(p) in ks && ImportLine(q) in ks && Stem(p) == Stem(q) ==> p == q)
    && (forall x, y :: GoPackageLine(x) in ks && GoPackageLine(y) in ks ==> x == y)
  }

  /** A declared path is that of an import line with the alias. */
  lemma {:induction false} DeclaredSound(ks: seq<Statement>, n: nat, alias: string)
    requires n <= |ks| && Declared(ks, n, alias).Some?
    ensures ImportLine(Declared(ks, n, alias).value) in ks && Stem(Declared(ks, n, alias).value) == alias
    decreases n
  {
    if Declares(ks[n - 1], alias) {
      assert ks[n - 1] == ImportLine(ks[n - 1].path) && ks[n - 1] in ks;
    } else {
      DeclaredSound(ks, n - 1, alias);
    }
  }

  lemma {:induction false} DeclaredKeeps(ks: seq<Statement>, m: nat, n: nat, alias: string)
    requires m <= n <= |ks| && Declared(ks, m, alias).Some?
    ensures Declared(ks, n, alias).Some?
    decreases n
  {
    if m < n {
      DeclaredKeeps(ks, m, n - 1, alias);
    }
  }

  lemma DeclaredComplete(ks: seq<Statement>, k: nat, alias: string)
    requires k < |ks| && Declares(ks[k], alias)
    ensures Declared(ks, |ks|, alias).Some?
  {
    DeclaredHere(ks, k, alias);
    DeclaredKeeps(ks, k + 1, |ks|, alias);
  }

  lemma {:induction false} NothingWithoutService(ks: seq<Statement>, n: nat)
    requires n <= |ks| && NoService(ks)
    ensures NearestService(ks, n) == "" && MethodsBefore(ks, n) == [] && FirstUsePaths(ks, n) == []
  {
    if n > 0 {
      NothingWithoutService(ks, n - 1);
    }
  }

  /** Before the first service line only the import and go_package lines count, as a set. */
  lemma HeaderState(resolve: Resolver, ks: seq<Statement>, other: seq<Statement>)
    requires NoService(ks) && NoService(other)
    requires AllWellFormed(ks) && AllWellFormed(other)
    requires Consistent(ks)
    requires forall k: Statement :: k.ImportLine? || k.GoPackageLine? ==> (k in ks <==> k in other)
    ensures Run(resolve, INITIAL, ks) == Run(resolve, INITIAL, other)
  {
    var st, st' := Run(resolve, INITIAL, ks), Run(resolve, INITIAL, other);
    FinalState(resolve, ks);
    FinalState(resolve, other);
    NothingWithoutService(ks, |ks|);
    NothingWithoutService(other, |other|);
    assert st.alreadyImports == {} == st'.alreadyImports;
    SameGoPackage(ks, other);
    forall a
      ensures Declared(ks, |ks|, a) == Declared(other, |other|, a)
    {
      SameDeclared(ks, other, a);
    }
    assert st.allImports == st'.allImports;
  }

  lemma SameGoPackage(ks: seq<Statement>, other: seq<Statement>)
    requires AllWellFormed(ks) && AllWellFormed(other) && Consistent(ks)
    requires forall k: Statement :: k.GoPackageLine? ==> (k in ks <==> k in other)
    ensures NearestGoPackage(ks, |ks|) == NearestGoPackage(other, |other|)
  {
    NearestGoPackageFound(ks, |ks|);
    NearestGoPackageFound(other, |other|);
    var x, y := NearestGoPackage(ks, |ks|), NearestGoPackage(other, |other|);
    if x != "" {
      assert GoPackageLine(x) in other;
    }
    if y != "" {
      assert GoPackageLine(y) in ks;
    }
  }

  lemma SameDeclared(ks: seq<Statement>, other: seq<Statement>, alias: string)
    requires Consistent(ks)
    requires forall k: Statement :: k.ImportLine? ==> (k in ks <==> k in other)
    ensures Declared(ks, |ks|, alias) == Declared(other, |other|, alias)
  {
    DeclaredTransfers(ks, other, alias);
    DeclaredTransfers(other, ks, alias);
    var x, y := Declared(ks, |ks|, alias), Declared(other, |other|, alias);
    if x.Some? {
      DeclaredSound(ks, |ks|, alias);
      DeclaredSound(other, |other|, alias);
      assert ImportLine(y.value) in ks;
    }
  }

  lemma DeclaredTransfers(ks: seq<Statement>, other: seq<Statement>, alias: string)
    requires forall k: Statement :: k.ImportLine? ==> (k in ks <==> k in other)
    ensures Declared(ks, |ks|, alias).Some? ==> Declared(other, |other|, alias).Some?
  {
    var x := Declared(ks, |ks|, alias);
    if x.Some? {
      DeclaredSound(ks, |ks|, alias);
      var line := ImportLine(x.value);
      assert line in other;
      var k :| 0 <= k < |other| && other[k] == line;
      DeclaredComplete(other, k, alias);
    }
  }

  /** The lines above the first service line can be permuted freely. */
  lemma HeaderCommutes(resolve: Resolver, path: Path, header: seq<string>, permuted: seq<string>, rest: seq<string>)
    requires NoNewlines(header)
    requires multiset(header) == multiset(permuted)
    requires NoService(Statements(header)) && Consistent(Statements(header))
    ensures ParseLines(resolve, path, header + rest) == ParseLines(resolve, path, permuted + rest)
  {
    var ks, other := Statements(header), Statements(permuted);
    SameLinesSameStatements(header, permuted);
    forall k | 0 <= k < |permuted|
      ensures '\n' !in permuted[k]
    {
      assert permuted[k] in multiset(header);
    }
    LinesWellFormed(header);
    LinesWellFormed(permuted);
    forall k | 0 <= k < |other|
      ensures !other[k].ServiceLine?
    {
      assert other[k] in other;
      assert other[k] in ks;
    }
    HeaderState(resolve, ks, other);
    StatementsAppend(header, rest);
    StatementsAppend(permuted, rest);
    RunAppend(resolve, INITIAL, ks, Statements(rest));
    RunAppend(resolve, INITIAL, other, Statements(rest));
  }

  lemma SameLinesSameStatements(a: seq<string>, b: seq<string>)
    requires multiset(a) == multiset(b)
    ensures forall k :: k in Statements(a) <==> k in Statements(b)
  {
    forall k
      ensures k in Statements(a) <==> k in Statements(b)
    {
      if k in Statements(a) {
        StatementCarriesOver(a, b, k);
      }
      if k in Statements(b) {
        StatementCarriesOver(b, a, k);
      }
    }
  }

  lemma StatementCarriesOver(a: seq<string>, b: seq<string>, k: Statement)
    requires multiset(a) == multiset(b) && k in Statements(a)
    ensures k in Statements(b)
  {
    var i :| 0 <= i < |a| && Statements(a)[i] == k;
    assert a[i] in multiset(b);
    var j :| 0 <= j < |b| && b[j] == a[i];
    StatementAt(a, i);
    StatementAt(b, j);
    assert Statements(b)[j] == k;
  }
}
