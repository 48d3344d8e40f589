/** The two-phase driver as a function of the files below the project root: parse every listed
    `.proto` file, then write one Go file for each parsed service that has methods. */
module Generator {
  import opened Text
  import opened ProtoLines
  import opened Paths
  import opened ProtoParser
  import opened ParserLaws
  import opened GoFile
  import opened ParsedServices

  const PROTO := ".proto"
  const CALLER_GO := "_caller.go"

  // ---------- the listing ----------

  predicate IsProtoFile(root: Path, p: Path) {
    |p| == |root| + 2 && p[..|root|] == root && HasSuffix(p[|root| + 1], PROTO)
  }

  /** The names of the directories directly below the root that hold some file. */
  function Directories(root: Path, paths: set<Path>): set<Name> {
    set p | p in paths && |p| >= |root| + 2 && p[..|root|] == root :: p[|root|]
  }

  function ProtoNames(root: Path, d: Name, paths: set<Path>): set<Name> {
    set p | p in paths && IsProtoFile(root, p) && p[|root|] == d :: p[|root| + 1]
  }

  function Under(dir: Path, names: seq<Name>): (r: seq<Path>)
    ensures |r| == |names| && forall k :: 0 <= k < |r| ==> r[k] == dir + [names[k]]
  {
    if names == [] then [] else [dir + [names[0]]] + Under(dir, names[1..])
  }

  /** filepath.Glob of `*.proto` in a directory below the root. */
  function Glob(root: Path, d: Name, paths: set<Path>): seq<Path> {
    Under(root + [d], Sorted(ProtoNames(root, d, paths)))
  }

  function GlobAll(root: Path, dirs: seq<Name>, paths: set<Path>): seq<Path> {
    if dirs == [] then []
    else GlobAll(root, dirs[..|dirs| - 1], paths) + Glob(root, dirs[|dirs| - 1], paths)
  }

  /** The parsed files in the order of the driver's nested loops. */
  function Inputs(root: Path, paths: set<Path>): seq<Path> {
    GlobAll(root, Sorted(Directories(root, paths)), paths)
  }

  lemma PathOfParts(root: Path, p: Path)
    requires IsProtoFile(root, p)
    ensures p == root + [p[|root|]] + [p[|root| + 1]]
  {
    assert p == p[..|root|] + [p[|root|], p[|root| + 1]];
  }

  lemma GlobListsProtos(root: Path, d: Name, paths: set<Path>, k: nat)
    requires k < |Glob(root, d, paths)|
    ensures var p := Glob(root, d, paths)[k]; p in paths && IsProtoFile(root, p) && p[|root|] == d
  {
    var names := ProtoNames(root, d, paths);
    SortedMeaning(names);
    var name := Sorted(names)[k];
    assert name in names;
    var q :| q in paths && IsProtoFile(root, q) && q[|root|] == d && q[|root| + 1] == name;
    PathOfParts(root, q);
  }

  lemma GlobMeaning(root: Path, d: Name, paths: set<Path>, p: Path)
    ensures p in Glob(root, d, paths) <==> p in paths && IsProtoFile(root, p) && p[|root|] == d
  {
    if p in Glob(root, d, paths) {
      var k :| 0 <= k < |Glob(root, d, paths)| && p == Glob(root, d, paths)[k];
      GlobListsProtos(root, d, paths, k);
    }
    if p in paths && IsProtoFile(root, p) && p[|root|] == d {
      GlobFinds(root, d, paths, p);
    }
  }

  lemma GlobFinds(root: Path, d: Name, paths: set<Path>, p: Path)
    requires p in paths && IsProtoFile(root, p) && p[|root|] == d
    ensures p in Glob(root, d, paths)
  {
    var names := ProtoNames(root, d, paths);
    SortedMeaning(names);
    PathOfParts(root, p);
    var name := p[|root| + 1];
    assert name in names;
    var k :| 0 <= k < |Sorted(names)| && Sorted(names)[k] == name;
    assert Glob(root, d, paths)[k] == p;
  }

  lemma {:induction false} GlobAllMeaning(root: Path, dirs: seq<Name>, paths: set<Path>, p: Path)
    ensures p in GlobAll(root, dirs, paths) <==> p in paths && IsProtoFile(root, p) && p[|root|] in dirs
    decreases |dirs|
  {
    if dirs != [] {
      var n := |dirs| - 1;
      GlobAllMeaning(root, dirs[..n], paths, p);
      GlobMeaning(root, dirs[n], paths, p);
      assert dirs == dirs[..n] + [dirs[n]];
    }
  }

  lemma InputsListed(root: Path, paths: set<Path>, p: Path)
    ensures p in Inputs(root, paths) <==> p in paths && IsProtoFile(root, p)
  {
    GlobAllMeaning(root, Sorted(Directories(root, paths)), paths, p);
    SortedMeaning(Directories(root, paths));
  }

  /** The listing holds exactly the `.proto` files two levels below the root. */
  lemma InputsMeaning(root: Path, paths: set<Path>, p: Path)
    ensures p in Inputs(root, paths)
       <==> && p in paths && |p| == |root| + 2 && p[..|root|] == root
            && exists stem :: p[|root| + 1] == stem + ".proto"
  {
    InputsListed(root, paths, p);
    if |p| == |root| + 2 {
      ProtoSuffix(p[|root| + 1]);
    }
  }

  lemma ProtoSuffix(name: string)
    ensures HasSuffix(name, PROTO) <==> exists stem :: name == stem + ".proto"
  {
    if HasSuffix(name, PROTO) {
      assert name == name[..|name| - |PROTO|] + ".proto";
    }
    if stem :| name == stem + ".proto" {
      assert name[|stem|..] == PROTO;
    }
  }

  // ---------- the order of the listing ----------

  /** At the first name where the paths differ, that of `p` comes before that of `q`. */
  ghost predicate PathBefore(p: Path, q: Path) {
    exists m: nat :: m < |p| && m < |q| && p[..m] == q[..m] && ComesBefore(p[m], q[m])
  }

  lemma NameBefore(dir: Path, m: Name, n: Name)
    requires Leq(m, n) && m != n
    ensures PathBefore(dir + [m], dir + [n])
  {
    LeqMeaning(m, n);
    var p, q := dir + [m], dir + [n];
    assert p[..|dir|] == q[..|dir|] && p[|dir|] == m && q[|dir|] == n;
  }

  ghost predicate PathsInOrder(paths: seq<Path>) {
    forall i, j :: 0 <= i < j < |paths| ==> PathBefore(paths[i], paths[j])
  }

  lemma AppendInOrder(a: seq<Path>, b: seq<Path>)
    requires PathsInOrder(a) && PathsInOrder(b)
    requires forall i, j :: 0 <= i < |a| && 0 <= j < |b| ==> PathBefore(a[i], b[j])
    ensures PathsInOrder(a + b)
  {
  }

  lemma GlobInOrder(root: Path, d: Name, paths: set<Path>)
    ensures PathsInOrder(Glob(root, d, paths))
  {
    var names := Sorted(ProtoNames(root, d, paths));
    SortedMeaning(ProtoNames(root, d, paths));
    forall i: nat, j: nat | i < j < |names|
      ensures PathBefore(Under(root + [d], names)[i], Under(root + [d], names)[j])
    {
      NameBefore(root + [d], names[i], names[j]);
    }
  }

  /** Files of an earlier directory come first. */
  lemma DirectoryBefore(root: Path, p: Path, q: Path)
    requires IsProtoFile(root, p) && IsProtoFile(root, q)
    requires Leq(p[|root|], q[|root|]) && p[|root|] != q[|root|]
    ensures PathBefore(p, q)
  {
    LeqMeaning(p[|root|], q[|root|]);
  }

  ghost predicate InOrder(names: seq<Name>) {
    forall i, j :: 0 <= i < j < |names| ==> Leq(names[i], names[j]) && names[i] != names[j]
  }

  lemma LastGlobAfter(root: Path, dirs: seq<Name>, paths: set<Path>, p: Path, k: nat)
    requires dirs != [] && InOrder(dirs)
    requires p in GlobAll(root, dirs[..|dirs| - 1], paths) && k < |Glob(root, dirs[|dirs| - 1], paths)|
    ensures PathBefore(p, Glob(root, dirs[|dirs| - 1], paths)[k])
  {
    var n := |dirs| - 1;
    GlobAllMeaning(root, dirs[..n], paths, p);
    GlobListsProtos(root, dirs[n], paths, k);
    DirectoryBefore(root, p, Glob(root, dirs[n], paths)[k]);
  }

  lemma {:induction false} GlobAllInOrder(root: Path, dirs: seq<Name>, paths: set<Path>)
    requires InOrder(dirs)
    ensures PathsInOrder(GlobAll(root, dirs, paths))
    decreases |dirs|
  {
    if dirs != [] {
      var n := |dirs| - 1;
      var front, back := GlobAll(root, dirs[..n], paths), Glob(root, dirs[n], paths);
      GlobAllInOrder(root, dirs[..n], paths);
      GlobInOrder(root, dirs[n], paths);
      forall i, j | 0 <= i < |front| && 0 <= j < |back|
        ensures PathBefore(front[i], back[j])
      {
        LastGlobAfter(root, dirs, paths, front[i], j);
      }
      AppendInOrder(front, back);
    }
  }

  /** The files are listed, and so parsed and written, by directory and then by name, in byte order; none
      is listed twice. */
  lemma InputsInOrder(root: Path, paths: set<Path>)
    ensures PathsInOrder(Inputs(root, paths))
    ensures forall i, j :: 0 <= i < j < |Inputs(root, paths)| ==> Inputs(root, paths)[i] != Inputs(root, paths)[j]
  {
    SortedMeaning(Directories(root, paths));
    GlobAllInOrder(root, Sorted(Directories(root, paths)), paths);
    AllDistinct(Inputs(root, paths));
  }

  lemma AllDistinct(paths: seq<Path>)
    requires PathsInOrder(paths)
    ensures forall i, j :: 0 <= i < j < |paths| ==> paths[i] != paths[j]
  {
    forall i: nat, j: nat | i < j < |paths|
      ensures paths[i] != paths[j]
    {
      assert PathBefore(paths[i], paths[j]);
    }
  }

  // ---------- the two phases ----------

  /** What parsing gives for each path, over fixed files. */
  type Parser = Path -> Result<Service>

  function FileParser(files: Files, root: Path): Parser {
    (p: Path) => Parse(files, root, p)
  }

  /** The services of the inputs that parse, in order. */
  function Services(parse: Parser, inputs: seq<Path>): seq<Service> {
    if inputs == [] then []
    else
      var n := |inputs| - 1;
      Services(parse, inputs[..n])
      + match parse(inputs[n])
        case Ok(service) => [service]
        case Err(_) => []
  }

  /** Where the Go file of a service goes: beside its `.proto` file, the name in lower case. */
  function OutputPath(s: Service): Path {
    JoinPath(s.filePath, ToLower(s.fileName) + CALLER_GO)
  }

  function WriteOne(files: Files, s: Service): Files {
    if s.methods == [] then files else files[OutputPath(s) := Render(s)]
  }

  function WriteAll(files: Files, services: seq<Service>): Files {
    if services == [] then files
    else WriteOne(WriteAll(files, services[..|services| - 1]), services[|services| - 1])
  }

  /** The files after one run of the generator. */
  function Generated(files: Files, root: Path): Files {
    WriteAll(files, Services(FileParser(files, root), Inputs(root, files.Keys)))
  }

  // ---------- what a run writes ----------

  ghost predicate WritesTo(s: Service, p: Path) {
    s.methods != [] && OutputPath(s) == p
  }

  ghost predicate IsOutput(services: seq<Service>, p: Path) {
    exists i :: 0 <= i < |services| && WritesTo(services[i], p)
  }

  /** The last service that writes its output path; what it writes stays. */
  ghost predicate IsLastWriter(services: seq<Service>, i: nat) {
    && i < |services|
    && services[i].methods != []
    && forall j :: i < j < |services| ==> !WritesTo(services[j], OutputPath(services[i]))
  }

  lemma NotOutputOfPrefix(services: seq<Service>, p: Path)
    requires services != [] && !IsOutput(services, p)
    ensures !WritesTo(services[|services| - 1], p) && !IsOutput(services[..|services| - 1], p)
  {
    var n := |services| - 1;
    assert forall i :: 0 <= i < n ==> services[..n][i] == services[i];
  }

  lemma {:induction false} WriteAllOther(files: Files, services: seq<Service>, p: Path)
    requires !IsOutput(services, p)
    ensures p in WriteAll(files, services) <==> p in files
    ensures p in files ==> WriteAll(files, services)[p] == files[p]
    decreases |services|
  {
    if services != [] {
      var n := |services| - 1;
      NotOutputOfPrefix(services, p);
      WriteAllOther(files, services[..n], p);
      WriteOneMiss(WriteAll(files, services[..n]), services[n], p);
    }
  }

  lemma LastWriterOfPrefix(services: seq<Service>, i: nat)
    requires IsLastWriter(services, i) && i < |services| - 1
    ensures IsLastWriter(services[..|services| - 1], i)
    ensures !WritesTo(services[|services| - 1], OutputPath(services[i]))
  {
  }

  lemma WriteOneHit(files: Files, s: Service, p: Path)
    requires WritesTo(s, p)
    ensures p in WriteOne(files, s) && WriteOne(files, s)[p] == Render(s)
  {
  }

  lemma WriteOneMiss(files: Files, s: Service, p: Path)
    requires !WritesTo(s, p)
    ensures p in WriteOne(files, s) <==> p in files
    ensures p in files ==> WriteOne(files, s)[p] == files[p]
  {
  }

  lemma {:induction false} WriteAllLast(files: Files, services: seq<Service>, i: nat, p: Path, text: string)
    requires IsLastWriter(services, i) && OutputPath(services[i]) == p && Render(services[i]) == text
    ensures p in WriteAll(files, services) && WriteAll(files, services)[p] == text
    decreases |services|
  {
    var n := |services| - 1;
    if i < n {
      LastWriterOfPrefix(services, i);
      WriteAllLast(files, services[..n], i, p, text);
      WriteOneMiss(WriteAll(files, services[..n]), services[n], p);
    } else {
      WriteOneHit(WriteAll(files, services[..n]), services[n], p);
    }
  }

  lemma LastWriterStays(services: seq<Service>, i: nat, p: Path)
    requires services != [] && !WritesTo(services[|services| - 1], p)
    requires IsLastWriter(services[..|services| - 1], i) && OutputPath(services[i]) == p
    ensures IsLastWriter(services, i)
  {
  }

  lemma {:induction false} LastWriterExists(services: seq<Service>, p: Path)
    requires IsOutput(services, p)
    ensures exists i: nat :: IsLastWriter(services, i) && OutputPath(services[i]) == p
    decreases |services|
  {
    var n := |services| - 1;
    if WritesTo(services[n], p) {
      assert IsLastWriter(services, n);
    } else {
      assert forall j :: 0 <= j < n ==> services[..n][j] == services[j];
      assert IsOutput(services[..n], p);
      LastWriterExists(services[..n], p);
      var i: nat :| IsLastWriter(services[..n], i) && OutputPath(services[..n][i]) == p;
      LastWriterStays(services, i, p);
    }
  }
}
