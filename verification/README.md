# Verified model of the RPC-caller generator

`protocol/magefile.go` compiles `.proto` service definitions to Go files that declare one RPC caller per
method. This project models that generator in Dafny and proves what it does over every file, every line and
every sequence of runs.

How the model is laid out, from the bottom up:

- `Text.dfy` — `strings.Split`, `strings.Join`, suffixes and the line splitting of `bufio.Scanner`
  (a newline ends a line, one trailing carriage return is dropped, an empty last piece is not a line).
- `Patterns.dfy` — the shape of the four regular expressions: literals, whitespace runs and capture groups.
  `Decomposes` says that a line is such pieces written one after the other and then any tail. `Scan` walks the
  line once, takes every run as long as it can and never backtracks. For a `Separated` pattern the two agree.
- `ProtoLines.dfy` — the four patterns themselves and the classification of a line.
- `ProtoSyntax.dfy` — the texts of the four kinds of declaration, character by character, and the proof that they
  are exactly what the patterns accept.
- `CamelCase.dfy` — `toCamelCase`: the method splits, rewrites the parts array in place and joins; its
  specification `Camel` is a single pass over the characters.
- `Paths.dfy` — cleaned absolute paths as sequences of names, `filepath.Join`, `Dir`, `Base`, `Ext` and sorted
  listings.
- `ProtoParser.dfy` — the loop state of `parseProtoFile`, one `Step` per line, and the closed form of the state:
  which service is open, which name and go_package are nearest, which lines are methods, which imports are first
  uses.
- `ParserLaws.dfy`, `RoundTrip.dfy` — what the parser promises over whole files.
- `GoFile.dfy`, `ParsedServices.dfy` — the rendered Go file, a decoder for it, and what holds of the file of any
  parsed service.
- `Generator.dfy`, `GeneratorLaws.dfy`, `SelfImport.dfy` — the two-phase driver over a map from paths to texts, and
  what repeated runs do.
- `RpcCaller.dfy` — the imperative generator: a `Workspace` whose `files` it reads and overwrites, with the loops
  of the source, each method proved against the functions above.

Results a reader may want to know first:

- A parsed file's methods are exactly the rpc lines that stand after a service line with no closing line in
  between. Three consequences hold as in the source: an rpc line without `);` after its response type is no method and closes
  the service when it contains `}`; a service line stays open even if it ends in `}`; only request types, never
  response types, feed the import list.
- Running the generator twice is not always the same as running it once. It is exactly when no Go file that the
  run leaves behind belongs to a `.proto` file that imports a go_package from a file the same run overwrites
  (`IdempotentUnlessClobbered`); import paths that end in `.proto` are enough for that. It fails for a `.proto` file
  that imports from its own Go file (`SelfImportingIsClobbered`), and `SelfImportingExists` writes such projects down.
  Two runs always settle: a third changes nothing (`TwoRunsSettle`).
- A file with several go_package lines is generated into the package of its last one, but its importers are given
  the first one (`GoPackageReadersAgree` says exactly when that makes no difference).

## Model

| member | source | states |
|---|---|---|
| Text.UpperLetters | protocol/magefile.go:327 | the 26 small letters have the 26 capital ones for upper case, and every other character has itself |
| Text.LowerLetters | protocol/magefile.go:288 | the 26 capital letters have the 26 small ones for lower case, and every other character has itself |
| Text.LinesOfRaw | protocol/magefile.go:150-151 | a newline ends a line, what follows the last newline is a line unless it is empty, and one carriage return is dropped from the end of each |
| Text.EveryText | protocol/magefile.go:150-151 | every text is of the form this is stated for |
| Patterns.ScanDecides | protocol/magefile.go:24-27 | a scanner without backtracking accepts exactly the lines that split into the pieces of the pattern, and returns exactly those captures |
| Patterns.CapturesUnique | protocol/magefile.go:24-27 | any two ways of splitting a line give the same captures |
| ProtoLines.PatternsSeparated | protocol/magefile.go:24-27 | each of the four patterns is of the kind for which this holds: what follows a run never starts with a character the run could take |
| ProtoLines.PatternsDisjoint | protocol/magefile.go:158-177 | no line is accepted by two of the four patterns, so the order in which the loop tries them does not matter |
| ProtoLines.ClassifyDecides | protocol/magefile.go:158-179 | a line is taken as a declaration exactly when it is some way of writing that declaration, for any whitespace and any text after it |
| ProtoLines.ClassifyRest | protocol/magefile.go:207-209 | a closing line is exactly one that contains a closing brace and matches none of the four patterns; every other unmatched line is noise |
| ProtoLines.WritesUnique | protocol/magefile.go:24-27 | a line writes at most one declaration |
| ProtoLines.PrintWrites | protocol/magefile.go:24-27 | every declaration with captures from the patterns' alphabets can be written on a line |
| ProtoSyntax.ImportForm | protocol/magefile.go:24 | for every line: it is read as an import exactly when it is the text `import "path";` with its whitespace runs and any tail, the path of letters, digits, underscores, dots and slashes |
| ProtoSyntax.GoPackageForm | protocol/magefile.go:25 | for every line: it is read as a go_package exactly when it is the text `option go_package = "value";` with its whitespace runs and any tail, the value free of quotes |
| ProtoSyntax.ServiceForm | protocol/magefile.go:26 | for every line: it is read as a service exactly when it is the text `service`, whitespace, the name and an opening brace, with any tail |
| ProtoSyntax.RpcForm | protocol/magefile.go:27 | for every line: it is read as an rpc of this name and these types exactly when it is whitespace, `rpc`, whitespace, the name, `(`, the request, `)`, whitespace, `returns`, `(`, the response, `);` and any tail, with optional whitespace elsewhere and every alphabet spelled out |
| CamelCase.ToCamelCase | protocol/magefile.go:316-331 | the loop over the parts array computes the one-pass conversion |
| CamelCase.CapitalizedPieces | protocol/magefile.go:324-330 | splitting at underscores, capitalising every piece and joining is one pass that drops underscores and capitalises what follows them |
| CamelCase.CamelWord | protocol/magefile.go:324-329 | a word without dots and underscores has a small first letter replaced by its capital, by the table of letters, and nothing else changed |
| CamelCase.CamelDotted | protocol/magefile.go:319-323 | a qualified name keeps its qualifier and the dot, and what follows is converted on its own |
| CamelCase.CamelIdempotent | protocol/magefile.go:316-331 | converting twice is converting once, on every string |
| CamelCase.CamelAtUnderscore | protocol/magefile.go:324-330 | dot-free texts on either side of an underscore convert independently |
| CamelCase.KeptMeaning | protocol/magefile.go:324-330 | the kept positions are exactly those that hold no underscore, in increasing order |
| CamelCase.CamelizeConserves | protocol/magefile.go:324-330 | the output is the characters at the kept positions, capitalised exactly at the beginning of a piece |
| CamelCase.CamelLength | protocol/magefile.go:316-331 | with at most one dot the length drops by exactly the underscores after the dot, or all of them when there is no dot |
| CamelCase.CamelDropsThirdPiece | protocol/magefile.go:319-323 | whatever follows a second dot is lost |
| CamelCase.CamelEqual | protocol/magefile.go:316-331 | dot-free names convert alike exactly when they keep equally many characters and these agree one by one, each taken in upper case where it begins a piece |
| CamelCase.CamelCollision | protocol/magefile.go:316-331 | names without dots and underscores convert alike exactly when they differ at most in the case of the first letter |
| CamelCase.FullMethodNameDecodes | protocol/magefile.go:181 | for names of the service and rpc alphabets the full method name splits at underscores into exactly the converted service, the converted method and `FullMethodName` |
| CamelCase.FullMethodNameInjective | protocol/magefile.go:181 | equal full method names come from equal converted pairs, and conversely |
| Paths.StemExtension | protocol/magefile.go:159 | the alias of a path whose last element has an extension is that element up to its last dot |
| Paths.StemPlain | protocol/magefile.go:159 | without an extension it is the last element |
| Paths.StemTrailing | protocol/magefile.go:159 | behind slashes at the end of the path the last element stays whole, extension and all |
| Paths.StemOfImport | protocol/magefile.go:159 | the alias an import path with a directory, a name and an extension declares is the name |
| Paths.JoinPathName | protocol/magefile.go:195 | a plain name goes one directory down |
| Paths.JoinPathStays | protocol/magefile.go:195 | the empty path, a single dot, and these in front of a longer path stay in the directory |
| Paths.JoinPathAppend | protocol/magefile.go:195 | looking up an import path in two parts is looking up the second part where the first one leads |
| Paths.JoinPathUp | protocol/magefile.go:195 | two dots in front of any relative import path look that path up in the directory above, and the top directory is its own |
| ProtoParser.ClosedForm | protocol/magefile.go:139-211 | after any number of lines the loop state is its declarative closed form: open service, nearest service name and go_package, method list, declared aliases, used aliases and the import list |
| ProtoParser.ParseClosedForm | protocol/magefile.go:129-236 | every parsed service is described by the closed form of its whole file |
| ParserLaws.NearestServiceIs | protocol/magefile.go:170-174 | the service name in force is that of the last service line above, and empty without one |
| ParserLaws.SitesExact | protocol/magefile.go:176-188 | the method lines are exactly the rpc lines with an earlier service line and no closing line in between, each listed once and in order |
| ParserLaws.MethodAtSite | protocol/magefile.go:176-188 | the method list is the image of those lines in order |
| ParserLaws.MethodHistory | protocol/magefile.go:170-188 | over any number of services each method carries the name of the nearest service line above it and the converted parts of its own line, while the file's service name is that of its last service line |
| ParserLaws.DeclaredStays | protocol/magefile.go:158-162 | what an alias stands for changes only at import lines that declare it |
| ParserLaws.DeclaredHere | protocol/magefile.go:158-162 | at such a line it becomes the path of the line, whatever it stood for above |
| ParserLaws.DeclaredNone | protocol/magefile.go:158-162 | above all of them it stands for nothing |
| ParserLaws.AliasOfQualified | protocol/magefile.go:191 | a request type uses the alias before its first dot |
| ParserLaws.FirstUsesExact | protocol/magefile.go:191-203 | the lines that add an import are exactly the first uses of declared aliases, each once and in order |
| ParserLaws.ImportedOnce | protocol/magefile.go:190-203 | one first use stands behind each import lookup, in the order of the lines; their aliases are pairwise distinct and are exactly the used ones, and each path looked up is the one its alias stands for at the first use |
| ParserLaws.ResolvedAppend | protocol/magefile.go:195-200 | the import list holds, in the order of the lookups, the go_package of each file that has one and nothing for the others |
| ParserLaws.ResolverMeaning | protocol/magefile.go:195 | a lookup gives a value exactly when the file that the path names below the root exists and its first go_package line has that value |
| ParserLaws.ParseSucceeds | protocol/magefile.go:217-223 | parsing succeeds exactly when the file exists, some line matches the service pattern and some line matches the go_package pattern; each error is returned exactly in its own case |
| ParserLaws.GoPackageReadersAgree | protocol/magefile.go:225-230 | every parsed file has a first and a last go_package line; importers are given the first value, the generated package is the last segment of the last one, and the two agree exactly when both values end in the same segment |
| ParserLaws.OneGoPackageAgrees | protocol/magefile.go:299-314 | they agree when all go_package lines of the file hold one value |
| ParserLaws.GoPackageSegment | protocol/magefile.go:225-230 | the generated package is what follows the last slash of the last go_package value, or all of it without a slash |
| ParserLaws.NoiseInvariance | protocol/magefile.go:150-211 | any number of unmatched lines, each without a closing brace or outside a service, can be put in anywhere without changing the parse result |
| ParserLaws.NoiseLine | protocol/magefile.go:207-209 | in particular one such line can be inserted at any position |
| ParserLaws.HeaderCommutes | protocol/magefile.go:158-168 | the lines above the first service line can be permuted when imports of one base name agree and go_package lines agree |
| RoundTrip.ParseLayout | protocol/magefile.go:129-236 | from any layout of imports, a go_package, a service and rpcs, the go_package line standing anywhere and the service line anywhere above the rpcs and among the imports, the parser recovers the service name, the last go_package segment, every method in order and the resolved imports |
| RoundTrip.ArrangedRuns | protocol/magefile.go:158-174 | all these orders of the declarations leave the loop in the same state |
| RoundTrip.ParseLayoutFile | protocol/magefile.go:129-236 | the same from the text of a file |
| RoundTrip.ParsePrinted | protocol/magefile.go:129-236 | every legal service description can be printed in every such order and parses back |
| RoundTrip.ParsePrintedFile | protocol/magefile.go:129-236 | the same through the text of a file: the scanner of lines gives back what was printed |
| RoundTrip.MethodsAt | protocol/magefile.go:178-188 | field by field, what the recovered methods hold |
| GoFile.RenderedText | protocol/magefile.go:243-265 | the rendered file line by line, every fixed text spelled out: package, imports, Init with its SetConn calls, and the var block with its NewRpcCaller calls |
| GoFile.DecodeRender | protocol/magefile.go:243-276 | package, imports, service, the connected callers and every method quadruple can be read back from the rendered file |
| GoFile.RenderInjective | protocol/magefile.go:243-286 | two services render to the same text exactly when they agree in all rendered parts |
| ParsedServices.ParsedRenderable | protocol/magefile.go:24-27 | every parsed service keeps to the alphabets on which decoding rests |
| ParsedServices.RenderedHasNoGoPackage | protocol/magefile.go:299-314 | no line of a generated file matches the go_package pattern, so nothing can be imported from it |
| ParsedServices.CallersDistinct | protocol/magefile.go:177-188 | the declared callers are pairwise distinct exactly when no two method names have equally many characters besides underscores that agree one by one, each taken in upper case where it begins a piece |
| ParsedServices.CleanCallersDistinct | protocol/magefile.go:177-188 | for underscore-free method names that is when no two differ at most in the case of their first letter |
| ParsedServices.LowerCallersDistinct | protocol/magefile.go:177-188 | distinct underscore-free method names that begin with lower-case letters give distinct callers |
| ParsedServices.InitConnectsDeclared | protocol/magefile.go:253-263 | the lines of Init are the SetConn calls of exactly the callers that the lines of the var block declare, once each and in order |
| Generator.InputsMeaning | protocol/magefile.go:70-84 | the driver parses exactly the files whose name ends in `.proto` directly inside a directory below the root |
| Generator.InputsInOrder | protocol/magefile.go:63-91 | they are parsed in the order of their paths: at the first name where two differ, the earlier path has a proper prefix of the other name or the smaller character at the first difference; none is parsed twice |
| GeneratorLaws.OutputShape | protocol/magefile.go:288-289 | the Go file lies beside its `.proto` file, under the stem in lower case and the fixed suffix |
| GeneratorLaws.OutputName | protocol/magefile.go:288-289 | every output lies beside the `.proto` file it is written for and is named by its stem, each capital letter replaced by its small one and nothing else changed, and `_caller.go`; no capital letter is left in it |
| GeneratorLaws.RunPathsMeaning | protocol/magefile.go:84-91 | a run parses exactly the listed files that parse; the others are skipped |
| GeneratorLaws.RunPathsInOrder | protocol/magefile.go:84-124 | they are parsed, and their outputs written, in the order of the listing |
| GeneratorLaws.RunFrame | protocol/magefile.go:120-124 | a run adds or replaces outputs and leaves every other file as it was |
| GeneratorLaws.RunWrites | protocol/magefile.go:238-297 | at every output a run leaves the file of the last listed `.proto` file that parses and writes there, and its package, imports, service and methods can be read back from the text |
| GeneratorLaws.ProtoFilesKept | protocol/magefile.go:70-124 | a run neither adds, removes nor changes a `.proto` file it could parse |
| GeneratorLaws.SameInputs | protocol/magefile.go:70-94 | the next run lists and parses the same files in the same order |
| GeneratorLaws.ServicesAgain | protocol/magefile.go:84-91 | it parses them to the same services, except perhaps for their imports |
| GeneratorLaws.IdempotentUnlessClobbered | protocol/magefile.go:55-127 | a second run changes nothing exactly when no file whose output stays imports a go_package from a file the first run overwrites |
| GeneratorLaws.IdempotentForProtoImports | protocol/magefile.go:55-127 | when import paths end in `.proto`, running twice is running once |
| GeneratorLaws.TwoRunsSettle | protocol/magefile.go:55-127 | whatever the files hold, after two runs a third changes nothing |
| SelfImport.SelfImportingIsClobbered | protocol/magefile.go:190-203 | a file that imports from its own Go file, while that has a go_package line, loses the import in the second run |
| SelfImport.SelfImportingExists | protocol/magefile.go:190-203 | for every root and every directory and file name of lower-case word characters there is such a project, and the second run changes it |
| SelfImport.TwoRunsDiffer | protocol/magefile.go:55-127 | there are files on which running twice is not running once |
| RpcCaller.Workspace.GetGoPackage | protocol/magefile.go:299-314 | the search with early return finds the first go_package of a file |
| RpcCaller.Workspace.ScanLines | protocol/magefile.go:139-211 | the loop over the lines ends in the state the line-by-line specification gives |
| RpcCaller.Workspace.ParseProtoFile | protocol/magefile.go:129-236 | parsing a file gives what the specification gives |
| RpcCaller.Workspace.GenerateGoFile | protocol/magefile.go:238-297 | one output is written when the service has methods, and no other file changes |
| RpcCaller.Workspace.ParseProject | protocol/magefile.go:68-94 | the first phase collects the services of all listed files that parse, reading only |
| RpcCaller.Workspace.Generate | protocol/magefile.go:55-127 | the files after a run are those of the specification: everything is parsed from the old files, then written in order |

## Left out

- Opening, reading and writing files can fail only by a missing path; other I/O errors, the scanner's limit on the
  length of a line and its errors are not modelled.
- Directory entries other than files with a text, symbolic links, and special characters in a glob directory.
- The calls to `goimports` and `gofmt`: formatting is taken as the identity, so a generated file is what the
  template gives.
- Template parsing and execution by `text/template`: the rendered lines are stated directly, with each trimmed
  `range` block putting its items on lines of their own.
- Text outside ASCII: case mapping covers the letters A to Z only, and a text is a sequence of characters.
- Console output and the working directory; the project root is a parameter.
- `parseProtoFile` and `Generate` are each split in two methods (`ScanLines` and `ParseProject` are the new ones);
  the construction of one method record has a helper of its own. The order of the steps is that of the source.
- The generated protobuf and gRPC code, the request checks and the constant tables elsewhere in the repository:
  each is settled by reading one branch.
