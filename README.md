# plsdo, modelled in Dafny

plsdo finds every call to a set of Go functions or methods. First it scans one
package's syntax trees for exported definitions whose names match glob
patterns. Then it asks the gopls language server, over a framed JSON-RPC
connection, for each definition's references. Each reference inside the
workspace is annotated with its enclosing function and the text of its call.
Finally the collected entries are sorted stably by file and line and printed
grouped by file and by enclosing function.

This project models that core in seven modules and proves what the code promises.

- `Wrappers` (wrappers.dfy): `Option`, `Result` and `Outcome`, the error values that stand for Go's `error` returns.
- `Text` (text.dfy): the Go library string functions the core relies on.
  - `strings.TrimPrefix`, `Cut`, `Index`, `Replace(…, 1)`, `Split`, `TrimSpace` and `Compare`;
  - `strconv.Atoi` and `%d`.
- `Glob` (glob.dfy): a `*`-wildcard matcher standing for the glob library.
- `Ast` (ast.dfy): pkg/ast/ast.go.
  - The node tree and the pattern matcher.
  - The stringifiers, the position conversion and the parse cache.
  - The two positional tree searches and the definition scan.
  - The `ASTProcessor` class, whose `fileMap` cache the methods update in place.
- `Framing` (framing.dfy): the `Content-Length` framing of `sendMessage` and `readMessage` over byte streams.
- `Gopls` (gopls.dfy): pkg/gopls/gopls.go.
  - JSON messages as a datatype, and the requests and notifications the client sends.
  - The id-matching wait loop and `parseReferences`.
  - `pathToURI`/`uriToPath`.
  - The `Client` class, with its sequence counter and its two byte streams.
- `Plsdo` (plsdo.dfy): pkg/plsdo/plsdo.go.
  - `fmtEnc` and the stable sort.
  - `PrettyPrint`'s grouping, as a function of the sorted entries.
  - The collection done by `FindFuncReferences`, as the pure functions `Gather` and `Sweep`.
  - The `Matcher` class, whose methods are proved against those functions.

How the model stands in for the outside world:

- The filesystem together with go/parser is a map from path to `Option<SourceFile>`.
  - An absent path is a read error; `None` is a parse error.
  - A `SourceFile` holds its text, its line-start offsets, its node tree and its top-level declarations.
- go/build is a map from import path to directory and file names.
- The server is the bytes it writes, given in advance; the client consumes them.
- The client's writes are accumulated in an `output` field.
- The JSON text codec is a pair of functions (`Codec`), about which only round trips are assumed where stated.
- go/printer's reformatting (`Format`) and chroma highlighting are function parameters that may fail.
- `filepath.Abs` is a function parameter `abs` that may fail.
  - `NewClient` and `NewMatcher` take it.
  - `FindFuncReferences` ignores its error, so the workspace directory is the `pwd` field of `Env`.

Behaviour the model keeps as the code has it:

- `GetEnclosingFunctionName` stops at the FIRST `FuncDecl`/`FuncLit` in pre-order that contains the position. That is the outermost one, so a literal inside a named function reports the named function (`Ast.TopLevelDeclarationWins`).
- A receiver-qualified pattern such as `*.Name` matches a plain function. Its receiver type is `""`, and `*` matches `""` (`Ast.PlainFunctionMatchesStarReceiver`). A literal receiver pattern does miss them (`Ast.PlainFunctionMissesLiteralReceiver`).
- `initialize` reads exactly one message and does not check its id (`Gopls.Client.Initialize`); the message read is taken to be the initialize response (pkg/gopls/gopls.go:182).
- The call reported by `ExtractFullCall` is the last containing call in pre-order. No containing call lies below it in its subtree (`Ast.CallIsDeepest`). Its span is not compared with other spans, although the comment at pkg/ast/ast.go:103 calls it the innermost call.

## Model

| member | source | states |
|---|---|---|
| `Text.TrimPrefix` | pkg/ast/ast.go:237 | one copy of the prefix is removed when present, else the string is unchanged |
| `Text.Cut` | pkg/ast/ast.go:241 | None iff the separator is absent; otherwise the parts around its FIRST occurrence |
| `Text.CutOf` | pkg/ast/ast.go:241 | cutting `a + [sep] + b` with `sep` not in `a` gives exactly `(a, b)` |
| `Text.Index` | pkg/gopls/gopls.go:341 | the first occurrence of the pattern, -1 iff there is none |
| `Text.ReplaceFirst` | pkg/gopls/gopls.go:341 | unchanged without an occurrence; else the first occurrence replaced |
| `Text.IndexOfCut` | pkg/gopls/gopls.go:246 | the first separator of `a + [sep] + b` is at `|a|` when `a` has none |
| `Text.IndexOfPrefix` | pkg/gopls/gopls.go:341 | a text that starts with the pattern has its first occurrence at 0 |
| `Text.Split` | pkg/plsdo/plsdo.go:93 | at least one part, and no part contains the separator |
| `Text.JoinSplit` | pkg/plsdo/plsdo.go:93 | joining the parts with the separator gives back the string |
| `Text.TrimLeftSpace` | pkg/gopls/gopls.go:242 | no longer than the input; does not start with white space |
| `Text.TrimRightSpace` | pkg/gopls/gopls.go:242 | no longer than the input; does not end with white space |
| `Text.TrimLeftSpaceRemovesSpace` | pkg/gopls/gopls.go:242 | the result is a suffix of the input, and what was removed is all white space |
| `Text.TrimRightSpaceRemovesSpace` | pkg/gopls/gopls.go:242 | the result is a prefix of the input, and what was removed is all white space |
| `Text.TrimSpace` | pkg/gopls/gopls.go:242 | a non-empty result neither starts nor ends with white space |
| `Text.TrimSpaceTrailing` | pkg/gopls/gopls.go:242 | a trimmed text followed by white space trims back to that text |
| `Text.AllSpaceTrimsLeft` | pkg/gopls/gopls.go:242-243 | a line of white space (the blank header line) trims to "" |
| `Text.TrimRightAllSpace` | pkg/gopls/gopls.go:242 | trailing white space after a non-space character is removed exactly |
| `Text.NatToString` | pkg/gopls/gopls.go:223 | decimal digits only, with no leading zero unless the number is 0 |
| `Text.IntToString` | pkg/plsdo/plsdo.go:121 | `%d` of a negative number is "-" and the digits of its magnitude |
| `Text.DecimalValueOfNatToString` | pkg/gopls/gopls.go:223 | the digits written for `n` have the value `n` |
| `Text.Atoi` | pkg/gopls/gopls.go:256-259 | a result is within 64 bits and comes from an optionally signed digit string, whose signed value it is; conversely every such string whose value fits in 64 bits is read, with or without `+`/`-` |
| `Text.AtoiIntToString` | pkg/gopls/gopls.go:256 | Atoi reads back every 64-bit number that `%d` wrote |
| `Text.Compare` | pkg/plsdo/plsdo.go:194 | -1, 0 or 1, and 0 exactly for equal strings |
| `Text.CompareAntisymmetric` | pkg/plsdo/plsdo.go:194 | swapping the arguments negates the order |
| `Text.CompareTransitive` | pkg/plsdo/plsdo.go:194 | the order is transitive |
| `Glob.MatchCoversLiterals` | pkg/ast/ast.go:248 | a matched subject is at least as long as the pattern's non-`*` characters, and exactly as long as a pattern without `*` |
| `Glob.StarMatchesAll` | pkg/ast/ast.go:242 | the pattern `*` matches every subject, the empty one included |
| `Glob.LiteralMatchesItself` | pkg/ast/ast.go:248 | a pattern without `*` matches exactly itself |
| `Glob.GlobConcat` | pkg/ast/ast.go:248 | matches of two patterns concatenate into a match of the concatenated pattern |
| `Glob.PrefixStarMatches` | pkg/ast/ast.go:248 | `prefix*` matches every subject that starts with the prefix |
| `Ast.Match.MethodName` | pkg/ast/ast.go:35-44 | the three renderings: `fn(...)`, `(type) fn(...)` and `(name type) fn(...)` |
| `Ast.ExprToStringForms` | pkg/ast/ast.go:281-310 | a pointer starts with `*`, a slice with `[]`, a map with `map[`; a selector ends with `.` and its name; an index expression ends with `]` |
| `Ast.PointerPrefixStripped` | pkg/ast/ast.go:285-286 | a pointer type prints with a leading `*`, which TrimPrefix removes to give the element type |
| `Ast.ExtractRecvType` | pkg/ast/ast.go:268-278 | ("", "") unless the receiver list has exactly one field; else its printed type and its first name or "" |
| `Ast.Format` | pkg/ast/ast.go:313-326 | the reprinted expression, or the source unchanged when it does not parse |
| `Ast.IsFuncMatch` | pkg/ast/ast.go:235-253 | true iff some pattern matches the name (and the receiver type with one `*` removed, for a dotted pattern); false for no patterns |
| `Ast.PlainFunctionMissesLiteralReceiver` | pkg/ast/ast.go:241-245 | a function without receiver never matches a pattern whose receiver part is a literal name |
| `Ast.PlainFunctionMatchesStarReceiver` | pkg/ast/ast.go:241-248 | a function without receiver does match `*.Name` |
| `Ast.PointerReceiverMatchesLikeValue` | pkg/ast/ast.go:236-237 | a pointer receiver `*T` matches exactly the patterns that a value receiver `T` matches |
| `Ast.GetPosition` | pkg/ast/ast.go:256-266 | NoPos iff the line is outside the file |
| `Ast.GetPositionUnchecked` | pkg/ast/ast.go:256-266 | NoPos iff the line is out of range; otherwise the line start plus `character - 1`, with no column bound |
| `Ast.LineIndex` | pkg/ast/ast.go:216 | the last line that starts at or before the offset |
| `Ast.PositionOfOffset` | pkg/ast/ast.go:216-226 | converting an offset to line and column and back with getPosition gives the offset |
| `Ast.OffsetOfPosition` | pkg/ast/ast.go:256-266 | a column inside its line converts to an offset that converts back to that line and column |
| `Ast.SubtreeBlock` | pkg/ast/ast.go:104-117 | in the walk, each node is followed at once by the walk of its own subtree |
| `Ast.SubtreeBlockAll` | pkg/ast/ast.go:104-117 | the same, for the walk of a list of siblings |
| `Ast.PreOrderAllSplit` | pkg/ast/ast.go:153-180 | the walk of the siblings is the walk of those before the k-th, then the k-th, then the rest |
| `Ast.LastCallIndex` | pkg/ast/ast.go:104-117 | the last node in pre-order that is a call containing the position, or None when there is none |
| `Ast.FirstFuncIndex` | pkg/ast/ast.go:153-177 | the first node in pre-order that is a FuncDecl or FuncLit containing the position, or None |
| `Ast.FindCall` | pkg/ast/ast.go:101-117 | the walk, keeping the last containing call, finds `LastCallIndex` |
| `Ast.FindEnclosing` | pkg/ast/ast.go:151-180 | the walk, stopping at the first containing function, finds `FirstFuncIndex` |
| `Ast.CallIsDeepest` | pkg/ast/ast.go:103-114 | no node below the reported call in its subtree is a call containing the position |
| `Ast.EnclosingAgreesWithExtractRecvType` | pkg/ast/ast.go:161-168 | for a one-field receiver the walk reports the receiver exactly as extractRecvType does |
| `Ast.EnclosingOf` | pkg/ast/ast.go:157-176 | a literal is `anonymous function` with no receiver; a declaration gives its name, no receiver without a receiver field, else the first field's printed type and its first name or "" |
| `Ast.EnclosingAt` | pkg/ast/ast.go:144-187 | the position error exactly when getPosition gives NoPos |
| `Ast.EnclosingIsFirstFunction` | pkg/ast/ast.go:144-187 | for a valid position: global scope when no function contains it, else the context of the first containing function in pre-order |
| `Ast.TopLevelDeclarationWins` | pkg/ast/ast.go:153-176 | a top-level declaration containing the position, with no function before it, is reported even when a literal inside it also contains the position |
| `Ast.CallSnippet` | pkg/ast/ast.go:95-99 | an invalid position is the position error |
| `Ast.CallSnippetIsLastContainingCall` | pkg/ast/ast.go:101-131 | the no-call error iff no call contains the position; for the last containing call in pre-order, its source text when its span lies within the file, else the invalid-positions error |
| `Ast.Load` | pkg/ast/ast.go:66-76 | success exactly for a readable, parseable file, and then its tree |
| `Ast.ParseStep` | pkg/ast/ast.go:61-80 | a cached path passes and changes nothing; the step fails iff the path is uncached and unreadable or unparseable, and then leaves the cache |
| `Ast.ParseStepProperties` | pkg/ast/ast.go:61-80 | the cache stays true to disk; an error leaves the cache unchanged; a success caches the path and changes no other entry; a second parse is a no-op |
| `Ast.ParseFilesCoherent` | pkg/ast/ast.go:198-202 | parsing a package's files keeps the cache true to disk and only adds entries |
| `Ast.FilePaths` | pkg/ast/ast.go:198-199 | one path per file name, the package directory joined with it |
| `Ast.IsExported` | pkg/ast/ast.go:209 | an exported name is non-empty and starts with neither a lower-case letter nor `_` |
| `Ast.DefinitionsIn` | pkg/ast/ast.go:204-229 | at most one match per declaration, each with the package path and the file's path |
| `Ast.DefinitionsInFiles` | pkg/ast/ast.go:198-230 | every match has the package path and one of the files scanned |
| `Ast.Definitions` | pkg/ast/ast.go:193-233 | an unknown package is the resolution error; every match has the package path and one of the package's files |
| `Ast.DefinitionsInConcat` | pkg/ast/ast.go:204-229 | the scan keeps declaration order |
| `Ast.DefinitionsExactly` | pkg/ast/ast.go:204-229 | a match is reported iff it comes from an exported FuncDecl that isFuncMatch accepts |
| `Ast.DefinitionPointsAtName` | pkg/ast/ast.go:216-226 | the line and column recorded convert back, via getPosition, to the offset of the name |
| `Ast.DefinitionsInFilesFail` | pkg/ast/ast.go:198-202 | the scan fails iff some file of the package cannot be read or parsed |
| `Ast.ParseFilesStopped` | pkg/ast/ast.go:200-202 | parsing stops at the first file that fails |
| `Ast.DefinitionsStopped` | pkg/ast/ast.go:200-202 | the scan stops at the first file that fails |
| `Ast.MatchesInFile` | pkg/ast/ast.go:204-230 | the declaration loop of one file computes its matches in declaration order |
| `Ast.ASTProcessor.constructor` | pkg/ast/ast.go:53-58 | an empty cache |
| `Ast.ASTProcessor.ParseFile` | pkg/ast/ast.go:61-80 | the outcome and new cache are those of one parse step |
| `Ast.ASTProcessor.ExtractFullCall` | pkg/ast/ast.go:83-132 | the text of the last call containing the position, or the error, and the cache after parsing the file |
| `Ast.ASTProcessor.GetEnclosingFunctionName` | pkg/ast/ast.go:136-188 | the context of the first enclosing function, or global scope, or the error, and the cache after parsing |
| `Ast.ASTProcessor.FindFuncDefinitions` | pkg/ast/ast.go:193-233 | the package's matches in file then declaration order, the resolution error, or the first parse error; the cache after parsing its files |
| `Framing.Encode` | pkg/gopls/gopls.go:223-224 | one byte per character, of the same value |
| `Framing.CharsEncode` | pkg/gopls/gopls.go:223-224 | encoding a header and reading it back as text gives the header |
| `Framing.EncodeConcat` | pkg/gopls/gopls.go:223-224 | the bytes of joined texts are the joined bytes |
| `Framing.NextLine` | pkg/gopls/gopls.go:238-241 | None iff there is no newline; otherwise the line up to and including its first newline, and the rest |
| `Framing.HeaderLine` | pkg/gopls/gopls.go:242-250 | the end of the headers iff the trimmed line is empty; the invalid-header error iff a non-empty trimmed line has no colon |
| `Framing.HeaderLineParts` | pkg/gopls/gopls.go:242-250 | a line with a colon is the header named by the trimmed text before its first colon, with the trimmed text after it as value |
| `Framing.ReadHeaders` | pkg/gopls/gopls.go:236-251 | consumes input, strictly so on success |
| `Framing.ReadHeadersStep` | pkg/gopls/gopls.go:237-250 | one header line: its error, the end of the headers, or the header stored and the loop continued on the rest |
| `Framing.OverrideLastWins` | pkg/gopls/gopls.go:250 | storing headers in order: the names are the old ones and those stored, the last pair with a name gives its value, other names keep theirs |
| `Framing.ReadHeadersOfLines` | pkg/gopls/gopls.go:236-251 | k header lines then a blank line give the map of the k headers stored in order, and the bytes after the blank line; k header lines then a bad line give that line's error |
| `Framing.ReadBody` | pkg/gopls/gopls.go:252-264 | success iff `Content-Length` is present, numeric and between 0 and the bytes left; the body is then exactly the next `Content-Length` bytes, followed by what remains; a negative length is its own error |
| `Framing.ReadFrame` | pkg/gopls/gopls.go:234-264 | on success it consumes the body and something more |
| `Framing.LengthLine` | pkg/gopls/gopls.go:223 | the header line ends with a newline |
| `Framing.Frame` | pkg/gopls/gopls.go:218-231 | the frame ends with exactly the payload |
| `Framing.LengthLineText` | pkg/gopls/gopls.go:223 | the header line is `Content-Length: `, the decimal length, then CR LF |
| `Framing.ContentLengthLine` | pkg/gopls/gopls.go:246-250 | that line reads back as the `Content-Length` header with the digits as its value |
| `Framing.BlankLine` | pkg/gopls/gopls.go:242-245 | CR LF ends the headers |
| `Framing.FirstLineOfFrame` | pkg/gopls/gopls.go:238 | the first line read from a frame is its header line |
| `Framing.ReadFrameOfFrame` | pkg/gopls/gopls.go:223-264 | reading a written frame gives exactly its payload and leaves the bytes after it, whatever the payload holds |
| `Framing.ReadFrames` | pkg/gopls/gopls.go:234-264 | two frames in a row are read one after the other |
| `Framing.HeaderWithoutColon` | pkg/gopls/gopls.go:236-249 | after any number of header lines, a non-blank line without a colon fails the read with the invalid-header error and leaves the bytes after it |
| `Framing.ReadFrameOfLines` | pkg/gopls/gopls.go:234-264 | k header lines and a blank line are read as the body for the map of those headers |
| `Framing.ContentLengthRequired` | pkg/gopls/gopls.go:252-259 | a missing `Content-Length` and a non-numeric one each fail the read with their own error |
| `Gopls.TruncToInt` | pkg/gopls/gopls.go:325-328 | Go's float64-to-int conversion for values an int holds: truncation toward zero |
| `Gopls.TruncOfInt` | pkg/gopls/gopls.go:325-328 | a whole number converts to itself |
| `Gopls.Request` | pkg/gopls/gopls.go:123-126 | a request carries its id |
| `Gopls.Notification` | pkg/gopls/gopls.go:189-193 | a notification carries no id |
| `Gopls.InitializeRequestFields` | pkg/gopls/gopls.go:164-176 | initialize carries its id, the method, a null process id and the project root as a file URI |
| `Gopls.ShutdownRequestFields` | pkg/gopls/gopls.go:84-89 | shutdown carries its id and the method, and no params |
| `Gopls.ReferencesRequest` | pkg/gopls/gopls.go:123-139 | the position sent is (line - 1, character - 1) and the declaration is included |
| `Gopls.ToSlash` | pkg/gopls/gopls.go:337 | same length, every separator turned into a slash, everything else kept |
| `Gopls.PathToUri` | pkg/gopls/gopls.go:336-338 | `file://` followed by the path with its separators turned into slashes |
| `Gopls.UriToPath` | pkg/gopls/gopls.go:340-342 | a `file://` URI loses that prefix; a text without `file://` is unchanged |
| `Gopls.UriToPathOfPathToUri` | pkg/gopls/gopls.go:336-342 | uriToPath undoes pathToURI up to the slashes |
| `Gopls.ReceiveMessage` | pkg/gopls/gopls.go:234-270 | consumes input, strictly so on success |
| `Gopls.ReceiveMessageOfFrame` | pkg/gopls/gopls.go:218-270 | reading a sent message, whose encoding the codec reads back, gives that message and the rest of the input |
| `Gopls.IdMatches` | pkg/gopls/gopls.go:150 | no id never matches; a numeric id matches iff its truncation is the awaited one; a non-numeric id is the error standing for the panic |
| `Gopls.IdMatchesMessages` | pkg/gopls/gopls.go:150 | a notification never matches an id; a request matches exactly its own |
| `Gopls.Await` | pkg/gopls/gopls.go:145-158 | a reply returned carries the awaited id |
| `Gopls.AwaitFrame` | pkg/gopls/gopls.go:145-158 | a message with another id is skipped; one with the id is returned with the rest of the input |
| `Gopls.AwaitSkipsOthers` | pkg/gopls/gopls.go:145-158 | every message with another id before the reply is discarded, and the reply and what follows it are returned |
| `Gopls.RefOf` | pkg/gopls/gopls.go:283-330 | an entry kept is an object with a string uri and a range; its location has that uri and the path uriToPath gives; a non-object is skipped |
| `Gopls.RefOfFields` | pkg/gopls/gopls.go:283-330 | an entry is kept iff it is an object with a string uri and numeric line and character in its range's start and end objects, other fields notwithstanding; the location is that uri, its path, and each coordinate truncated plus one |
| `Gopls.RefOfLocationJson` | pkg/gopls/gopls.go:283-330 | a well-formed entry becomes a location with all four coordinates one more than the protocol's and the path from its uri |
| `Gopls.RefWithoutUri` | pkg/gopls/gopls.go:288-291 | an entry without a string uri is skipped |
| `Gopls.RefWithoutStartLine` | pkg/gopls/gopls.go:297-304 | an entry whose start has no numeric line is skipped |
| `Gopls.Kept` | pkg/gopls/gopls.go:282-331 | no more locations than entries |
| `Gopls.KeptConcat` | pkg/gopls/gopls.go:283-331 | the kept entries follow reply order |
| `Gopls.KeptMembership` | pkg/gopls/gopls.go:283-331 | a location is returned iff some entry of the reply converts to it |
| `Gopls.References` | pkg/gopls/gopls.go:273-281 | a missing result and a non-array result are the two errors |
| `Gopls.ParseReferences` | pkg/gopls/gopls.go:273-333 | the loop computes the errors or the kept entries in order |
| `Gopls.Client.constructor` | pkg/gopls/gopls.go:63-71 | counter 0, nothing written yet, the server's output unread |
| `Gopls.Client.GetSeq` | pkg/gopls/gopls.go:210-215 | returns the counter plus one and stores it; the streams are untouched |
| `Gopls.Client.SendMessage` | pkg/gopls/gopls.go:218-231 | exactly the message's frame is appended to what was written |
| `Gopls.Client.ReadHeaderLines` | pkg/gopls/gopls.go:236-251 | the header loop reads as ReadHeaders says and consumes what it read |
| `Gopls.Client.ReadContent` | pkg/gopls/gopls.go:252-264 | the body read is as ReadBody says |
| `Gopls.Client.ReadMessage` | pkg/gopls/gopls.go:234-270 | one message read, as ReceiveMessage says |
| `Gopls.Client.AwaitReply` | pkg/gopls/gopls.go:145-158 | the wait loop reads messages until the id matches, as Await says |
| `Gopls.Client.Initialize` | pkg/gopls/gopls.go:162-207 | sends initialize with the next id, reads exactly one message without checking its id, then sends initialized and didChangeConfiguration unless the read failed |
| `Gopls.Client.FindReferences` | pkg/gopls/gopls.go:120-159 | sends the references request with the next id, then returns the parsed reply with that id and leaves the input after it |
| `Gopls.Client.Close` | pkg/gopls/gopls.go:82-117 | sends shutdown with the next id, waits for that id, then sends exit unless the wait failed |
| `Gopls.NewClient` | pkg/gopls/gopls.go:43-79 | the `filepath.Abs` error when it fails; otherwise fails iff the first reply cannot be read, and else a client with id 1 used, the input after that reply, and the three session messages written in order for the absolute root |
| `Plsdo.MatchEntry.FmtEnc` | pkg/plsdo/plsdo.go:32-41 | `fn(...)` without receiver, `(type) fn(...)` without receiver name, `(name type) fn(...)` otherwise |
| `Plsdo.FmtEncAgreesWithMethodName` | pkg/plsdo/plsdo.go:32-41 | fmtEnc renders an enclosing function the way MethodName renders a definition (its three forms) |
| `Plsdo.FmtEncEndsWithEllipsis` | pkg/plsdo/plsdo.go:32-41 | every header ends in `(...)` |
| `Plsdo.FmtEncOfFunction` | pkg/plsdo/plsdo.go:32-41 | the header depends only on the three enclosing fields |
| `Plsdo.CompareEntries` | pkg/plsdo/plsdo.go:193-198 | orders by file name, then by line; 0 exactly for equal (file, line) |
| `Plsdo.CompareEntriesAntisymmetric` | pkg/plsdo/plsdo.go:193-198 | swapping the entries negates the order |
| `Plsdo.CompareEntriesTransitive` | pkg/plsdo/plsdo.go:193-198 | the order is transitive |
| `Plsdo.Insert` | pkg/plsdo/plsdo.go:193 | inserting is a permutation of the entry and the list |
| `Plsdo.SortEntries` | pkg/plsdo/plsdo.go:192-199 | the sorted list is a permutation of the input |
| `Plsdo.InsertSorted` | pkg/plsdo/plsdo.go:193-198 | inserting into a sorted list keeps it sorted |
| `Plsdo.SortEntriesSorted` | pkg/plsdo/plsdo.go:192-199 | the result is ordered by (file, line) |
| `Plsdo.InsertSameKey` | pkg/plsdo/plsdo.go:193 | inserting keeps the order among entries with equal keys |
| `Plsdo.SortEntriesStable` | pkg/plsdo/plsdo.go:193 | the sort is stable: entries with equal (file, line) keep their original order |
| `Plsdo.SortEntriesOfSorted` | pkg/plsdo/plsdo.go:192-199 | a sorted list is left as it is |
| `Plsdo.SortEntriesIdempotent` | pkg/plsdo/plsdo.go:192-199 | sorting twice is sorting once |
| `Plsdo.PadLeft` | pkg/plsdo/plsdo.go:121 | `%5d` padding: the wider of the text and the width, spaces followed by the text |
| `Plsdo.ListingConcat` | pkg/plsdo/plsdo.go:120-122 | a listing of joined lines is the two listings, the second numbered on |
| `Plsdo.NumberedLinesConcat` | pkg/plsdo/plsdo.go:120-122 | the numbered source lines of an entry continue their numbering across a split |
| `Plsdo.NumberedLinesSingle` | pkg/plsdo/plsdo.go:121 | one line prints its padded number, two spaces, the line and a newline |
| `Plsdo.NumberedLinesSnoc` | pkg/plsdo/plsdo.go:120-122 | source line i of an entry is numbered Line + i |
| `Plsdo.Block` | pkg/plsdo/plsdo.go:76-122 | one entry's output ends with its numbered source lines and, for a new file, starts with the blank line and `+++ file:` |
| `Plsdo.Render` | pkg/plsdo/plsdo.go:71-124 | no entries print nothing; otherwise the output starts with the first entry's block, printed with no entry before it |
| `Plsdo.ChainConcat` | pkg/plsdo/plsdo.go:76-123 | the printing of joined entries is the two printings, the second after the last entry of the first |
| `Plsdo.RenderConcat` | pkg/plsdo/plsdo.go:71-124 | each block depends only on its entry and the one before it |
| `Plsdo.NewFileBlock` | pkg/plsdo/plsdo.go:77-88 | a new file prints the blank line and `+++ file:line`, and resets the enclosing header, which is then printed |
| `Plsdo.SameFunctionBlock` | pkg/plsdo/plsdo.go:84-91 | the same enclosing function in the same file prints `...` |
| `Plsdo.NewFunctionBlock` | pkg/plsdo/plsdo.go:84-88 | another enclosing function in the same file prints a blank line and its header |
| `Plsdo.PlainSourceLines` | pkg/plsdo/plsdo.go:93-94 | the styles "" and "none" print the reformatted source split into lines |
| `Plsdo.RenderSnoc` | pkg/plsdo/plsdo.go:76-123 | one more entry appends its block, printed after the previous entry |
| `Plsdo.Gather` | pkg/plsdo/plsdo.go:163-187 | no more entries than references |
| `Plsdo.GatherStopped` | pkg/plsdo/plsdo.go:168-176 | after the first error nothing more is gathered |
| `Plsdo.GatherConcat` | pkg/plsdo/plsdo.go:163-187 | the references are handled in order and the first error stops the loop |
| `Plsdo.GatherFails` | pkg/plsdo/plsdo.go:163-187 | the loop fails iff some reference's entry fails |
| `Plsdo.GatherFrom` | pkg/plsdo/plsdo.go:177-186 | every entry appended is the entry of some reference |
| `Plsdo.GatherSkips` | pkg/plsdo/plsdo.go:164-166 | a skipped reference changes nothing |
| `Plsdo.Sweep` | pkg/plsdo/plsdo.go:158-188 | no definitions collect nothing and leave the client as it was |
| `Plsdo.SweepStopped` | pkg/plsdo/plsdo.go:158-162 | after the first error no further definition is handled |
| `Plsdo.SweepFrom` | pkg/plsdo/plsdo.go:158-188 | a property of every possible entry holds of every entry collected |
| `Plsdo.FromStepPrefix` | pkg/plsdo/plsdo.go:158-162 | an entry traced to a reference returned for an earlier definition stays traced when more definitions follow |
| `Plsdo.SweepFromRefs` | pkg/plsdo/plsdo.go:158-188 | a relation that holds between every reference and the entry built from it holds between every entry collected and a reference that some step of the sweep returned |
| `Plsdo.SweepLog` | pkg/plsdo/plsdo.go:158-162 | a step that takes the next id and writes under it: ids count up by the definitions handled, all of them unless one failed, and what was written is their requests in order |
| `Plsdo.EntryFor` | pkg/plsdo/plsdo.go:163-186 | skipped iff outside the workspace; an error iff inside and an analyzer query fails; else the entry with the reference's file and line, the enclosing fields and the call text |
| `Plsdo.EntryForIsEntryFrom` | pkg/plsdo/plsdo.go:163-186 | a reference yields an entry iff it lies in the workspace and the entry is the one the analyzer's answers build |
| `Plsdo.EntriesBuiltFrom` | pkg/plsdo/plsdo.go:163-186 | every entry built lies in the workspace and is built from its reference |
| `Plsdo.ReferencesStep` | pkg/plsdo/plsdo.go:159 | each references query takes the next id and writes its request |
| `Plsdo.CollectEntriesFails` | pkg/plsdo/plsdo.go:163-176 | the loop over references fails iff some workspace reference has a failing query |
| `Plsdo.OutsideWorkspaceSkipped` | pkg/plsdo/plsdo.go:164-166 | a reference outside the workspace contributes nothing |
| `Plsdo.Collected` | pkg/plsdo/plsdo.go:145-150 | a failing definition scan is the run's error, with nothing collected and the client untouched |
| `Plsdo.CollectedInWorkspace` | pkg/plsdo/plsdo.go:143-190 | every entry collected lies in the workspace and is built, from the analyzer's answers, from a reference that the references query returned for one of the definitions |
| `Plsdo.StepAdvances` | pkg/plsdo/plsdo.go:159 | the references step meets SweepLog's premise |
| `Plsdo.FindReferencesOf` | pkg/plsdo/plsdo.go:159-162 | one call of FindReferences moves the client as ReferencesStep says |
| `Plsdo.Matcher.constructor` | pkg/plsdo/plsdo.go:56-58 | no entries, and the client given |
| `Plsdo.Matcher.AddEntries` | pkg/plsdo/plsdo.go:163-187 | appends the gathered entries to refs, leaving earlier entries unchanged, and reports the first error |
| `Plsdo.Matcher.FindFuncReferences` | pkg/plsdo/plsdo.go:143-190 | refs grows by exactly the collected entries; the client state afterwards is the one the collection describes |
| `Plsdo.Matcher.AddReferences` | pkg/plsdo/plsdo.go:158-188 | the loop over definitions: the sweep's result, refs appended, the client advanced |
| `Plsdo.Matcher.Sort` | pkg/plsdo/plsdo.go:192-199 | refs replaced by a sorted permutation of itself |
| `Plsdo.Matcher.PrettyPrint` | pkg/plsdo/plsdo.go:71-124 | sorts refs, then writes the rendering of the sorted entries |
| `Plsdo.Matcher.Close` | pkg/plsdo/plsdo.go:62-67 | the client is always left nil and the entries are kept; a client present was sent shutdown |
| `Plsdo.WriteAll` | pkg/plsdo/plsdo.go:73-123 | the printing loop, with its last file name and last header, writes the rendering |
| `Plsdo.WriteEntry` | pkg/plsdo/plsdo.go:77-122 | one iteration writes the entry's block and updates the last file name and header |
| `Plsdo.WriteHeaders` | pkg/plsdo/plsdo.go:77-91 | the file header and then the enclosing header or `...` |
| `Plsdo.WriteLines` | pkg/plsdo/plsdo.go:120-122 | the numbered lines loop |
| `Plsdo.NewMatcher` | pkg/plsdo/plsdo.go:51-59 | the `filepath.Abs(".")` error when it fails; else fails iff the first reply cannot be read, and otherwise an empty matcher whose fresh client used id 1, holds the input after that reply and has written the three session messages for the absolute root |

## Left out

- Subprocess launch, the pipes, `stdin.Close` and `cmd.Wait` are left out. The server's output is a byte sequence given in advance, and what the client writes is accumulated in `output`.
- Write and flush errors on the pipe are not modelled: every write succeeds.
- `Plsdo.Matcher.FindFuncReferences`: calling it after `Close` is not modelled. Its requires asks for a client, whereas Go returns normally when the scan fails or finds nothing, and panics on the nil client at the first definition (pkg/plsdo/plsdo.go:158-159). `Plsdo.Matcher.AddReferences` has the same requires.
- `json.Marshal`/`json.Unmarshal` are an abstract `Codec` of two functions. JSON numbers are reals; a non-numeric `id`, on which the code panics, is the error `IdNotNumber`.
- The `sync.Mutex` of `getSeq` is left out; the counter is a plain field.
- go/parser, go/printer and go/build are left out: files, trees, line tables and packages are given maps. `Format` takes the reprinting as a parameter that may fail.
- `token.Pos` is a plain offset, and `NoPos` is `None`. The case where line 1, character 0 yields `NoPos` through token's base-1 encoding is not modelled.
- `ExtractFullCall` reads the file a second time; files do not change in the model, so the cached file's text is used.
- The glob library is not part of this model. It is modelled as a `*`-only wildcard.
- `ast.IsExported` uses Unicode upper case; here it is an ASCII upper-case first character.
- `exprToString`'s default case prints the Go type name; here it is the string carried by `OtherExpr`.
- Strings are sequences of characters, one per byte; there is no UTF-8 decoding.
- Chroma highlighting is a parameter `highlight(style, source)` that may fail, in which case the plain lines are printed. Lexer and style fallbacks are not modelled.
- `Json` output, the debug writer helpers and cmd/refs.go are left out; they are output formatting and CLI plumbing.
- `filepath.Abs` is a parameter (`abs` for the client, `pwd` for the workspace test), not the operating system's path resolution. `filepath.Join` does not clean paths. Paths use '/' as the separator.
- `Framing.ReadBody`: a negative `Content-Length` makes Go's `make([]byte, n)` panic (pkg/gopls/gopls.go:261). The model returns the error `NegativeContentLength` instead, because a panic is not a value.
- `Framing.ReadBody`: a length within 64 bits but too large to allocate also makes `make` panic. The model has no memory bound: such a length is an error only when fewer bytes remain, as for any short read.
- `Gopls.TruncToInt`: the model converts exactly on unbounded integers. Go's `int(x)` is implementation-defined for values outside 64 bits, and the `+ 1` of pkg/gopls/gopls.go:325-328 wraps at the largest int64. Neither is modelled, so `Gopls.RefOf` is exact only for coordinates an int64 holds.
- `Ast.MatchOf`: `fset.Position` (pkg/ast/ast.go:216) honours `//line` directives, which can change the reported file name, line and column. The model uses the file's own line starts and path, i.e. a file without such directives.
- `Plsdo.SweepLog`: the model proves it generically and shows with `Plsdo.StepAdvances` that the references step meets its premise. It does not restate the conclusion for the concrete step, whose proof is beyond the solver's budget.
- `Gopls.Kept`: its own contract states only the length bound; order and membership are stated by `Gopls.KeptConcat` and `Gopls.KeptMembership`.
