# javacard-rpc, modelled and proved in Dafny

javacard-rpc turns a TOML description of a Java Card applet into generated skeletons and clients,
and ships a TCP bridge that lets programs talk to a simulated card. This project models the parts
of it that work by changing state step by step, and proves what they promise:

* **The card bridge** (`FrameCodec`, `CardMachine`, `Replies`, `Bridge`, `BridgeStructure`,
  `BridgeSerial`, `BridgeClients`, `BridgeIsolation`, `BridgeEndings`, `WireClient`, `ClientHandler`).
  Any number of connection threads, interleaved in any order, read length-prefixed frames, call a
  card behind a monitor and write replies. The card is an abstract machine whose operations take many internal steps, may
  throw, and need not return. The theorems are invariants of every reachable state: shared cards are
  serialised, connection cards are isolated, replies are those of the log, nothing deadlocks, no
  thread is busy for ever outside the card, and a connection that does not fail ends only when it has
  been told everything. From end to end, a client obtains over the wire what its own card would have
  returned. The handler's loop, as a method over mutable streams and a mutable session, is proved to
  do for one connection what the transition system does.
* **The package writer** of `jcrpc-gen` (`FileTree`, `LinkedPaths`, `PackageNames`, `PackageWriter`,
  `PackageOutput`, `PackageRun`, `Generator`). The file system is a tree of files, directories and
  symbolic links with the usual path walk; the output directory may be, or lie behind, links. The
  names that are accepted are proved to be those that `filepath.Join` cannot take out of the root. The
  static check of names is proved to be exactly what lets the directory and file loops materialise a
  package and touch nothing else, and the exit code of a run tells how far it got.
* **The IDL front end** (`Idl`, `Keys`, `Parser`, `Normalizer`, `ParserProofs`, `ValidationRules`,
  `NormalForm`, `Validator`, `Allocation`, `Complaints`, `Dispatch`, `DispatchProofs`, `Chunks`,
  `SchemaRules`, `Verdict`, `Vocabulary`, `WireFormat`, `Acceptance`). The parser places request fields
  in an array in place; a schema written out is parsed back to itself. The validator is a set of loops
  with first-owner maps. It is proved to accept exactly the well-formed schemas and those whose one
  fault a wrapped sum hides, its report to hold exactly the complaints there are, and the dispatch
  table of an accepted schema to be exactly the inverse of its allocation. Widths are those of the
  bytes that the packers write, and the small predicates are each said in a second way.
* **The counter applet** (`CounterState`, `CardBuffers`, `SignatureSpec`, `CounterApplet`,
  `CounterProcess`). 16-bit arithmetic refines an unbounded counter; signing is safe however input
  and output overlap; the receive loop stands up to a transport that returns any sizes and
  scribbles over the header.
* **Smaller tools**: the Java source scanner that cuts helpers out of generated classes (`Text`,
  `JavaScanner`, `JavaScannerProofs`, `JavaBlocks`, `JavaHidden`, `JavaPrune`, `JavaRest`, `JavaGlued`),
  the comparison of two generated trees (`Parity`), and install parameters from hex strings to the
  applet's seed (`InstallParams`).

Classes and arrays stand where the source has objects and buffers; their methods are proved against
functions, and the theorems are about those functions. `Wrappers` holds shared result types and a
few facts about sequences. `dafny verify dfyconfig.toml` checks everything.

## Where the code does not do what it seems to

* The scanner steps over an occurrence of " name(" that is no declaration, and can miss a declaration
  that overlaps it. It misses one in some source if and only if the name can be laid over itself in a
  way that a declaration hides in (`EveryHelperIsCutIff`). That takes a name with both a space and a
  parenthesis in it (`JavaNamesDoNotHide`); "( " is one (`SpacedNameIsMissed`).
* Deleting lines can glue a mention together out of their neighbours, for some source, if and only if
  the name has a newline in it (`CalledMeansMentionedIff`).
* The check that a streamed method's fixed response fits 255 bytes adds widths in a Go `int`. It is
  right about a width if and only if the width fits, or what is left of it modulo 2^64 is over 255
  and below 2^63 (`ResponseBoundIsExact`). A schema with a response of 2^64 - 2 bytes is accepted
  (`WrappedWidthIsAccepted`); `VerdictIsExact` has this as its one exception.
* A c9 parameter of 258 bytes (or 514, ...) is read by the test applet as a two-byte seed
  (`LongC9IsMistaken`); `SeedIsMeantIff` says exactly when the seed is the one meant.
* `sendError` has no guard: a card exception whose message does not fit a frame closes the
  connection without a reply (`RepliedUnless` gives the exact condition).
* `readFrame` never returns an empty payload, so the handler's answer to one is never sent
  (`ImmediateRepliesAreSent`).
* `bytes[0]` passes the parser and only the validator refuses it (`FixedTypeReadsBack`).

## Model

| member | source | states |
|---|---|---|
| FrameCodec.DataInput.ReadFrame | bridge/src/main/java/io/jcrpc/bridge/protocol/FrameCodec.java:20-33 | reads one frame off the stream: null on a missing length, an error on length zero or a short payload, otherwise the payload, leaving the stream right behind it |
| FrameCodec.DataOutput.WriteFrame | bridge/src/main/java/io/jcrpc/bridge/protocol/FrameCodec.java:38-45 | appends the encoded payload, or refuses one over 65535 bytes and writes nothing |
| FrameCodec.OnlyFramesAreRead | bridge/src/main/java/io/jcrpc/bridge/protocol/FrameCodec.java:20-33 | a payload that was read is one that was written: the stream is its encoding followed by the rest |
| FrameCodec.WrittenFramesAreRead | bridge/src/main/java/io/jcrpc/bridge/protocol/FrameCodec.java:20-45 | unique decodability: written frames are read back as the same list, whatever follows them |
| FrameCodec.ReadFramesWereWritten | bridge/src/main/java/io/jcrpc/bridge/protocol/FrameCodec.java:20-45 | any stream is the encoding of what is read from it, followed by what was not a frame |
| FrameCodec.TruncationYieldsAPrefix | bridge/src/main/java/io/jcrpc/bridge/protocol/FrameCodec.java:20-45 | any truncation of written frames reads as a prefix of the list, then null or end of file, never an altered frame |
| WireClient.LengthIsBigEndian | bridge/src/main/java/io/jcrpc/bridge/protocol/FrameCodec.java:13 | the two bytes in front of a payload are its length, the high one first |
| CardMachine.FinishStep | bridge/src/main/java/io/jcrpc/bridge/session/SimulatorSession.java:27-45 | an internal step of the card does not change how the operation in progress will end |
| Replies.RepliedUnless | bridge/src/main/java/io/jcrpc/bridge/server/ClientHandler.java:56-77 | an operation is answered with exactly one frame unless the card dies or throws with a message that does not fit a frame |
| Replies.ImmediateRepliesAreSent | bridge/src/main/java/io/jcrpc/bridge/server/ClientHandler.java:48-74 | PING and unknown types are answered without touching the card, and always can be |
| WireClient.PingOnTheWire | bridge/src/main/java/io/jcrpc/bridge/server/ClientHandler.java:68-70 | the bytes 00 01 04 are answered with 00 01 82 and what follows is served as before |
| WireClient.RequestIsRead | bridge/src/test/java/io/jcrpc/bridge/BridgeTestClient.java:28-70 | each request that the client frames is decoded as the operation it stands for |
| WireClient.ReplyIsUnderstood | bridge/src/test/java/io/jcrpc/bridge/BridgeTestClient.java:39-70 | every result that fits a frame is obtained by the client as the card returned it, under the tag of its operation |
| WireClient.ExceptionIsUnderstood | bridge/src/main/java/io/jcrpc/bridge/server/ClientHandler.java:75-77 | an exception of the card is replied as tag, code, length in two bytes and message, which read back |
| WireClient.TooLongIsAnError | bridge/src/main/java/io/jcrpc/bridge/protocol/FrameCodec.java:38-41 | a result too long for a frame is replied as an error that gives the frame's length in decimal |
| WireClient.UnknownTypeIsNamed | bridge/src/main/java/io/jcrpc/bridge/server/ClientHandler.java:71-73 | a message of any other type is refused with a text that ends in the type in hex |
| BridgeStructure.ReachableStructure | bridge/src/main/java/io/jcrpc/bridge/server/TcpBridgeServer.java:97-119 | in every reachable state each monitor has the one thread inside as its holder and each session its own create() call |
| BridgeStructure.ConnectionsGetTheirOwnCards | bridge/src/main/java/io/jcrpc/bridge/server/TcpBridgeServer.java:104-118 | connection scope: connections never share a card, some connection has the warm one from the first request on and none before, create() is called max(1, connections that asked) times |
| BridgeStructure.SomeoneCanMove | bridge/src/main/java/io/jcrpc/bridge/server/ClientHandler.java:42-78 | no deadlock: while a connection has not ended, some thread has a step |
| BridgeSerial.ReachableSerial | bridge/src/main/java/io/jcrpc/bridge/session/SimulatorSession.java:27-45 | in every reachable state every card stands where its logged operations, run one after the other, leave it, or inside one more that will end as it would there |
| BridgeSerial.SharedScopeSerializes | bridge/src/main/java/io/jcrpc/bridge/server/TcpBridgeServer.java:100-103 | shared scope: one global log of whole operations accounts for the one card's state under any interleaving |
| BridgeClients.RepliesFollowTheLog | bridge/src/main/java/io/jcrpc/bridge/server/ClientHandler.java:42-87 | each connection's operations are logged in the order of its frames, it is answered what the log says, one reply per frame taken, and decodes exactly that from its socket; once its thread has ended by itself nothing is owed, whatever is logged later |
| BridgeIsolation.ReachableUndisturbed | bridge/src/main/java/io/jcrpc/bridge/server/TcpBridgeServer.java:104-118 | connection scope, every reachable state: answered so far plus still due is what the connection gets alone with a fresh card |
| BridgeIsolation.ServedAsIfAlone | bridge/src/main/java/io/jcrpc/bridge/server/ClientHandler.java:42-78 | the bytes sent to a connection are a prefix of what it gets alone on a fresh card, and all of it when its frames are used up or its thread has ended by itself |
| BridgeIsolation.OthersDoNotInterfere | bridge/src/main/java/io/jcrpc/bridge/server/TcpBridgeServer.java:97-119 | over any two runs, equal streams to equal fresh cards receive equal bytes, up to how far each has got and entirely once both have ended, whatever the other connections do, RESET included |
| BridgeEndings.OnlyBreaksCut | bridge/src/main/java/io/jcrpc/bridge/server/ClientHandler.java:42-87 | a connection is cut short only by a failure of its own connection |
| BridgeEndings.EndedIsAnswered | bridge/src/main/java/io/jcrpc/bridge/server/ClientHandler.java:42-87 | a connection that does not fail and is over has been written all that the log tells it, in either scope, and in connection scope all that it is told alone on its fresh card |
| BridgeEndings.SessionUnlessCreateFailed | bridge/src/main/java/io/jcrpc/bridge/server/TcpBridgeServer.java:97-119 | past being accepted, a connection has the session of its own create() call, which is the first one in shared scope and the n-th for the n-th to ask otherwise; it has none only if that call failed, and then it is over |
| BridgeEndings.StepsAreBounded | bridge/src/main/java/io/jcrpc/bridge/server/ClientHandler.java:42-78 | over any run a thread takes at most eight steps for each byte its peer sends, and six, the steps inside the card not counted |
| WireClient.ClientsGetTheirCardsResults | bridge/src/test/java/io/jcrpc/bridge/BridgeTestClient.java:28-70 | from end to end: whatever other connections do, the replies that a client reads give the results of its operations called on its own card directly, in order |
| ClientHandler.SimulatorSession.TransmitAPDU | bridge/src/main/java/io/jcrpc/bridge/session/SimulatorSession.java:27-30 | observed for any number of steps: the card has moved by exactly one whole operation, whose outcome is returned, or it is so many steps into that operation |
| ClientHandler.ObservedIsWhole | bridge/src/main/java/io/jcrpc/bridge/session/SimulatorSession.java:27-45 | an operation that is seen to return, after however many steps, is the whole operation of the transition system, in state and outcome |
| ClientHandler.HandleFrame | bridge/src/main/java/io/jcrpc/bridge/server/ClientHandler.java:56-77 | one frame moves the card and is answered as its type and the card's outcome demand, or the handler ends without a reply; nothing is written while the card has not returned |
| ClientHandler.Serve | bridge/src/main/java/io/jcrpc/bridge/server/ClientHandler.java:35-87 | the handler's loop writes exactly the replies that the transition system calls a connection alone with its card, or a prefix of them if it is still inside a card that need not return |
| PackageNames.JoinSplit | codegen/cmd/jcrpc-gen/package_files.go:45 | taking a name apart at the slashes and joining it again gives the name, so that different names are different paths |
| PackageNames.SplitJoin | codegen/cmd/jcrpc-gen/package_files.go:45 | parts without a slash are what their join is taken apart into, so that there is one way to take a name apart |
| PackageNames.CanonicalIff | codegen/cmd/jcrpc-gen/package_files.go:22-25 | a name without NUL is accepted if and only if cleaning its components leaves them as they are and they do not climb |
| PackageNames.NulIsRefused | codegen/cmd/jcrpc-gen/package_files.go:22 | a name with NUL is refused |
| PackageNames.CleanKeepsMeaning | codegen/cmd/jcrpc-gen/main.go:211-218 | cleaning a relative path leaves where it leads as it is, from every directory |
| PackageNames.CanonicalJoins | codegen/cmd/jcrpc-gen/main.go:211-218 | joining an accepted name to a directory appends its components and takes nothing back |
| PackageNames.ParentEscapes | codegen/cmd/jcrpc-gen/package_files_test.go:30 | a name of the form "../x", which joining would put beside the root, is refused |
| PackageNames.DirOfCanonical | codegen/cmd/jcrpc-gen/package_files.go:36 | the parent walk of a canonical name drops one component at a time and ends at "." |
| LinkedPaths.ResolveThrough | codegen/cmd/jcrpc-gen/main.go:205-224 | with an output directory behind links, every path below it that meets no link leads to the same node as below the physical directory |
| LinkedPaths.EveryDirectoryLeadsOrIsBarred | codegen/cmd/jcrpc-gen/main.go:205-216 | every directory that can be given leads to a physical one, made or to be made, or is barred by a link that leads to no directory |
| LinkedPaths.BarredIsUntouched | codegen/cmd/jcrpc-gen/main.go:210-216 | below a barred one MkdirAll fails and changes nothing |
| PackageWriter.HasFileAsParent | codegen/cmd/jcrpc-gen/package_files.go:36-40 | the parent walk finds a conflict exactly when another file's name is a proper prefix, in components, of this one |
| PackageWriter.InspectPath | codegen/cmd/jcrpc-gen/package_files.go:44-62 | the walk from the root refuses exactly when an existing link lies on the way to the file |
| PackageWriter.ValidatePackageFiles | codegen/cmd/jcrpc-gen/package_files.go:17-65 | accepts exactly the packages whose names are canonical, unique, prefix-free, have data and meet no link, changes nothing, and every accepted file is written below the root |
| PackageRun.MakeDirs | codegen/cmd/jcrpc-gen/main.go:210-216 | the directory loop, last file first, adds exactly the missing directories, and on a faultless file system fails only where a file is in the way |
| PackageRun.WriteFiles | codegen/cmd/jcrpc-gen/main.go:217-224 | the file loop writes each file's data at its path and nothing else |
| PackageRun.WritePackage | codegen/cmd/jcrpc-gen/main.go:208-224 | an accepted package is materialised exactly, or the run stops having touched only package files and missing directories above them; without faults it succeeds if and only if there was room |
| Generator.FreshRootHasRoom | codegen/cmd/jcrpc-gen/package_files.go:15-65 | on a fresh root the names alone decide acceptance and nothing can be in the way |
| Generator.OnlyTheRootIsTouched | codegen/cmd/jcrpc-gen/main.go:208-224 | every changed path lies at or below the root, or is a missing directory made above it |
| Generator.ConflictsCannotExist | codegen/cmd/jcrpc-gen/package_files.go:27-40 | what the static check refuses for conflict cannot be held by any file tree at all |
| Generator.LaterRootsUntouched | codegen/cmd/jcrpc-gen/main.go:176-225 | nothing below the roots of targets not yet reached has changed |
| Generator.EarlierPackagesStand | codegen/cmd/jcrpc-gen/main.go:176-225 | what earlier targets wrote is still complete |
| Generator.RunTargets | codegen/cmd/jcrpc-gen/main.go:176-225 | exit 0, 2 or 3 of the target loop says how far it got and what changed at the target it stopped at |
| Generator.RunScope | codegen/cmd/jcrpc-gen/main.go:176-225 | failure scope: all changes lie under selected roots up to the one stopped at, that one excluded unless the exit is 3, and earlier packages are whole |
| Generator.TargetsAreSiblings | codegen/cmd/jcrpc-gen/main.go:182-184 | the three target roots are different children of the output directory for every applet name |
| Generator.RunWithPlugins | codegen/cmd/jcrpc-gen/main.go:71-235 | which invocations reach the target loop, and the exit code of each that does not, with the file system as it was; exit 0 after the loop leaves each selected language's own files under its own directory; nothing under an unselected language's directory ever changes, nor under a later one's when a plugin fails |
| Idl.FixedMessageLength | codegen/message_size.go:3-13 | the loop's sum is the true width reduced to a Go int, and there is none as soon as one field has none |
| WireFormat.EncodedReadsBack | codegen/testdata/CounterSkeleton.java.golden:376-416 | every value of every field type is read back from its bytes, numbers big-endian |
| WireFormat.WireSizeIsExact | pluginapi/model.go:122-152 | a field has width n if and only if it has values and they all take n bytes as the packers write them |
| WireFormat.MessageWidthIsExact | codegen/message_size.go:3-13 | a message has width n if and only if everything that can be said with it takes n bytes |
| CardBuffers.PackU32 | codegen/testdata/CounterSkeleton.java.golden:397-406 | writes the four bytes, highest first, and returns the next offset, or fails having written nothing |
| Keys.SortedKeys | codegen/validator.go:281-297 | sorting an enumeration of a map's keys gives them in ascending order, each once |
| Keys.SortingForgetsTheOrder | codegen/validator.go:281-297 | the sorted keys are the same for every order of enumeration |
| Keys.BeforeIsLexicographic | codegen/validator.go:281-297 | the order of the keys is the lexicographic one |
| Parser.PlaceExplicit | codegen/parser.go:228-253 | with explicit locations the array's fields without one go to the data, or the first repeated or unknown location is the error |
| Parser.AssignRequestLocations | codegen/parser.go:215-273 | the array is left with the placed fields, or the error is the first conflict |
| ParserProofs.PlacementIsStable | codegen/parser.go:215-273 | every field gets a place, p1 and p2 at most one each, explicit places are kept, nothing else of a field changes, and placing again changes nothing |
| ParserProofs.ConflictIsFirst | codegen/parser.go:228-253 | placing fails exactly when a field claims a parameter byte again or has an unknown location, with the location of the first such field |
| NormalForm.PlacementIs | codegen/parser.go:215-273 | where each field goes: where it says; to the data if only others say; to p1 and p2 in order if nothing is said and one or two u8 or bool are all; to the data otherwise |
| ParserProofs.ParsedRequestsArePlaced | codegen/parser.go:206-210 | so it is for the requests of every raw schema that normalises |
| ParserProofs.FixedTypeReadsBack | codegen/parser.go:275-292 | `bytes[N]` is read back as N for every N that is a Go int, with any space around it |
| NormalForm.TypesAreNames | codegen/parser.go:275-292 | a type is accepted if and only if it is one of eight words or bytes[N] with an N that fits, with space around it or not |
| NormalForm.TypeReadsBack | codegen/parser.go:275-292 | and is the type of that name |
| NormalForm.LocationReadsBack | codegen/parser.go:298-309 | every location is read back from its name in any case, with space around it |
| NormalForm.FaultsAreExact | codegen/parser.go:169-204 | a field is refused for the first of five faults that it has, and accepted exactly if it has none |
| NormalForm.SchemaReadsBack | codegen/parser.go:99-213 | a schema written out as raw values normalises back to itself |
| NormalForm.ParsedSchemasAreNormal | codegen/parser.go:99-213 | the schemas that come out of the parser are exactly those with known types and locations, sizes only where the type has them, requests placed without conflict, and names equal to their keys |
| ParserProofs.ParsedSchemaIsRegular | codegen/parser.go:165-213 | of a parsed schema the validator never reports a nil method, an unsupported type, a `.length`, or an unsupported or duplicate request location |
| Normalizer.NormalizeMessage | codegen/parser.go:165-213 | the first refused field is the error with its index, otherwise the fields in order, placed if it is a request |
| Normalizer.NormalizeMethods | codegen/parser.go:119-149 | fails exactly when some method does, with the error of one that does, and otherwise maps every name to its method |
| Normalizer.NormalizeSchema | codegen/parser.go:99-163 | for every order of the two maps: succeeds exactly when all parts are in range and well formed, always with the same schema |
| Validator.Validation.ValidateMessage | codegen/validator.go:135-212 | appends the errors of each field, given which parameter bytes earlier fields hold, and of a stream that is not alone |
| Validator.Validation.ValidateMethodINSRange | codegen/validator.go:214-241 | appends the errors of the range and leaves every byte of it owned by whoever was first |
| Validator.Validation.ValidateEach | codegen/validator.go:81-132 | appends the errors of all methods in key order, each against the owners before it |
| Validator.Validate | codegen/validator.go:26-42 | the list of errors is that of the sorted keys |
| Validator.ReportForgetsTheOrder | codegen/validator.go:281-297 | the list of errors is the same for every order of the two maps |
| Allocation.InsReportIsExact | codegen/validator.go:214-241 | a problem with instruction bytes is reported if and only if it exists, and a collision names the least key that claims the byte |
| Allocation.InsVerdictIsExact | codegen/validator.go:214-241 | no `.ins` error if and only if all ranges fit a byte, are pairwise disjoint and avoid the reserved ones |
| Complaints.ReportIsExact | codegen/validator.go:26-279 | of every path and message: it is reported if and only if the schema gives cause for it, said of the schema alone; a duplicate name, code or byte is told against the least key that has it |
| Dispatch.AtMost224Bytes | codegen/validator.go:316-318 | the ranges of all methods together take at most 224 bytes, so at most 37 methods are streamed |
| Dispatch.ExpectedStreamDispatchRows | codegen/gen_java_stream_dispatch_test.go:121-176 | the loops write 256 empty rows, then each streamed method's six operations in INS order with its seven configuration values, or stop where a fixed response has no width |
| DispatchProofs.DispatchInvertsAllocation | codegen/gen_java_stream_dispatch_test.go:118-176 | a byte is dispatched to (id, operation, configuration) if and only if it is that operation's byte of the id-th streamed method by INS; no row is written twice |
| Chunks.ChunkBoundIsExact | codegen/validator.go:161-163 | for sizes in range the 255-chunk error occurs if and only if a payload of the greatest length needs more than 255 chunks |
| Chunks.SplitAt | codegen/validator.go:153-163 | chunk i is the payload's bytes from i times the chunk size on |
| Chunks.AcceptedPayloadSplits | codegen/validator.go:153-163 | every allowed payload is at most 255 chunks of 1 to 255 bytes, joined they are the payload, and their offsets and ends fit a signed 16-bit value |
| Verdict.VerdictIsExact | codegen/validator.go:26-279 | for every schema and every order of its maps: no error at all and no response width that wraps around, if and only if the schema is well-formed, said without loops, orders, seen-maps or word sizes; with wrapped widths let through, the report is exact by itself |
| Verdict.MessageVerdict | codegen/validator.go:135-212 | a message is not complained about if and only if its fields are each in order, p1 and p2 carry one field at most, and a stream is alone |
| Acceptance.StreamsCanBeSent | codegen/validator.go:153-211 | a stream field of a well-formed schema stands alone and every payload it allows fits 255 chunks with 16-bit offsets |
| Acceptance.ParameterBytes | codegen/validator.go:183-206 | a field that a well-formed schema puts in p1 or p2 is one wire byte, alone there, and no request of a streamed method has one |
| Acceptance.AcceptedDispatch | codegen/gen_java_stream_dispatch_test.go:118-176 | every accepted schema gives an exact dispatch table |
| Acceptance.RowsTellTheMessages | codegen/gen_java_stream_dispatch_test.go:138-163 | of a well-formed schema: a direction is enabled exactly if its message has a stream, whose values are exactly the payloads up to its maximum, cut into at most 255 chunks of its chunk size; the length given of a plain response is that of all its encodings |
| Acceptance.ResponseBoundIsExact | codegen/validator.go:120-124 | of every width: the 255-byte bound on a streamed method's fixed response is judged rightly if and only if the width fits, or is over 255 and below 2^63 modulo 2^64 |
| Acceptance.WrappedWidthIsAccepted | codegen/message_size.go:3-13 | a whole schema with a response of 2^64 - 2 bytes draws no error and is not well-formed |
| Vocabulary.IdentifiersGrow | codegen/validator.go:13 | identifiers are what grows from a letter by letters, digits and underscores |
| Vocabulary.VersionsAreNumbers | codegen/validator.go:15 | versions are three numbers in decimal with dots between |
| Vocabulary.AidsAreBytes | codegen/validator.go:324-332 | application identifiers are the hex forms of 5 to 16 bytes, in either case |
| Vocabulary.BlankIs | codegen/validator.go:58-60 | a text is blank exactly if it is white space throughout |
| Vocabulary.ReservedBytesStartStatusWords | codegen/validator.go:316-322 | a status word is valid exactly if its first byte is a reserved instruction |
| Vocabulary.ReservedByHighHalf | codegen/validator.go:316-318 | the reserved instructions are those with high half 6 or 9 |
| Vocabulary.ParameterTypesAreBytes | codegen/validator.go:312-314 | the types allowed in p1 and p2 are those whose every field takes one byte |
| Vocabulary.StreamsAreFields | pluginapi/model.go:103-120 | a method reserves six instructions exactly if some field of its request or response is a stream |
| Vocabulary.NamesAreIdentifiers | codegen/validator.go:97-104 | in an accepted schema everything goes by an identifier: its own name, or its key if that is blank |
| CounterState.StepRefinesIdeal | examples/counter/applet/src/main/java/io/jcrpc/example/CounterApplet.java:79-112 | one call in 16-bit arithmetic is one call of the unbounded counter, refused exactly when that would leave its range |
| CounterState.RunRefinesIdeal | examples/counter/applet/src/main/java/io/jcrpc/example/CounterApplet.java:79-112 | over every sequence of calls the counter stays in 0..32767 and equals the unbounded one |
| CounterState.RefusalsAreExact | examples/counter/applet/src/main/java/io/jcrpc/example/CounterApplet.java:79-137 | a call is refused exactly for its reason in unbounded terms, with the status of that reason, and changes nothing |
| CounterState.CounterIsNetSinceReset | examples/counter/applet/src/main/java/io/jcrpc/example/CounterApplet.java:79-107 | it is the accepted increments less the accepted decrements since the last reset |
| CounterState.LoadReturnsLastStore | examples/counter/applet/src/main/java/io/jcrpc/example/CounterApplet.java:126-137 | load returns exactly the last accepted store, or refuses when there is none or no room; nothing else changes it |
| CounterApplet.CounterApplet.OnIncrement | examples/counter/applet/src/main/java/io/jcrpc/example/CounterApplet.java:79-87 | the object moves and replies as the specified call, all of its state considered |
| CounterApplet.CounterApplet.OnDecrement | examples/counter/applet/src/main/java/io/jcrpc/example/CounterApplet.java:90-97 | likewise |
| CounterApplet.CounterApplet.OnStore | examples/counter/applet/src/main/java/io/jcrpc/example/CounterApplet.java:126-130 | the stored bytes are those of the span before the call; an oversize span changes nothing |
| CounterApplet.CounterApplet.OnLoad | examples/counter/applet/src/main/java/io/jcrpc/example/CounterApplet.java:133-137 | the reply's bytes are put into the output window and nowhere else; a refusal writes nothing |
| CounterApplet.CounterApplet.OnGetInfo | examples/counter/applet/src/main/java/io/jcrpc/example/CounterApplet.java:115-123 | exactly seven bytes are written, or, where there is less room, the fields that fit whole, before the refusal |
| CounterApplet.InfoReadsBack | examples/counter/applet/src/main/java/io/jcrpc/example/CounterApplet.java:115-123 | they give back counter, limit, version and the two flags |
| CounterApplet.CounterApplet.OnSignChallenge | examples/counter/applet/src/main/java/io/jcrpc/example/CounterApplet.java:158-180 | for any overlap of challenge and output the written bytes are the end-to-end client's signature of the original challenge, bytes outside are unchanged, and a refusal writes no output |
| SignatureSpec.SignatureParses | examples/counter/kotlin-cli/src/main/kotlin/io/jcrpc/example/CounterE2E.kt:62-85 | the nested lengths parse back to two parts of min(len, 8) bytes, neither negative |
| SignatureSpec.SignatureDeterminesChallenge | examples/counter/kotlin-cli/src/main/kotlin/io/jcrpc/example/CounterE2E.kt:69-84 | counter and limit known, the parts give the challenge back byte by byte, each part's first byte up to its cleared top bit |
| CounterApplet.MasksAreInfoBytes | examples/counter/applet/src/main/java/io/jcrpc/example/CounterApplet.java:158-180 | challenge and constants taken out, the parts leave the low bytes of counter and limit as getInfo shows them, up to the cleared top bit in the first byte of each |
| CounterApplet.CounterApplet.OnEchoMessage | examples/counter/applet/src/main/java/io/jcrpc/example/CounterApplet.java:189-203 | the message as it was is written to the window, whatever the overlap, or nothing is |
| CardBuffers.CopyBytes | codegen/testdata/CounterSkeleton.java.golden:425-436 | memmove: the target span becomes the source span as it was, any overlap, all else unchanged |
| CardBuffers.PackU16 | codegen/testdata/CounterSkeleton.java.golden:388-395 | writes the two bytes high first and returns the next offset, or fails having written nothing |
| CardBuffers.PackBytes | codegen/testdata/CounterSkeleton.java.golden:408-416 | bounds-checked copy that returns the next offset, or fails having written nothing |
| CounterProcess.ReceiveRest | examples/counter/applet/src/main/java/io/jcrpc/example/CounterJCApplet.java:45-51 | the loop ends for every transport, succeeds exactly when positive fragments add up to what is missing, and then the whole request is in place |
| CounterProcess.DeliversIff | examples/counter/applet/src/main/java/io/jcrpc/example/CounterJCApplet.java:45-51 | that condition without the loop: some number of positive sizes sums to what is missing |
| CounterProcess.ReceivableIff | examples/counter/applet/src/main/java/io/jcrpc/example/CounterJCApplet.java:34-51 | a request is taken exactly if its length fits one byte and its command fits the buffer, and a first fragment that may be empty and further ones that may not add up to it |
| CounterProcess.WholeCommandIsTaken | examples/counter/applet/src/main/java/io/jcrpc/example/CounterJCApplet.java:34-44 | so a short command delivered at once is taken exactly if its bytes fit the buffer |
| CounterProcess.Process | examples/counter/applet/src/main/java/io/jcrpc/example/CounterJCApplet.java:23-65 | either 6E00 or 6700 with no dispatch and no send, or exactly one dispatch of the whole request with the header from before any receive, and exactly its reply or status word sent |
| JavaScanner.JavaHelperDeclaration | codegen/java_prune_helpers_test.go:40-57 | the loop finds the line of the first occurrence, taken left to right, that a member declaration precedes |
| JavaScanner.JavaHelperBlocks | codegen/java_prune_helpers_test.go:18-35 | the scan ends for every text, with the blocks that the specification function gives, in order |
| JavaScannerProofs.WalkStaysAhead | codegen/java_prune_helpers_test.go:61-75 | the backward walk over comments never crosses the end of the block before |
| JavaScannerProofs.BlocksAreOrderedLines | codegen/java_prune_helpers_test.go:18-75 | the blocks are in range, in order, disjoint and made of whole lines |
| JavaBlocks.BlocksAreIntroduced | codegen/java_prune_helpers_test.go:18-75 | every block, line by line: all comment lines directly above a declaration of the helper and no other line, the blank line above them if there is one, the declaration, and the lines to the first closing brace at member indentation |
| JavaHidden.EveryHelperIsCutIff | codegen/java_prune_helpers_test.go:18-57 | in every source every declaration of the helper that is ever closed lies inside a block, if and only if no declaration of the name can hide in an overlapping occurrence |
| JavaHidden.JavaNamesDoNotHide | codegen/java_prune_helpers_test.go:40-57 | that is so for every name without a space or without a parenthesis |
| JavaHidden.SpacedNameIsMissed | codegen/java_prune_helpers_test.go:40-57 | and is not for the name of a parenthesis and a space |
| JavaPrune.DeleteBlocks | codegen/gen_java_prune_test.go:93-96 | deleting back to front leaves the gaps between the blocks in order |
| JavaRest.RemainderIsUncut | codegen/gen_java_prune_test.go:91-98 | which are exactly the characters that are in no block, each in its place |
| JavaPrune.LinesAreKept | codegen/gen_java_prune_test.go:91-98 | what is left is a subsequence of the source's lines |
| JavaGlued.CalledMeansMentionedIff | codegen/gen_java_prune_test.go:89-98 | in every source the remainder mentions the helper if and only if the source does outside its blocks: this holds exactly for the names without a newline |
| JavaPrune.CodecHelperIsCalled | codegen/gen_java_prune_test.go:91-98 | the answer is whether the remainder contains the name with its parenthesis |
| Parity.CompareFiles | codegen/cmd/jcrpc-parity/main.go:116-135 | nil if and only if the maps are equal, otherwise the least differing path with both digests, for every order of the maps |
| Parity.OneLeastDrift | codegen/cmd/jcrpc-parity/main.go:126-133 | there is only one such report |
| InstallParams.HexToBytes | bridge/src/main/java/io/jcrpc/bridge/config/AppletConfig.java:48-56 | the bytes of each pair of characters, or the exception of an odd length |
| InstallParams.HexReadsBack | bridge/src/main/java/io/jcrpc/bridge/config/AppletConfig.java:48-56 | bytes printed as hex digits of either case are read back |
| InstallParams.BuildInstallParams | bridge/src/main/java/io/jcrpc/bridge/config/AppletConfig.java:32-46 | the moving offset fills exactly the layout |
| InstallParams.Install | bridge/src/test/java/io/jcrpc/bridge/TestCounterApplet.java:25-39 | the applet's offset walk, or the index error it runs into |
| InstallParams.WalkLands | bridge/src/test/java/io/jcrpc/bridge/TestCounterApplet.java:25-39 | the walk lands on the c9 length and data |
| InstallParams.InstallParamsRoundTrip | bridge/src/main/java/io/jcrpc/bridge/config/AppletConfig.java:28-46 | up to 127 bytes in all the seed is the big-endian c9 of two bytes, and 0 otherwise |
| InstallParams.WalkStepsOver | bridge/src/test/java/io/jcrpc/bridge/TestCounterApplet.java:25-39 | from any start, the walk steps over any identifier and any privileges |
| InstallParams.SeedReadsBack | bridge/src/test/java/io/jcrpc/bridge/TestCounterApplet.java:35 | a seed written as two bytes, the high one first, is the one meant |
| InstallParams.Create | bridge/src/main/java/io/jcrpc/bridge/card/DefaultCardProvider.java:27-33 | from the two strings of a configuration to the installed applet, or the exception of an odd length |
| InstallParams.ConfigurationRoundTrip | bridge/src/main/java/io/jcrpc/bridge/config/AppletConfig.java:28-46 | an identifier and a c9 of up to 124 bytes in all, written as hex strings, give the seed that the c9 means |
| InstallParams.SeedIsMeantIff | bridge/src/main/java/io/jcrpc/bridge/card/DefaultCardProvider.java:31-33 | beyond that exactly when the length byte of c9 cannot be taken for two |
| InstallParams.LongC9IsMistaken | bridge/src/test/java/io/jcrpc/bridge/TestCounterApplet.java:25-39 | a c9 of 258 bytes is taken for a two-byte seed |

## Left out

- The generated stream runtime and the Kotlin and Swift stream clients: their source is not part of this model.
- The language renderers: a plugin is any list of files, or an error.
- TOML decoding, the regular-expression engine and flag parsing: the model starts from raw schema values and from what flags came to. The fixed patterns are predicates on text.
- Sockets, threads and the card simulator: byte sequences, interleaved steps and an abstract card. Java's visibility guarantees are those of its monitors.
- The shutdown hook and `stop()`: they only close the listening socket.
- ClientHandler.Serve: a method that waits for ever has no postcondition, so calls into the card are observed for any given number of steps. It runs one handler with a session of its own.
- The rendered text of errors, paths and status messages: they are structured values. The error that `NormalizeSchema` returns among several is any one of them, as in the source.
- UTF-8: texts and names are sequences of characters, not bytes; names that are not valid UTF-8, which the path check refuses, do not occur. Go's string order on valid UTF-8 is the order of code points used here.
- Character.digit accepts digits of other scripts than ASCII; here they are no digits.
- Complaints.ReportIsExact: says which errors are in the list. Their order is that of `Validate`'s specification function; that none is listed twice is not stated.
- WireClient.ClientsGetTheirCardsResults: for operations that return with results that fit a frame; `ExceptionIsUnderstood` and `TooLongIsAnError` state one reply each for the others.
- File permissions, concurrent changes to the file system, case-folding file systems and separators other than "/": the path contract excludes them. An unreliable `FileSystem` may fail any operation.
- Links above the output root: the run is proved for directories that lead somewhere. Of one that is barred by a link only `BarredIsUntouched` is stated, not the exit code. Targets of links with ".." in them are not resolved.
- InstallParams.SeedIsMeantIff: for identifiers of up to 122 bytes, where ISO/IEC 7816-4 allows 16.
- Dispatch.ExpectedStreamDispatchRows: rows hold the configuration values themselves; the source prints them into a string.
- CounterProcess.Process: the dispatcher is any function of the requests so far instead of the generated switch, and exceptions of the transport itself are not modelled.
- CounterApplet: `onGetSpki`, `onGetImsi`, `onGetAppletInfo` and `onGetDisplayName` write constant data with the same `writeBytes`. The scratch buffer and the stored data are not reachable from outside, so no caller's buffer is one of them.
- InstallParams.WalkLands: for identifiers of up to 255 bytes; the simulator is taken to pass the parameters on as they are, and a null array is not modelled.
- The CLA channel table, `jcrpc-compat`, `jcrpc-mutants` and the rest of `jcrpc-parity`: finite tables or input and output.
