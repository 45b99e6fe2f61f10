# Verification of the Fabric package implementations

A Dafny model of six pieces of this repository that carry protocol, order or
arithmetic reasoning, with proofs of what they promise.

- **Loopback TCP** (`Loopback*.dfy`). A listener thread, any number of `accept`
  callers and one `start`/`stop` caller share two flags, a counter, a locked queue
  and a condition variable. `LoopbackMachine` is the transition system: one
  transition is one atomic access, one locked section, one park, one notification or
  one join, in the order of the source. `LoopbackInvariant` is its inductive
  invariant; `LoopbackTheorems`, `LoopbackProgress` and `LoopbackConnections` are the
  results over whole runs: delivery and the stop window, what ends and when, and what
  becomes of connections. `LoopbackTransport` is the program itself: a class whose
  methods store and load in source order and hand out connections that share its flag,
  with the other threads acting between any two accesses and each access being one
  transition.
- **HTTP/1 codec** (`Http*.dfy`, `TcpConnection.dfy`; `HttpTextTheorems` says what its
  text operations compute, told from their inputs alone). The incremental bounded
  request reader over a connection that may deliver any part of what it is asked
  for, the header fold, the response encoder, and a reader for encoded responses.
- **Catalog** (`Catalog*.dfy`). The generator, the strict validator and the index
  with reverse edges, each proved against a declarative rule, and how they agree.
- **Counter** (`Counter.dfy`), **bounded queue and its counting producer**
  (`ObservedQueue.dfy`), **SQLite connection lifecycle** (`Sqlite.dfy`,
  `SqliteState.dfy`) and **console log framing** (`Console.dfy`).

A concurrent piece appears twice: as a transition system, where runs of any number
of threads are reasoned about, and as a class, whose methods run the source's
statements while other threads may do anything the transition system lets them. In
those classes a method such as `LetOthersRun` has an empty body and a weak contract:
its callers know only what the contract says, so their proofs cover every
interference it allows (`OthersCoverRuns`, `OthersCoversRuns`). `dafny verify
dfyconfig.toml` checks the whole project.

## Where code and documentation disagree

The model follows the code.

- `packages/networking/tcp/README.md:68-71` says stopping unblocks waiting accept
  calls. `stop` stores its flag and notifies without holding the queue lock, so an
  `accept` that loaded the flag as false just before the store can park after the
  last notification. `StopStrandsExactly` gives the exact condition, which is about
  the state at the first store of `stop`, and `WindowIsReachable` a run that meets it.
  `NotifiedAcceptReturns` and `StopLeavesAtMostTheWindowThread` say what does hold.
- `packages/networking/tcp/README.md:63-64` says stale connection operations fail
  with `Stopped` after the owning generation stops. The liveness flag belongs to the
  transport, not to the generation: a stale connection fails exactly until a later
  `start` has raised the flag, and again once that generation has cleared it
  (`OperationsPassExactly`, `StoppedConnectionsFail`). `StaleConnectionPasses` is a run
  in which one passes.
- The response encoder (`packages/networking/http/src/codec.rs:165-201`) writes a
  Content-Length and a body for every status and lets a caller's Transfer-Encoding
  through. A reader following section 6.3 of RFC 9112 recovers the body exactly under
  the condition in `BodyRoundTripExactly`; `BodyOfNoContentIsLeftOver` and
  `ChunkedBodyIsUnreadable` are responses where it does not.
- A catalog the generator makes need not pass the repository's own validator
  (`tools/catalog/src/discovery.rs:12-79`, `tools/catalog/src/validation.rs:7-51`);
  `GeneratedIsValidExactly` gives the condition on the Cargo metadata, and
  `BackslashIsDiscoveredNotValid` workspaces that fail it.

## Model

| member | source | states |
|---|---|---|
| LoopbackInvariant.ActionKeepsInv | packages/networking/tcp/src/loopback/mod.rs:55-184 | Every transition of every thread keeps the invariant: flags against lifecycle position, place of the listener, no lost wakeup, conservation of streams, and who may still park after the stop store |
| LoopbackTheorems.ParkedAcceptMissesNoStream | packages/networking/tcp/src/loopback/mod.rs:59-73 | No lost wakeup on delivery: with a parked accept, the queue is no longer than the awake accepts plus the notification owed; with neither it is empty |
| LoopbackTheorems.WaitingIsJustified | packages/networking/tcp/src/loopback/mod.rs:61-72 | In every run an accept waits only after it has, under one hold of the lock, found the queue empty and then loaded the stop flag as false |
| LoopbackTheorems.WaitsAreCounted | packages/networking/tcp/src/loopback/mod.rs:72 | The recorded waits of a thread are its waits in the run, so none can be left out or made up |
| LoopbackTheorems.StreamsAreConserved | packages/networking/tcp/src/loopback/mod.rs:117-138 | Streams leave in push order, none lost or duplicated; the counter is returned plus queued plus dropped plus at most one in flight, and after `stop` returned plus dropped, modulo the word size |
| LoopbackTheorems.GenerationsAreIsolated | packages/networking/tcp/src/loopback/mod.rs:96-184 | The flag is up exactly from its store in `start` to its clear in `stop` or by the ending listener of the same generation, whatever earlier generations' threads did; a stopped state has an empty queue, no address and no listener |
| LoopbackConnections.OperationsPassExactly | packages/networking/tcp/src/loopback/mod.rs:62-67 | In every reachable state an operation on a connection of any generation passes its check exactly while the flag is up: always until its own generation clears the flag, and from then on if and only if a later `start` has raised it |
| LoopbackConnections.StoppedConnectionsFail | packages/networking/tcp/src/loopback/mod.rs:147-184 | In every run from a stopped flag up to the next `start`, every operation on every connection, old or handed out meanwhile, fails |
| LoopbackConnections.RestartRevivesOldConnections | packages/networking/tcp/src/loopback/mod.rs:96-97 | From every state in which `stop` has returned, some run of the next `start` makes all connections handed out before, which fail now, pass again |
| LoopbackConnections.StaleConnectionPasses | packages/networking/tcp/src/loopback/mod.rs:96-97 | A reachable state of the second generation in which a connection accepted in the first passes its check |
| LoopbackTheorems.NotifiedAcceptsNeverParkAgain | packages/networking/tcp/src/loopback/mod.rs:139-175 | Every accept parked when either `notify_all` fires wakes and does not park again before the next `start`, in any run |
| LoopbackProgress.NotifiedAcceptReturns | packages/networking/tcp/src/loopback/mod.rs:61-72 | Every accept parked when either `notify_all` fires has returned, with a queued stream or `Stopped`, in every run of the same generation in which its thread takes two more steps |
| LoopbackTheorems.StopLeavesAtMostTheWindowThread | packages/networking/tcp/src/loopback/mod.rs:147-175 | After `stop` at most one accept is parked, and it is the one that held the lock past a false load when the flag was stored |
| LoopbackTheorems.StopStrandsExactly | packages/networking/tcp/src/loopback/mod.rs:147-184 | Some whole `stop` from this state leaves an accept parked if and only if at its first store an accept is between its false load and its park and the listener is not between its last check and its push |
| LoopbackTheorems.StrandingSchedule | packages/networking/tcp/src/loopback/mod.rs:61-72 | From every state in the window, a run of `stop` after which that accept is still parked |
| LoopbackConnections.WindowIsReachable | packages/networking/tcp/src/loopback/mod.rs:61-72 | The window is met in the first generation, and from there some `stop` strands the accept |
| LoopbackTheorems.AtMostOneLatePush | packages/networking/tcp/src/loopback/mod.rs:117-130 | After the stop store the listener pushes one more stream exactly when it was past its last check at the store, and never a second |
| LoopbackTheorems.StopRankFalls | packages/networking/tcp/src/loopback/mod.rs:117-184 | During `stop` each step of `stop` or the listener lowers a rank that no other thread changes |
| LoopbackTheorems.StopNeverDeadlocks | packages/networking/tcp/src/loopback/mod.rs:147-184 | `stop` can always go on, or waits for a listener that can go on or for a lock whose holder can |
| LoopbackProgress.StopIsBounded | packages/networking/tcp/src/loopback/mod.rs:147-184 | From the second store of `stop` to its return, no run contains more steps of `stop`, the listener and the accept callers than a rank of the state, and one is always enabled |
| LoopbackProgress.StopCanFinish | packages/networking/tcp/src/loopback/mod.rs:147-184 | From every state of `stop` some run completes it |
| LoopbackTransport.OthersCoverRuns | packages/networking/tcp/src/loopback/mod.rs:55-184 | The interference allowed to each method covers every run of the other threads |
| LoopbackTransport.LoopbackTransport.Start | packages/networking/tcp/src/loopback/mod.rs:77-145 | Under interference, `start` on a bindable address ends with flag up, stop flag down, the bound address and a new generation; a failed bind changes nothing |
| LoopbackTransport.LoopbackTransport.RequestStop | packages/networking/tcp/src/loopback/mod.rs:147-178 | Under interference, `stop` reaches the join with both flags set for stopping and nobody parked but the window thread |
| LoopbackTransport.LoopbackTransport.FinishStop | packages/networking/tcp/src/loopback/mod.rs:167-184 | After the join `stop` ends with empty queue, no address, and a counter equal to returned plus dropped |
| LoopbackTransport.LoopbackTransport.Accept | packages/networking/tcp/src/loopback/mod.rs:55-73 | Under interference, the pop that is the n-th of a generation returns a connection over the n-th stream pushed, sharing the flag and recorded for that generation; `Stopped` only on a dead flag or on an empty queue with the stop flag set; a call still waiting after n passes has waited n times |
| LoopbackTransport.LoopbackTransport.AcceptRound | packages/networking/tcp/src/loopback/mod.rs:61-72 | One pass of the accept loop, with the same guarantees; a pass that returns nothing has waited exactly once and leaves the thread awake in the loop, and any other has not waited |
| LoopbackTransport.LoopbackTransport.ListenerRound | packages/networking/tcp/src/loopback/mod.rs:117-141 | One pass of the listener loop takes exactly one event and counts and pushes exactly the stream of a connection, or ends the thread with nothing pushed, the flag down and every waiter awake |
| LoopbackTransport.LoopbackTransport.Connect | packages/networking/tcp/src/loopback/mod.rs:48-53 | Under interference, a call that found the flag up hands out the dialed socket, sharing the flag, as a connection of the generation whose flag it loaded, or fails only when there is no socket; `NotStarted` only while the flag is down |
| LoopbackTransport.LoopbackTransport.ConnectionFollowsLifecycle | packages/networking/tcp/src/loopback/mod.rs:192-207 | The flag inside every connection handed out is up exactly when the lifecycle of the transport says so |
| LoopbackTransport.LoopbackTransport.Read | packages/networking/tcp/src/connection.rs:86-102 | Reading from a connection handed out fails with `Stopped`, consuming nothing, while the lifecycle has the flag down; a successful read delivers the next bytes, and none only at the end of the stream or when none were asked for |
| LoopbackTransport.LoopbackTransport.Write | packages/networking/tcp/src/connection.rs:56-65 | Writing to a connection handed out fails with `Stopped` if and only if the lifecycle has the flag down, and then writes nothing; success appends exactly the bytes |
| TcpConnections.TcpConnection.ReadSome | packages/networking/tcp/src/connection.rs:86-102 | Delivers a part of the stream no longer than asked, in order; an empty result means zero bytes were asked or the stream has ended |
| TcpConnections.TcpConnection.WriteAll | packages/networking/tcp/src/connection.rs:56-65 | Writes all or reports; nothing is written on a stopped generation |
| HttpRequestReader.ShorterPrefixIsPartial | packages/networking/http/src/codec.rs:14-45 | For an incremental head parser, a buffer without the whole head is always partial |
| HttpRequestReader.ReadHttpRequest | packages/networking/http/src/codec.rs:8-150 | However `read_some` splits the stream, the request or error kind is that of one-shot decoding with the head limited to `max_head_bytes`; the calls ask for what is left of the head limit in pieces of at most 1024 bytes, then of the body in pieces of at most 8192, never for nothing; at most both limits together are consumed, and nothing past the body |
| HttpRequestReader.ReadHead | packages/networking/http/src/codec.rs:13-45 | The first loop ends with what one look at the whole head window tells, having consumed at most `max_head_bytes` |
| HttpRequestReader.ReadBody | packages/networking/http/src/codec.rs:128-141 | The second loop never reads past the needed length and fails exactly when the stream is shorter |
| HttpRequestReader.DecodeAcceptsExactly | packages/networking/http/src/codec.rs:8-150 | One-shot decoding returns a request if and only if the stream holds it: a complete head within the limit with method, target and version 1.0 or 1.1, acceptable headers, and the declared number of body bytes, within the limit, right behind the head |
| HttpRequestReader.LaterBytesAreIgnored | packages/networking/http/src/codec.rs:128-150 | A decoded request does not depend on bytes behind it or on how the stream ends |
| HttpRequestReader.ScanHeadIsIncremental | packages/networking/http/src/codec.rs:16-18 | The assumptions on the head parser are met by a concrete parser |
| HttpTextTheorems.ParsesExactly | packages/networking/http/src/codec.rs:79-85 | A text is parsed as n if and only if n fits a machine word and the text is an optional plus, any zeros and n in decimal |
| HttpTextTheorems.TrimExactly | packages/networking/http/src/codec.rs:80 | Trimming takes exactly the Unicode white space off both ends, until there is none |
| HttpTextTheorems.ValidExactly | packages/networking/http/src/codec.rs:73-78 | Bytes are valid if and only if they are the UTF-8 form of Unicode scalar values |
| HttpTextTheorems.SameNameExactly | packages/networking/http/src/codec.rs:79 | Names agree if and only if they differ at most in the case of ASCII letters |
| HttpTextTheorems.SplitOfJoined | packages/networking/http/src/codec.rs:100 | Splitting finds exactly the parts between the separators |
| HttpTextTheorems.BlankLineIsFirst | packages/networking/http/src/codec.rs:165-201 | The first blank line is the first occurrence of CRLFCRLF |
| HttpRequestHead.DeclaredLengthExactly | packages/networking/http/src/codec.rs:79-85 | A Content-Length value declares n if and only if it is n in decimal with white space around it and n fits a machine word |
| HttpRequestHead.OtherEncodingExactly | packages/networking/http/src/codec.rs:99-110 | A Transfer-Encoding list is refused if and only if some part is neither blank nor `identity`, in any case and with white space around it |
| HttpRequestReader.BodyHasStatedLength | packages/networking/http/src/codec.rs:115-150 | A decoded request has as many body bytes as each of its Content-Length headers states in decimal |
| HttpRequestReader.NoLengthNoBody | packages/networking/http/src/codec.rs:115-126 | A decoded request without Content-Length has no body |
| HttpRequestReader.OpenAcceptsExactly | packages/networking/http/src/codec.rs:46-126 | A complete head is accepted exactly with method, target, version 1.0 or 1.1 and acceptable headers, and is an unsupported version exactly for a later one |
| HttpRequestHead.FoldHeaders | packages/networking/http/src/codec.rs:70-113 | The header loop computes the specified fold |
| HttpRequestHead.FoldAcceptsExactly | packages/networking/http/src/codec.rs:70-113 | The fold accepts a header list if and only if every value is UTF-8, all Content-Length values parse and agree and no other transfer encoding is named; it keeps the named headers and returns the declared length |
| HttpRequestHead.HeaderOrderIsIrrelevant | packages/networking/http/src/codec.rs:70-126 | Permuting the headers changes neither acceptance nor the body length |
| HttpResponses.EncodeHttpResponse | packages/networking/http/src/codec.rs:165-236 | The encoder rejects exactly responses with an invalid status, reason, header name or value, and otherwise returns the specified bytes |
| HttpResponses.EncodableExactly | packages/networking/http/src/codec.rs:203-236 | The encoder accepts exactly codes 100 to 999, a given reason and values without CR and LF, and names of printable ASCII characters other than a colon |
| HttpResponses.HeadRoundTrip | packages/networking/http/src/codec.rs:165-201 | A line reader recovers version, three-digit status, effective reason and every field of an encoded response, whatever follows it |
| HttpResponses.ReasonIsRead | packages/networking/http/src/codec.rs:167-178 | The reason read back is the caller's as given, and otherwise the standard phrase of the code, letter by letter |
| HttpResponses.OwnNamesAreSpelled | packages/networking/http/src/codec.rs:173-199 | The field names and version texts the encoder writes, letter by letter |
| HttpResponses.HeadEndsAtFirstBlankLine | packages/networking/http/src/codec.rs:165-236 | The first CRLFCRLF of an encoded response is exactly the end of its head: no accepted reason, name or value can forge one |
| HttpResponses.PassedDropsOnlyContentLength | packages/networking/http/src/codec.rs:180-195 | Each caller header is passed through as often as given, except Content-Length, which never is |
| HttpResponses.EncoderOwnsTheLength | packages/networking/http/src/codec.rs:185-196 | The fields carry exactly one Content-Length and it is the length of the body, whatever the caller gave |
| HttpResponses.EncoderAddsOnlyConnection | packages/networking/http/src/codec.rs:188-199 | The Connection values of the encoding are the caller's, in order, or exactly one `close` when the caller gave none |
| HttpResponses.EncoderKeepsCodings | packages/networking/http/src/codec.rs:180-199 | The transfer codings a reader sees are the caller's, none added or removed |
| HttpResponses.ChunksTakeMore | packages/networking/http/src/codec.rs:198-200 | A chunked body takes more bytes than it yields, so the plain body the encoder writes is never one |
| HttpResponses.BodyRoundTripExactly | packages/networking/http/src/codec.rs:165-201 | A reader by section 6.3 of RFC 9112 gets the body and stops right behind it if and only if: for 1xx, 204 and 304 the body is empty; without Transfer-Encoding always; with one, its final coding is not `chunked` and nothing follows until the close |
| HttpResponses.BodyOfNoContentIsLeftOver | packages/networking/http/src/codec.rs:196-200 | A body sent with 204 is left on the connection in front of whatever follows |
| HttpResponses.ChunkedBodyIsUnreadable | packages/networking/http/src/codec.rs:180-200 | With a caller's `Transfer-Encoding: chunked` no body is recovered |
| HttpResponses.WriteHttpResponse | packages/networking/http/src/codec.rs:152-163 | Success means the connection got exactly the encoding; an invalid response writes nothing |
| CatalogModel.ClassifyInvertsLayout | tools/catalog/src/discovery.rs:104-137 | Classification by shape is the exact inverse of the layout of artifact paths |
| CatalogValidation.ClassificationIsExact | tools/catalog/src/validation.rs:204-252 | The validator's classification returns a kind and category if and only if the text is the canonical path of such an artifact and the schema knows the kind |
| CatalogValidation.ValidateArtifact | tools/catalog/src/validation.rs:78-154 | Accepts exactly the artifacts whose path, kind, category, name, version, description and README agree |
| CatalogValidation.ValidateDependencyGroup | tools/catalog/src/validation.rs:156-196 | Accepts exactly strictly increasing groups whose entries are all artifact paths |
| CatalogValidation.ValidateCatalogIndex | tools/catalog/src/validation.rs:7-51 | Returns Ok if and only if the version is known, paths strictly increase, packages are distinct, every artifact is well-formed and every group increases and resolves; a refusal names something that is wrong |
| CatalogTheorems.VersionsDifferInInstances | tools/catalog/src/validation.rs:59-68 | No version but 1 and 2 is valid, and an index valid as version 2 is valid as version 1 exactly when it has no instances |
| CatalogDiscovery.DependencyProjection | tools/catalog/src/discovery.rs:201-224 | The projection loop computes the specified groups, sorted and without duplicates |
| CatalogDiscovery.PushedElements | tools/catalog/src/discovery.rs:205-215 | A group holds exactly the paths of cataloged members named by dependencies of that kind |
| CatalogTheorems.GroupsFollowKinds | tools/catalog/src/discovery.rs:205-215 | In every catalog a path is in the normal, development or build group of an entry if and only if its package names the member there in a dependency with no kind, kind `dev` or kind `build`; other kinds add nothing |
| CatalogTheorems.ArtifactPathExactly | tools/catalog/src/discovery.rs:81-93 | A package lies at the text of what leads from the workspace root to the directory of its manifest, and has no place exactly when the manifest has no parent or lies outside |
| CatalogTheorems.SlashStringExactly | tools/catalog/src/discovery.rs:226-234 | The text of a path joins its ordinary components and skips all others |
| CatalogTheorems.ClassifyPathExactly | tools/catalog/src/discovery.rs:104-137 | A path of the shape of an artifact is cataloged as such, one below no catalog root is ignored, and the rest are errors |
| CatalogText.SortDedup | tools/catalog/src/discovery.rs:217-222 | Sorting and removing duplicates gives the increasing sequence of the same elements |
| CatalogText.LessExactly | tools/catalog/src/validation.rs:22 | Texts are ordered by the first character in which they differ, a prefix before what it starts |
| CatalogText.BlankExactly | tools/catalog/src/discovery.rs:50 | A description is blank if and only if it has only characters with the White_Space property |
| CatalogDiscovery.ClassifyPackages | tools/catalog/src/discovery.rs:23-41 | Succeeds exactly when every package has a place and no two cataloged ones share it; both maps then describe the members |
| CatalogDiscovery.DiscoverCatalog | tools/catalog/src/discovery.rs:12-79 | Discovery succeeds if and only if the workspace is discoverable, and then lists exactly the entries of the cataloged members in path order; a refusal names something that is wrong |
| CatalogTheorems.CatalogIsUnique | tools/catalog/src/discovery.rs:45-78 | A workspace has at most one catalog |
| CatalogTheorems.DiscoveryIgnoresOrder | tools/catalog/src/discovery.rs:12-79 | Permuting packages, dependency lists and found manifests changes neither success nor the index |
| CatalogTheorems.GeneratedIsValidExactly | tools/catalog/src/validation.rs:7-51 | A generated index passes the validator if and only if every cataloged member has a non-empty name and version and no backslash in its path |
| CatalogTheorems.BackslashIsDiscoveredNotValid | tools/catalog/src/validation.rs:204-226 | A host in a directory with a backslash is discovered, and no catalog of it passes the validator |
| CatalogQuery.Catalog.FromValidated | tools/catalog/src/query.rs:57-70 | On a validated index both maps agree with a linear search |
| CatalogQuery.Catalog.ArtifactByPath | tools/catalog/src/query.rs:80-85 | Finds the one artifact at a path exactly when there is one |
| CatalogQuery.Catalog.ArtifactByCargoPackage | tools/catalog/src/query.rs:87-95 | Finds the one artifact of a package exactly when there is one |
| CatalogQuery.Catalog.DirectDependencies | tools/catalog/src/query.rs:113-115 | Returns the dependencies of the only artifact at the path |
| CatalogQuery.Catalog.DirectDependents | tools/catalog/src/query.rs:117-138 | Returns the reverse edges of a known path, strictly ordered by dependent path and kind |
| CatalogQuery.EachEdgeOnce | tools/catalog/src/query.rs:117-131 | On a validated catalog an artifact and kind are listed exactly once if the artifact declares the edge, and otherwise not at all |
| CatalogQuery.FinalSortIsIdentity | tools/catalog/src/query.rs:132-137 | The sort at the end of the query leaves the list unchanged |
| CatalogText.SortBySorts | tools/catalog/src/query.rs:132-137 | Sorting by a strict order reorders its input into that order |
| CatalogQuery.EdgesCountedBothWays | tools/catalog/src/query.rs:117-138 | The dependents over all paths number the same as the dependency entries over all artifacts |
| Counter.InMemoryCounterState.Increment | packages/observability/counter/src/memory.rs:15-32 | Whatever other callers do, the loop ends; an update adds exactly its amount to what they add and reports the value it left; an overflow adds nothing and stays true |
| Counter.ActionKeepsInv | packages/observability/counter/src/memory.rs:15-32 | Every step of every caller keeps the invariant and never lowers the value |
| Counter.NoIncrementIsLost | packages/observability/counter/src/memory.rs:15-32 | In every run the value is the sum of the amounts reported as updated and fits 64 bits |
| Counter.UpdatesAreLinearized | packages/observability/counter/src/memory.rs:22-29 | Each reported update is the total at its place in the order of updates |
| Counter.OverflowStaysTrue | packages/observability/counter/src/memory.rs:18-23 | A reported overflow is still one in every later state |
| Counter.RetryMeansProgressElsewhere | packages/observability/counter/src/memory.rs:24-30 | A retry continues with a strictly larger value, because another call completed a positive update since the last look |
| ObservedQueue.InMemoryQueue.TryReceive | packages/messaging/queue/src/memory.rs:41-48 | Over any run of sends and receives, the n-th payload received is the n-th accepted, and an empty answer means all accepted ones were received |
| ObservedQueue.ObservedQueueProducer.SendObserved | examples/observed-queue/src/app.rs:29-40 | While other threads send, receive and count at any point, one call adds exactly one acceptance or one refusal to theirs, as it reports, and takes nothing; an accepted payload has a place behind all accepted before; the counter of the outcome gets one more than others add unless it is at its limit, and the other counter only what others add |
| ObservedQueue.ActionConserves | packages/messaging/queue/src/memory.rs:24-57 | Every send, count and receive keeps conservation |
| ObservedQueue.CallersNeverBlock | packages/messaging/queue/src/memory.rs:24-57 | In every state each thread can count or send, and a receive is possible |
| ObservedQueue.OutcomesAreConserved | examples/observed-queue/src/app.rs:29-48 | In every interleaving accepted payloads are the received ones followed by the queued ones, the depth is bounded, and the counters are the outcomes minus the calls in between, up to the 64-bit limit |
| Sqlite.ActionKeepsInv | packages/data/sqlite/src/state.rs:15-64 | Every step of every call and of `start` and `stop` keeps the invariant |
| Sqlite.OperationsUseTheOpenConnection | packages/data/sqlite/src/state.rs:28-34 | An operation runs alone, on the connection in the slot, never on a closed one, and never from the take in `stop` to the next placement |
| Sqlite.ConnectionsCloseOnce | packages/data/sqlite/src/state.rs:36-64 | No connection is closed twice, and after `stop` every connection opened is closed |
| Sqlite.QuietCallsAreDecided | packages/data/sqlite/src/state.rs:15-34 | A call overlapping no `start` or `stop` returns what the last completed one calls for |
| Sqlite.CallsReturnOnce | packages/data/sqlite/src/state.rs:15-34 | A call ends exactly in the step that reports its outcome, and can always go on unless another call holds the lock |
| Sqlite.ReportIsRightExactly | packages/data/sqlite/src/state.rs:15-34 | At rest, a call, quiet or not, reports what the last completed lifecycle event calls for if and only if it ran its operation, or the database is stopped and the call read the stopped flag or the database was never started |
| Sqlite.LateLockReportsNotStarted | packages/data/sqlite/src/state.rs:28-33 | A reachable state in which an overlapping call reports `NotStarted` although the database was started and stopped |
| Sqlite.LifecycleWaitsForOneCall | packages/data/sqlite/src/state.rs:36-57 | `start` and `stop` wait only for the operation in progress, which can finish |
| SqliteState.OthersCoversRuns | packages/data/sqlite/src/state.rs:15-64 | The interference allowed to each method covers every run of the other threads |
| SqliteState.SqliteDatabaseState.MarkStarted | packages/data/sqlite/src/state.rs:36-46 | Under interference, ends with the connection placed and the flags up |
| SqliteState.SqliteDatabaseState.Stop | packages/data/sqlite/src/state.rs:48-64 | Under interference, ends with the slot empty, the flags down and the one connection that was placed closed |
| SqliteState.SqliteDatabaseState.WithConnection | packages/data/sqlite/src/state.rs:15-34 | Under interference, an operation runs on the placed, unclosed connection; a call overlapping no lifecycle step returns what the last completed event calls for |
| Console.EscapeIsOnePass | packages/observability/logging/src/console.rs:36-38 | The two replacement passes equal a single map over the characters |
| Console.EscapedIsOneLine | packages/observability/logging/src/console.rs:36-38 | Escaped text has no line break, and text without one is unchanged |
| Console.FormattedIsOneLine | packages/observability/logging/src/console.rs:40-52 | A formatted record is one line whatever its prefix, target and message contain |
| Console.LineLayout | packages/observability/logging/src/console.rs:40-52 | The line of texts without line breaks, letter by letter, with and without prefix and target, for each level |
| Console.RoutingExactly | packages/observability/logging/src/console.rs:28-34 | A record goes nowhere below the minimum level, otherwise to the error stream from the threshold up and to the standard stream below it |
| Console.LineTellsTheRecord | packages/observability/logging/src/console.rs:40-52 | Equal lines have equal levels, and agree on the escaped message if and only if they agree on the target |
| Console.LineIsAmbiguousExactly | packages/observability/logging/src/console.rs:40-52 | Some record with another target text gives the same line if and only if the record has a target or its escaped message contains a colon and a space |
| Console.TargetEndIsAmbiguous | packages/observability/logging/src/console.rs:44-52 | For every text around a colon, two records with different targets and messages give the same line |
| Console.WriteLine | packages/observability/logging/src/console.rs:54-59 | Succeeds exactly when the writer takes the line and its newline; otherwise the writer holds what it took |
| Console.WriteConsoleRecord | packages/observability/logging/src/console.rs:61-75 | A record adds its line to the stream it is routed to and nothing to the other; a filtered one adds nothing |
| Console.OneRecordPerLine | packages/observability/logging/src/console.rs:28-75 | Over a run, splitting a stream at newlines gives exactly the lines of the unfiltered records routed there, in order |
| Console.EmitAll | packages/observability/logging/src/console.rs:61-75 | A run of emissions succeeds exactly when both writers take all of it, and then leaves on each exactly the stream that `OneRecordPerLine` splits |

## Left out

- The Fabric framework (resources, adapters, components, compositions, instances): adapter bodies are plain methods; `start` and `stop` of one state alternate and are serialized.
- Failing `start` of the loopback transport before its first store (non-loopback host, bind error) is `Start` with no address; address parsing itself is not modelled.
- Operating-system sockets: the listener takes an arbitrary stream of connections and accept errors, and the connection `stop` makes to its own listener is taken to deliver one event while the socket is open.
- Accept: the loop of this method is observed for an arbitrary number of passes, because it ends by itself only when a stream or a stop is seen.
- RequestStop: `stop` is split at the join into this method and `FinishStop`; that `stop` gets past the join as long as enabled steps keep being taken is `StopIsBounded`.
- Lock poisoning, panics while holding a lock, and memory orderings weaker than sequential consistency (the source uses none).
- `httparse` is an abstract function; assumed are a head length within the buffer and verdicts that stay when bytes are appended.
- Numbers in headers follow Rust's trimming and `usize` parsing, which accepts a leading plus sign; overflow of head length plus body length is not modelled.
- A generation stopped while a request is being read is an ending of the stream, not a change of the flag between two reads.
- Connection operations `read_to_end`, `shutdown_write` and `shutdown_both`: one liveness check before a system call, like those modelled.
- The response reader has no request at hand, so responses to HEAD and CONNECT (rules 1 and 2 of section 6.3 of RFC 9112) are outside it, and so is the rule of section 6.1 that a message of version 1.0 with a Transfer-Encoding has faulty framing.
- Error texts: only error kinds are compared.
- Discovery takes the `Cargo.toml` files found below the catalog roots and the existence of README files as inputs; path prefixes of Windows and names that are not UTF-8 are not modelled.
- Sorting in discovery and in queries is a specified function on sequences, not an in-place sort; the order in which discovery reports one of several errors is not a property.
- Catalog command parsing, file and JSON input and output, rendering, and the filters by kind and category: single-branch code.
- In the transition system of the queue one increment of a counter is one step, as `UpdatesAreLinearized` allows.
- Opening a SQLite connection is one step that succeeds (a failed one changes nothing); SQL, value conversion and errors of closing are not modelled.
- Process runtime, host detection, signing, the memory key-value store, other examples and the compositions: wrappers.
