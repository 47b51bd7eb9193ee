# A verified model of the Frama-C MCP server

The server drives the Frama-C prover for a client that proves C functions one
at a time. This project models the parts of it whose correctness is not
visible in any one function, and proves what they promise:

- **Scheduling** (`CallGraph`, `Layering`, `TopologicalOrder`,
  `ReadyFunctions`, `Scheduling`, `ScheduleOfLists`): the callee-before-caller
  order over groups of mutually recursive functions, the separate test for
  functions that are ready, and the two as one schedule that never gets stuck.
- **Conclusions and coverage** (`ProofReceipts`, `Conclusions`,
  `ConclusionRuns`, `StoreMeaning`, `Persistence`, `PendingWrites`,
  `Coverage`): the store of proof conclusions with the staleness each update
  spreads, what holds in every reachable store, when the files on disk agree
  with it although they are written after the store is let go of, and the
  fixed point that uncovers callers of unproved functions.
- **Wire protocol** (`Codec`, `Utf8Text`, `Transport`, `Receiving`, `Client`,
  `ClientWaiting`, `ReloadFetch`): length-prefixed frames over a chunked stream
  with an absorbing poison flag, request ids against late replies, and
  reload-then-fetch over one global cursor in every interleaving of tasks.
- **Analysis** (`GoalDiff`, `GoalDiffProperties`, `GoalMatching`, `CallChain`,
  `Json`, `JsonText`, `PayloadSize`, `PayloadBudget`, `BudgetStages`,
  `Variants`, `VariantAnswers`, `WpLock`): the greedy comparison of two proof
  runs, the depth-bounded walk over the call graph, the response that must fit
  a byte cap and state its own size, the comparison of build configurations,
  and the lock and cancellation protocol around proof runs.
- **Annotations** (`Annotations`, `AnnotationOrigins`, `InjectionPlan`,
  `AnnotationKinds`): one tagged array fanned out into per-kind lists, planned,
  and every diagnostic mapped back to the entry it is about.

The modules `ScheduleOfLists`, `StoreMeaning`, `GoalMatching`, `BudgetStages`,
`VariantAnswers`, `AnnotationKinds`, `ClientWaiting` and `Receiving` say what
an operation means on what its caller hands in and gets back, without the
functions the operation is specified by; `JsonText` and `Utf8Text` give the
sizes and the byte table an independent definition.

Where the source changes state step by step, so does the model: the session
state, the connection, the client and the annotation parameters are classes,
the loops of the scheduler, the coverage pass, the goal comparison, the call
walk, the size recording and the label search are methods with invariants.
Each is tied to functions on values, and the theorems are about those.
Concurrent parts are state machines whose steps interleave freely. Helper
modules: `Outcomes`, `FiniteSets`, `Sorting`, `Numerals`, `Selection`.

Hash functions are function values about which nothing is assumed
(`Conclusions.Build`, `ProofReceipts.Build`); a `Run` or `events` argument is
an arbitrary sequence of steps, so a lemma about it is about every run.

## What the proofs found

- The order leaves out functions that are declared but have no body, the
  ready test waits for them. A caller of such a function reaches its turn and
  is never ready unless the caller of the server reports the library function
  as done. `Scheduling.NextInOrderIsReadyIff` gives the exact condition,
  `Scheduling.DeclaredOnlyCalleeBlocks` an instance.
- A function that lists itself among its callees is never marked stale for its
  own contract, in any reachable store (`ConclusionRuns.OwnContractNeverStale`),
  whether or not the hash it holds for itself is right.
  `ConclusionRuns.OwnHashIsCurrentIff` is the exact condition, for updates that
  list the callees and for those that do not, and
  `ConclusionRuns.OwnHashGoesWrongUnreported` two stores that leave the hash
  wrong with nothing reported.
- Conclusions are written out after the store is let go of, so two operations
  on one function can write in the other order and leave the older conclusion
  on disk: `Persistence.SwappedWritesLoseAnUpdate`. Whether that can happen is
  decided before the writes: `PendingWrites.EveryEndSettlesIff` is the exact
  condition on what is due, and `PendingWrites.ActKeepsCurrentIff` the exact
  guard an operation would have to pass to keep it: no entry it changes has a
  write due.
- A goal count is compared after a cast to 32 bits, so it is the number of
  goals exactly below 2^32 (`ProofReceipts.GoalCountIsTotalIff`); for every
  total there is an accepted receipt with 2^32 goals more
  (`ProofReceipts.CountWrapsAround`).
- Request ids and the cancel epoch are 64-bit counters, so "no stale answer"
  and "a cancel is always reported" hold up to a multiple of 2^64, exactly:
  `Client.StaleAcceptedIff`, `WpLock.CancelledIff`. The id counter is advanced
  by a plain addition (src/frama-c/client.rs:164), which wraps in a build
  without overflow checks; a build with them stops at that request instead.
- The wide frame form is written for payloads above 0xFFFFFFF bytes but the
  decoder's cap is one byte more, so one length only is ever accepted in it:
  `Codec.OnlyTheCapNeedsTheWideForm`.
- The lock order of the two transaction locks is documented as not machine
  checked (src/mcp/server.rs:2764-2792); for these two it is checked here:
  `WpLock.NoDeadlock`.

## Model

| member | source | states |
|---|---|---|
| `CallGraph.BuildGraph` | src/topo.rs:17-34 | Each vertex once; an edge for exactly the listed calls between declared functions, a function's call of itself included. |
| `CallGraph.StronglyConnected` | src/topo.rs:55-56 | The groups are exactly the classes of mutual reachability, each vertex in one. |
| `CallGraph.BelowShrinks` | src/topo.rs:39-92 | A one-way call path strictly shrinks what is reachable, which is why layering ends. |
| `Layering.ReleaseCallers` | src/topo.rs:77-87 | Every caller loses one outstanding callee, no counter underflows, and those at zero are released once. |
| `Layering.ReleaseLevel` | src/topo.rs:72-91 | The next level is exactly the groups nothing holds back any more, and each rests on the level before. |
| `Layering.LayerGroups` | src/topo.rs:58-91 | Terminates with every group placed exactly once, calls strictly descending, and each level supported by the one below. |
| `Layering.NobodyWaitsForever` | src/topo.rs:72-91 | When nothing is ready everything is placed: no group is left at its default level. |
| `Layering.LevelsAreHeights` | src/topo.rs:39-92 | A level is the length of the longest chain of calls below the group. |
| `Layering.LayeringUnique` | src/topo.rs:39-92 | There is only one such layering, whatever order groups were met in. |
| `TopologicalOrder.CondensationIsRanked` | src/topo.rs:55-66 | The condensation is acyclic, so Kahn's loop applies. |
| `TopologicalOrder.CycleTest` | src/topo.rs:98-101 | The recursion test is true exactly for members that lie on a cycle of calls. |
| `TopologicalOrder.NumberGroups` | src/topo.rs:93-109 | The groups carry their component, its level, sorted members and the exact cycle mark. |
| `TopologicalOrder.Renumber` | src/topo.rs:111-116 | Sorting by level and id and renumbering keeps every fact about the schedule. |
| `TopologicalOrder.FillLevels` | src/topo.rs:118-129 | Reading the buckets in order gives the groups back, and each bucket holds its own level. |
| `TopologicalOrder.ComputeTopologicalOrder` | src/topo.rs:39-130 | Components once each, exact levels, none empty, ids ascending; empty only for no vertices. |
| `ScheduleOfLists.ScheduleIsOfTheLists` | src/topo.rs:36-130 | On the vertex and edge lists alone: the groups are the classes of mutual recursion, members sorted and distinct, marked iff a call leads back, levelled strictly by their calls, ids ascending from 0. |
| `ScheduleOfLists.SelfCallIsRecursion` | src/topo.rs:45-52 | A declared function listed as calling itself is in a group marked recursive. |
| `TopologicalOrder.LevelIsHeight` | src/topo.rs:36-92 | The level printed for a group is its exact longest-path height. |
| `TopologicalOrder.CallsDescend` | src/topo.rs:36-92 | A call between two groups goes to a strictly lower level. |
| `TopologicalOrder.FlattenLevels` | src/topo.rs:138-165 | The nested loops give the defined members in level order and the groups reduced to them. |
| `TopologicalOrder.KeptGroupsAre` | src/topo.rs:138-165 | A group is kept iff it has a defined member, in the same sequence, with exactly its defined members and its id, level and cycle mark. |
| `TopologicalOrder.OrderListsTheKept` | src/topo.rs:138-165 | The order is what the kept groups list, one after the other. |
| `TopologicalOrder.KeptIdsAscend` | src/topo.rs:138-165 | The kept groups have strictly ascending ids and never descending levels. |
| `TopologicalOrder.FlattenedOrderIsBottomUp` | src/topo.rs:132-165 | Every defined function once, and only calls inside a component go forward. |
| `ScheduleOfLists.OrderIsOfTheLists` | src/topo.rs:132-165 | On the lists: the order has every declared and defined function once, and a listed call forward in it is between mutually recursive functions. |
| `ScheduleOfLists.KeptIsOfTheLists` | src/topo.rs:138-165 | On the lists: the groups kept have exactly the functions declared and defined, one group a class of mutual recursion, sorted, marked iff a call leads back, ids ascending. |
| `ReadyFunctions.TestMeetsRule` | src/topo.rs:216-226 | The loop's test is the documented rule: every callee done or mutually recursive. |
| `ReadyFunctions.ReadyEntries` | src/topo.rs:211-242 | The loop over the vertices makes one entry for exactly each ready one. |
| `ReadyFunctions.ComputeReadyFunctions` | src/topo.rs:186-244 | Exactly the ready functions, in name order, each with its component, each once if the vertices are distinct; recursive ones share an id iff they call each other. |
| `ScheduleOfLists.ReadyIsOfTheLists` | src/topo.rs:174-226 | On the lists: ready iff declared, neither done nor in progress, and every function it calls is done or mutually recursive with it. |
| `ScheduleOfLists.EntryIsOfTheLists` | src/topo.rs:226-244 | The recursion mark, the id and the members of an entry are those of its class of mutual recursion. |
| `Scheduling.NextInOrderIsReadyIff` | src/topo.rs:132-186 | With the order's prefix done, the next function is ready exactly when none of its callees outside its component is merely declared. |
| `Scheduling.SchedulersAgree` | src/topo.rs:132-244 | With all vertices defined the order lists each once and its next function is always ready. |
| `Scheduling.DeclaredOnlyCalleeBlocks` | src/topo.rs:132-244 | Two functions, one only declared, for which the schedulers disagree. |
| `Scheduling.NoDeadlock` | src/topo.rs:174-226 | If a vertex is not done, some vertex not done is in progress or ready. |
| `Scheduling.RunsStaySettled` | src/topo.rs:174-226 | At every step of every run, callees of done functions outside their component are done. |
| `Scheduling.RunsReachTheEnd` | src/topo.rs:174-226 | Any run of ready functions can be extended until all vertices are done, in exactly as many steps. |
| `ProofReceipts.ProofReceiptEvidenceError` | src/state.rs:23-244 | No error exactly when the receipt is evidence for the function and the total. |
| `ProofReceipts.GoalCountIsTotalIff` | src/state.rs:23-244 | An accepted receipt has as many goals as the summary claims iff they number below 2^32. |
| `ProofReceipts.CountWrapsAround` | src/state.rs:23-244 | For every total there is an accepted receipt with 2^32 goals more than that. |
| `ProofReceipts.OneDefectIsEnough` | src/state.rs:23-244 | Any one thing wrong with an otherwise accepted receipt, sealed again, is refused for that very reason. |
| `ProofReceipts.OneUnreadableFileIsEnough` | src/state.rs:91-115 | So is one file without a path or a digest, wherever it stands. |
| `ProofReceipts.EditedReceiptIsRefused` | src/state.rs:48-85 | An accepted receipt changed under its seal is refused unless the digests collide. |
| `Conclusions.SessionState.StoreConclusion` | src/state.rs:1243-1373 | Refused with nothing changed, or the store becomes exactly the specified one and the touched names are returned. |
| `Conclusions.SessionState.PropagateEnvironment` | src/state.rs:1299-1328 | In whatever map order, every other entry's environment staleness is refreshed and the moved ones are listed once. |
| `Conclusions.SessionState.PropagateDependencies` | src/state.rs:1330-1371 | In whatever map order, every caller's staleness for the function is refreshed and the moved ones are listed once. |
| `Conclusions.RefreshDependency` | src/state.rs:1337-1369 | One entry's refresh, its demotion from verified, and whether it moved. |
| `Conclusions.SessionState.OnSandboxCreated` | src/state.rs:1468-1491 | A fresh sandbox resets the sandbox fields and puts a finalized status back to in progress; receipt and summary stay; a missing entry is made. |
| `Conclusions.SessionState.OnAnnotationAdded` | src/state.rs:1493-1500 | The count saturates at its 32-bit maximum and the sandbox is no longer clean. |
| `Conclusions.SessionState.OnSandboxDeleted` | src/state.rs:1502-1506 | Only the deletion mark changes. |
| `ConclusionRuns.StoreKeepsInv` | src/state.rs:1243-1373 | An accepted store keeps every entry's staleness exact, its callee keys exact, and verified entries supported. |
| `ConclusionRuns.RunKeepsInv` | src/state.rs:1243-1506 | So does every run of stores and sandbox events. |
| `ConclusionRuns.StalenessIsExact` | src/state.rs:1281-1288 | In every reachable store f is stale for another function g, once and with both hashes right, iff g's specs no longer hash to what f recorded; recorded keys are the callees. |
| `ConclusionRuns.VerifiedIsSupported` | src/state.rs:1376-1418 | Every reachable verified conclusion has no staleness, a fully valid non-zero summary and an accepted receipt. |
| `ConclusionRuns.EnvironmentStaleIff` | src/state.rs:1299-1328 | An entry with a receipt is environment-stale iff its environment differs from that of the last store with a receipt. |
| `ConclusionRuns.OwnContractNeverStale` | src/state.rs:1281-1371 | In every reachable store, no stale entry of a function names that function. |
| `ConclusionRuns.OwnHashIsCurrentIff` | src/state.rs:1281-1297 | After any accepted update of a function among its own callees, the hash it holds for itself is right iff the new specs hash to what the old ones did (callees listed) or to what was recorded before (not listed). |
| `ConclusionRuns.OwnHashOnlyChangesByItself` | src/state.rs:1281-1506 | No other operation changes the hashes a function holds, or the hash of its specs. |
| `ConclusionRuns.OwnHashGoesWrongUnreported` | src/state.rs:1281-1371 | Three stores of one function: right, then wrong with nothing stale, then right again though the contract changed. |
| `ConclusionRuns.TouchedIsTheFrame` | src/state.rs:1290-1373 | Apart from the function stored, an entry changed iff it is in the touched set. |
| `ConclusionRuns.TouchedAreListedOnce` | src/state.rs:1290-1373 | The list starts with the stored function and names another entry once for each of its two marks that moved. |
| `StoreMeaning.StoreRecordsTheUpdate` | src/state.rs:1243-1297 | Field by field: each field is the update's where it has one and the earlier one otherwise; accepted iff the result is not verified or has everything that takes, and refused with nothing changed. |
| `StoreMeaning.RefusalIsTrue` | src/state.rs:1376-1418 | The reason given for a refusal is true of the entry asked for. |
| `StoreMeaning.OthersAreDemotedIff` | src/state.rs:1299-1369 | In every reachable store, a verified conclusion of another function goes to in progress iff the update leaves it stale; every other status, and all that was reported, stays. |
| `StoreMeaning.SupportedIsVerified` | src/state.rs:1243-1418 | A report of "verified" with a fully valid run and its receipt is recorded as verified. |
| `StoreMeaning.AnyFunctionCanBeVerified` | src/state.rs:1243-1418 | There is such a report for every function, from the empty store. |
| `StoreMeaning.OtherVerdictsAreRecorded` | src/state.rs:1243-1263 | Any other reported status is recorded as it is. |
| `StoreMeaning.SandboxStartsOver` | src/state.rs:1468-1491 | A new sandbox: clean, undeleted, no annotations, the given statement count, in progress; evidence and other functions untouched. |
| `StoreMeaning.AnnotationsAreCounted` | src/state.rs:1468-1500 | So many annotations after that are counted up to the largest 32-bit number, and the sandbox is clean iff there were none. |
| `StoreMeaning.DeletionIsMarked` | src/state.rs:1502-1506 | Deletion sets its mark and changes nothing else. |
| `ConclusionRuns.DiskFollowsMemory` | src/mcp/conclusions.rs:320-342 | One store alone: writing out exactly the touched entries makes the disk equal to memory again. |
| `Persistence.RunKeepsOk` | src/mcp/conclusions.rs:320-342 | However stores, sandbox events and single file writes interleave, every entry is what was captured of it last, and every file what its last writer captured. |
| `Persistence.InOrderDiskIsMemory` | src/mcp/server.rs:3943-3955 | If each file is written in the order of the operations on it, the disk ends up equal to memory. |
| `Persistence.OrderCanBeKept` | src/mcp/server.rs:3943-3955 | Every run so far in that order can be ended in it, with memory as it is. |
| `Persistence.SwappedWritesLoseAnUpdate` | src/mcp/conclusions.rs:320-342 | Two stores of one function, the second written out before the first: memory has the second, the file keeps the first, and they differ. |
| `PendingWrites.EveryOrderSettlesIff` | src/mcp/conclusions.rs:320-342 | In any sound session: every order of the writes due makes the disk equal to memory iff none of them holds an entry other than memory's and what is not due is on disk as in memory. |
| `PendingWrites.EveryEndSettlesIff` | src/mcp/conclusions.rs:320-342 | The same after every run, for all its continuations by writes alone, of which there is always one that ends with nothing due. |
| `PendingWrites.ActKeepsCurrentIff` | src/mcp/conclusions.rs:320-342 | While that condition holds, a store or sandbox event keeps it iff it leaves alone every entry that has a write due. |
| `PendingWrites.GuardedRunsSettle` | src/mcp/server.rs:3943-3955 | A run whose every operation does so loses nothing, in whatever order its writes are done. |
| `Coverage.PropagateUnverifiedCallees` | src/mcp/coverage.rs:342-376 | Terminates; a row stays covered iff it was and no chain of callees in scope reaches an uncovered row; nothing else changes. |
| `Coverage.LeastFixedPoint` | src/mcp/coverage.rs:342-376 | The uncovered rows are the least set with the initial ones that is closed under callers. |
| `Coverage.BlamesUncoveredRows` | src/mcp/coverage.rs:350-375 | A newly uncovered row blames some callee, and only callees that are uncovered rows. |
| `Coverage.BlameIsExact` | src/mcp/coverage.rs:350-375 | A newly uncovered row blames exactly its callees that are fewer calls away from an uncovered row than itself, in its own order, and says unverified_callee. |
| `Codec.RoundTrip` | src/frama-c/codec.rs:33-118 | Decoding a frame followed by anything gives the payload and the exact length consumed, iff the payload is within the cap. |
| `Codec.ProperPrefixIsIncomplete` | src/frama-c/codec.rs:68-118 | Every proper prefix of a frame is a short read, never an error. |
| `Codec.VerdictIsStable` | src/frama-c/codec.rs:68-118 | A verdict stands however many bytes follow. |
| `Codec.FrameExtent` | src/frama-c/codec.rs:68-118 | A decoded frame lies within the buffer, consumes at least a header and is valid text within the cap. |
| `Codec.OnlyTheCapNeedsTheWideForm` | src/frama-c/codec.rs:33-62 | Of the wide form, only the frame of exactly the cap is accepted. |
| `Utf8Text.FrameOnTheWire` | src/frama-c/codec.rs:28-44 | S and 3, L and 7 or W and 15 lower-case digits of the length, by the first width that holds it, then the payload. |
| `Utf8Text.OnlyThreeLetters` | src/frama-c/codec.rs:73-83 | Any other first byte is refused at once. |
| `Utf8Text.HeaderIsAwaited` | src/frama-c/codec.rs:68-88 | A header is waited for to its full width. |
| `Utf8Text.EitherCaseIsRead` | src/frama-c/codec.rs:94-96 | Digits of a length are read in either case, and nothing else is one. |
| `Utf8Text.PlusIsReadOver` | src/frama-c/codec.rs:94-96 | One plus sign before the digits is read over; a plus sign alone is no number. |
| `Utf8Text.Utf8Iff` | src/frama-c/codec.rs:90-115 | The bytes accepted as text are exactly the UTF-8 encodings of texts. |
| `Transport.Connection.SendFrame` | src/frama-c/transport.rs:54-64 | A send is all of a frame, part of it and poison, or nothing once poisoned. |
| `Transport.Connection.RecvFrame` | src/frama-c/transport.rs:66-107 | The loop over reads hands over what the buffer decodes to, a timeout, or a poisoning error. |
| `Receiving.ReceiveEndsAt` | src/frama-c/transport.rs:66-107 | The first place where the buffer is decided or the read brings nothing decides: frame, bad frame, timeout, read error or closed peer, with the state each leaves. |
| `Receiving.SendEnds` | src/frama-c/transport.rs:54-64 | Written, failed and stalled writes: the error, exactly the bytes put out, and the poison. |
| `Transport.ReceiveStep` | src/frama-c/transport.rs:66-107 | A receive takes the next payload or waits one timeout, and never errors on an intact stream. |
| `Transport.ChunkingDoesNotMatter` | src/frama-c/transport.rs:66-107 | However the frames are cut into reads, with timeouts between, exactly the payloads arrive in order. |
| `Transport.SameBytesSamePayloads` | src/frama-c/transport.rs:66-107 | Two chunkings of the same payloads deliver the same. |
| `Transport.WireStaysIntact` | src/frama-c/transport.rs:54-123 | After any operations the wire holds the frames of exactly the payloads whose send succeeded, in order, then at most a beginning of the failing send's frame, which implies poison. |
| `Transport.PoisonIsForever` | src/frama-c/transport.rs:54-123 | Once poisoned, no operation adds a byte, returns a payload or lifts the poison. |
| `Transport.OnlyTimeoutsAreHarmless` | src/frama-c/transport.rs:66-107 | A receive poisons iff it reports a broken connection. |
| `Client.IdsRepeatIff` | src/frama-c/client.rs:162-166 | Two requests share an id iff their numbers agree modulo 2^64. |
| `Client.Inner.NextId` | src/frama-c/client.rs:162-166 | The n-th request gets the n-th id. |
| `Client.IdSpellsTheNumber` | src/frama-c/client.rs:162-166 | Until the counter wraps, an id is "RQ." and the number of the request. |
| `Client.Inner.WaitForId` | src/frama-c/client.rs:186-260 | The loop returns the specified answer and leaves exactly the later replies. |
| `Client.Inner.PollLoop` | src/frama-c/client.rs:262-346 | So does the polling loop, with the counters and ids of its diagnostics. |
| `ClientWaiting.WaitEndsAt` | src/frama-c/client.rs:186-260 | The first event that can end a GET does: an empty read or the deadline times out, a lost connection breaks, this id's reply other than a kill notice answers; later events stay. |
| `ClientWaiting.PollSettlesAt` | src/frama-c/client.rs:83-155 | Any reply of this id settles a SET or EXEC and is recorded by its kind; before it, signals are counted and the first names the task. |
| `ClientWaiting.PollBreaksAt` | src/frama-c/client.rs:262-346 | A lost connection is reported as that, with what was noted so far. |
| `ClientWaiting.PollExpiresAt` | src/frama-c/client.rs:286-322 | At the deadline a timeout, with a note on the one response looked at after the kill. |
| `Client.NoStaleAnswer` | src/frama-c/client.rs:83-260 | An accepted reply answers that very request, earlier timed-out ones notwithstanding (up to 2^64 requests). |
| `Client.StaleAcceptedIff` | src/frama-c/client.rs:162-346 | For either kind of request, after any answers to others and before anything: a late reply to another request is taken for this one iff their numbers agree modulo 2^64. |
| `Client.LateAnswersAreSkipped` | src/frama-c/client.rs:186-346 | Any number of replies to others is skipped until the right one, in both loops. |
| `ReloadFetch.FetchAll` | src/frama-c/client.rs:589-616 | The rows of all pages since the last reload flag up to the first page with nothing pending; none iff no page is the last. |
| `ReloadFetch.CallsRunTheLoop` | src/frama-c/client.rs:589-633 | In every interleaving, a call has what that loop makes of the pages it accepted. |
| `ReloadFetch.ReturnedIsTheDrain` | src/frama-c/client.rs:589-633 | So a call that returns has exactly the rows since its last reload flag up to its one last page. |
| `ReloadFetch.StepKeepsInv` | src/frama-c/client.rs:589-633 | Each single step of any task, of the server or of a timeout keeps the drain in step with the cursor. |
| `ReloadFetch.ReloadFetchIsAtomic` | src/frama-c/client.rs:618-633 | In every interleaving a call that returns has the whole table its last page was cut from. |
| `ReloadFetch.EveryCallReturnsTheTable` | src/frama-c/client.rs:618-633 | With a table that stays put, every call that returns has exactly that table. |
| `ReloadFetch.OneDrainAtATime` | src/frama-c/client.rs:622-633 | At most one task is between its reload and its last page. |
| `ReloadFetch.OneRequestAtATime` | src/frama-c/client.rs:589-633 | At most one task waits for the answer to a request. |
| `ReloadFetch.UndisturbedCallReturns` | src/frama-c/client.rs:589-633 | On any table, of however many pages, a call left alone does return, with that table. |
| `ReloadFetch.GivingUpLetsGo` | src/frama-c/client.rs:186-260 | A call that times out fails and lets go of both locks; its request is still carried out. |
| `ReloadFetch.CallAfterTimeoutsReturns` | src/frama-c/client.rs:618-633 | From every reachable state, once those who hold the locks have timed out, any idle task's call can return the table as it is, late requests notwithstanding. |
| `ReloadFetch.ResetMidDrainIsSeen` | src/frama-c/client.rs:589-633 | A table that changes between two pages: the call returns the new one whole, with no row of the old. |
| `ReloadFetch.OtherRequestsDoNotDisturb` | src/frama-c/client.rs:589-633 | Another task's unrelated request between two pages leaves the drain and the cursor where they are. |
| `GoalDiff.PairsTheSmallerCount` | src/mcp/analysis.rs:566-582 | Per id exactly min(before, now) occurrences pair up. |
| `GoalDiff.TransitionsAreTheDifference` | src/mcp/analysis.rs:566-617 | With equal counts the transitions number the difference of the proved counts, all one way. |
| `GoalDiff.ReorderingIsInvisible` | src/mcp/analysis.rs:542-582 | A permutation pairs every goal with an equal one. |
| `GoalDiff.ProofGoalDiff` | src/mcp/analysis.rs:516-650 | The loop with its counters and rows is the specified join of the two runs. |
| `GoalDiffProperties.JoinProjects` | src/mcp/analysis.rs:547-617 | The interleaved pass over all ids is, id by id, the pairing of that id alone. |
| `GoalDiffProperties.PairedPerId` | src/mcp/analysis.rs:547-617 | Appeared and disappeared rows of an id number exactly the surplus on either side. |
| `GoalDiffProperties.TransitionsPerId` | src/mcp/analysis.rs:547-617 | With equal counts of an id, the progress rows of it are the difference of its proved marks, one way only. |
| `GoalMatching.DiffIsOfTheGoals` | src/mcp/analysis.rs:542-645 | On the goals themselves: each takes the nearest free earlier goal of its id, progress before status, first of equals; every list is exactly the rows it is for, with both goals' status text and progress, the counters count them, and the goals nobody took disappeared. |
| `GoalMatching.TransitionsAreOfTheGoals` | src/mcp/analysis.rs:547-617 | With equally many goals of an id, those reported newly proved are as many as goals with progress became more, and then none newly unproved; and the other way round. |
| `GoalDiffProperties.ReorderedRunsAgree` | src/mcp/analysis.rs:542-617 | Two orders of the same goals report nothing. |
| `GoalDiffProperties.TransitionsExplainProgress` | src/mcp/analysis.rs:594-617 | The counters add up, and the net change of proved goals is the transitions reported. |
| `GoalDiffProperties.ComparableIff` | src/mcp/analysis.rs:618-645 | The runs are called comparable iff every id occurs equally often and every goal has one. |
| `CallChain.CallChainPayload` | src/mcp/analysis.rs:5215-5279 | The queue search ends and expands exactly the functions at stop-free distance within the depth asked for, 5 if none and 20 at most, each once. |
| `CallChain.ChainIsOfTheCalls` | src/mcp/analysis.rs:5239-5276 | On the call edges: a link is there as often as its call, iff its source is exactly so many calls from the start as it says, within the limit; near ones first. |
| `CallChain.LinksCarryTheDistance` | src/mcp/analysis.rs:5239-5276 | A link is reported iff its source is within the depth, and it carries the source's exact distance. |
| `CallChain.HeadAtDistance` | src/mcp/analysis.rs:5239-5246 | The first unvisited entry of the queue is at its true distance, though the queue holds duplicates. |
| `Json.SizeSet` | src/mcp/analysis.rs:169-199 | Replacing a member changes the printed size by exactly the change of that member. |
| `JsonText.SizeIsPrinted` | src/mcp/analysis.rs:169-175 | The size of any value is the length in UTF-8 bytes of its pretty-printed text, written out with its escapes. |
| `PayloadSize.Record` | src/mcp/analysis.rs:176-199 | The measuring loop ends with the number written equal to the size it is written in. |
| `PayloadSize.Direction` | src/mcp/analysis.rs:176-181 | From the second round on measurements move one way only, which is why it ends. |
| `PayloadSize.FitsIff` | src/mcp/analysis.rs:55-76 | Whether the recorded size is within the cap does not depend on the number recorded. |
| `PayloadBudget.OmitKeeps` | src/mcp/analysis.rs:136-167 | Exactly the first rows stay, as many as may or all there are, and shown plus omitted stays the same. |
| `PayloadBudget.Finish` | src/mcp/analysis.rs:34-134 | Whatever goes in, the answer is within the cap and states its own size, its rows are accounted for; as built, it is exactly the first stage that fits, or the last resort. |
| `BudgetStages.SendsTheFirst` | src/mcp/analysis.rs:46-134 | What goes out, as built: the first that can be sent of the whole, one row of each preview, none, and no blocked function either; else the last resort. |
| `BudgetStages.OneRowOfEach` | src/mcp/analysis.rs:48-66 | Too large, but not with one row of each: both previews go out with their first row, or empty if they were, the rest counted, all else the same. |
| `BudgetStages.NoRowOfEither` | src/mcp/analysis.rs:48-66 | Too large even so: both go out empty with every row counted. |
| `BudgetStages.LastResortSends` | src/mcp/analysis.rs:84-132 | Then an action that calls nothing takes the place of the proposed one iff without the name in it the response would fit and does; otherwise of everything. |
| `BudgetStages.OutStatesTheCap` | src/mcp/analysis.rs:34-134 | Whatever goes out says what the cap is and which members, or that all of them, are left out. |
| `PayloadBudget.FittingLosesNothing` | src/mcp/analysis.rs:55-61 | A response that fits goes out with only its size filled in. |
| `PayloadBudget.ArgsWholeOrGone` | src/mcp/analysis.rs:36-134 | The arguments of the proposed call go out whole or not at all. |
| `PayloadBudget.TruncatedFits` | src/mcp/analysis.rs:111-132 | The fallback response is itself within the cap. |
| `Variants.ClaimLabel` | src/mcp/checkgaps.rs:1888-1906 | The search ends; the label, or the first numbered one that is free, which nobody had. |
| `Variants.KeyDeterminesProgram` | src/mcp/checkgaps.rs:1872-1882 | Keys are equal iff the printed AST and the machine are. |
| `Variants.CheckVariants` | src/mcp/analysis.rs:3447-3569 | The first failed check fails the call; otherwise labels are distinct, inputs are the effective ones, and exactly the duplicates are marked, with the first variant of their program. |
| `Variants.MarkIsExact` | src/mcp/analysis.rs:3542-3563 | What is read off the digest groups is the definition of a duplicate. |
| `Variants.DuplicatesAreTheExcess` | src/mcp/checkgaps.rs:1916-1927 | Duplicates number the distinct (program, inputs) pairs less one for every program. |
| `Variants.ProvedIff` | src/mcp/checkgaps.rs:1959-1972 | "proved" iff every variant proved, every one has a digest, and equal programs came from equal inputs. |
| `VariantAnswers.ProvedIsOfTheAnswers` | src/mcp/checkgaps.rs:1959-1972 | On the answers: "proved" iff every check said so, every one has a digest, and the same printed program on the same machine came of the same defines and machine setting. |
| `VariantAnswers.SummaryIsOfTheAnswers` | src/mcp/checkgaps.rs:1916-1957 | The counts of the summary, and which reason it gives. |
| `VariantAnswers.DistinctLabelsAreKept` | src/mcp/checkgaps.rs:1888-1906 | If no two variants ask for one label, each gets its name, or "variant" and its place. |
| `VariantAnswers.TakenLabelIsNumbered` | src/mcp/checkgaps.rs:1888-1906 | A label an earlier variant has gets the first free number from the variant's place up. |
| `Variants.PointerIsExact` | src/mcp/analysis.rs:3470-3483 | A duplicate points at one variant and no other. |
| `WpLock.StepKeepsInv` | src/mcp/analysis.rs:4150-4296 | Every step of every call keeps one holder per lock, and nothing past its last check while the flag is up. |
| `WpLock.NothingRunsWhileLocked` | src/mcp/analysis.rs:5512-5523 | In every interleaving, while the project is locked no proof run is past its under-lock recheck, and no reload. |
| `WpLock.RefusedWithoutWaiting` | src/mcp/analysis.rs:4150-4210 | While the project is locked, a plain run and a reload are refused at once; a profiled run waits for its lock first. |
| `WpLock.TransactionsNeverOverlap` | src/mcp/analysis.rs:4187-4210 | No two calls hold the proof lock, or the value-analysis lock, at once. |
| `WpLock.OneAtATime` | src/mcp/server.rs:2752-2792 | By phases: no two calls work on the main project at once, nor on the value analysis. |
| `WpLock.NoDeadlock` | src/mcp/server.rs:2752-2792 | While a call has not ended, some call can take its next step. |
| `WpLock.EveryInterleavingIsSafe` | src/mcp/analysis.rs:4150-4296 | From any calls that have not begun, in every interleaving: all of the above at once, within ten steps a call, and some call can go on until all have ended. |
| `WpLock.CancelledIff` | src/mcp/analysis.rs:4255-4296 | The run's final answer is "cancelled" iff the cancels bumped between its two reads of the epoch are not a multiple of 2^64, whatever others do after the second. |
| `WpLock.EveryFinishIsCounted` | src/mcp/analysis.rs:4222-4296 | In every interleaving, every proof run that finishes read the epoch twice, first with the value-analysis lock let go of, and answers whether the cancels bumped between are no multiple of 2^64. |
| `WpLock.CancelMidRunIsSeen` | src/mcp/analysis.rs:4255-4296 | A cancel while the run drains makes it answer "cancelled". |
| `WpLock.LateCancelIsNotSeen` | src/mcp/analysis.rs:4290-4296 | One after the second read does not. |
| `WpLock.NoCancelIsMissed` | src/mcp/analysis.rs:3808-3820 | With fewer than 2^64 cancels pending, the final answer is "cancelled" iff there was one in that window. |
| `WpLock.EarlyCancelIsNotSeen` | src/mcp/analysis.rs:4255-4259 | A cancel bumped before the run reads the epoch leaves its final answer "not cancelled". |
| `WpLock.TimeOutFails` | src/mcp/analysis.rs:4255-4296 | A run out of time fails, lets go of the proof lock and moves the epoch on by one. |
| `WpLock.FlagMovesIff` | src/mcp/analysis.rs:5390-5524 | The project is locked exactly when a locking verify step comes to its end, and unlocked exactly by an unlocking one; nothing else moves the flag. |
| `WpLock.EpochMovesIff` | src/mcp/analysis.rs:3808-3820 | The epoch moves on by one, modulo 2^64, exactly when a cancel gets going or a run is out of time. |
| `WpLock.FailingLetsGo` | src/mcp/analysis.rs:4187-4210 | A call that fails lets go of its locks and changes nothing else. |
| `WpLock.LoneCallEnds` | src/mcp/analysis.rs:4150-4296 | A call left alone ends: proof runs and reloads refused iff the project is locked, all else finished; a verify step leaves it locked, or unlocked if asked to. |
| `Annotations.Params.ExpandTagged` | src/mcp/annotations.rs:230-326 | The loop takes the array out and leaves the specified lists, single clauses, origins and ghosts, or the first error. |
| `Annotations.PathsDiffer` | src/mcp/annotations.rs:305-322 | No two positions share an internal path. |
| `AnnotationOrigins.ExpandKeepsInv` | src/mcp/annotations.rs:224-326 | Earlier entries keep their place and own no path; every clause entry owns exactly one, under which stands what it said; ghosts are set aside with their index. |
| `AnnotationOrigins.RefusedIff` | src/mcp/annotations.rs:236-322 | The array is refused iff an entry is malformed or repeats a kind that may appear once, and the first such entry is named. |
| `AnnotationKinds.RefusalIsTrue` | src/mcp/annotations.rs:236-322 | The reason for refusing the first refused entry is true of it: no object, no kind, an unknown one, no or malformed behaviors, or a kind used before that may appear once. |
| `AnnotationKinds.FieldIsNamedAfterKind` | src/mcp/annotations.rs:264-290 | The field a kind goes to is named after the kind. |
| `InjectionPlan.LoopAnnotsToAcsl` | src/mcp/acsl.rs:254-340 | The loops over invariants and assigns, and the variant, give the specified clauses with their sub-paths. |
| `InjectionPlan.BuildInjectionPlan` | src/mcp/annotations.rs:484-590 | One pass over the fields in order; each outcome goes to the plan or the failures. |
| `AnnotationKinds.EntryIsPlanned` | src/mcp/annotations.rs:224-590 | Every clause entry of an accepted array has one path named after its kind that maps back to it, and what is planned there is what that kind calls for, text, place, behavior and failure. |
| `InjectionPlan.RelabelUnder` | src/mcp/annotations.rs:328-344 | A path under a position maps to its owner with the remainder kept, and to nothing if it has none. |
| `InjectionPlan.RelabelInvertsFanOut` | src/mcp/annotations.rs:328-344 | Every plan entry or failure comes from one position, and its path maps back to the very entry that filled it, loop parts included. |
| `InjectionPlan.PlanAndFailuresMapBack` | src/mcp/annotations.rs:479-590 | For the plan and the failures the builder returns: each outcome of planning is in exactly one of them, once, nothing else is, and each maps back to its entry. |
| `InjectionPlan.NothingIsListedTwice` | src/mcp/annotations.rs:484-590 | For any fields, neither output lists an outcome twice. |
| `InjectionPlan.PartPathsDiffer` | src/mcp/acsl.rs:254-340 | Different clauses of a loop have different sub-paths. |
| `InjectionPlan.PathsIdentifyItems` | src/mcp/annotations.rs:484-590 | Two outcomes with one path are the same outcome. |

## Left out

- CallGraph.StronglyConnected: stands in for the graph library's condensation and Tarjan search, of which only the partition is used; its order of components is arbitrary here as there.
- TopologicalOrder.ComputeTopologicalOrder: group ids are unbounded numbers, not 32-bit ones.
- ConclusionRuns.StalenessIsExact: excludes a function that lists itself as a callee, which the code treats differently; `ConclusionRuns.OwnContractNeverStale` and `ConclusionRuns.OwnHashIsCurrentIff` say how.
- ConclusionRuns.RunKeepsInv: starts from the empty store; conclusions loaded from disk would have to satisfy the invariant already.
- ConclusionRuns.DiskFollowsMemory: takes the store and its writes as one operation; the interleavings are in `Persistence`.
- Persistence.RunKeepsOk: a file write is one step and succeeds; failed writes, which are reported or logged, and loading from disk are not modelled.
- GoalDiff.ProofGoalDiff: the fractions of the progress report are quotients of the counters given here and are left out.
- GoalDiffProperties.TransitionsPerId: asks for equal counts of the id on both sides; the greedy choice gives no such number otherwise.
- Client.NoStaleAnswer: the server answers only ids that were issued, each with the request it belongs to.
- Client.Inner.PollLoop: the elapsed time and trace output of the diagnostics, and the text of a failed kill, are left out.
- ReloadFetch.StepKeepsInv: one table and one cursor; a page is 20000 rows and rows are opaque.
- Transport.WireStaysIntact: a caller that drops the future of a send midway is not modelled.
- PayloadBudget.Finish: a response is a JSON object; a value that cannot be serialized does not arise.
- WpLock.CancelledIff: the path with several provers, which runs isolated processes, is not part of the model; neither are the locks below the two transaction locks.
- InjectionPlan.BuildInjectionPlan: the text of a clause is carried unchanged; keyword wrapping, labels and normalisation of ACSL text are not modelled.
- InjectionPlan.RelabelInvertsFanOut: rewriting of paths embedded in prose messages is not modelled.
- Annotations.Params.ExpandTagged: on an error the parameters are abandoned by the caller, so their half-filled state is not described.
- Wall-clock time: deadlines are events that may happen at any point.
- JSON syntax, serde and SHA-256: records and function values; the size of pretty-printed JSON is modelled, with a member's name either one of a fixed table or any other.
- src/mcp/coverage.rs:251-340 and 380-650: why a row is uncovered to begin with, and the percentages, are inputs of the fixed point.
- Receipt store, verdict classification and goal status rules: taken as fields, such as whether a goal counts as proved.
- Name resolution in call chains: links carry declaration markers, the printed names are left out.
- Process control, sockets, sandboxes' files, Frama-C, WP and EVA themselves.
- Guidance strings, other than the two whose length matters to the byte cap.
