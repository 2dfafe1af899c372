# ArtificialFlow: verified models

Dafny models of the parts of ArtificialFlow whose behaviour is hard to see from the code, with proofs of what they keep.
`dafny verify dfyconfig.toml` checks everything; nothing here runs the original program.

| part | modules |
|---|---|
| Fallback layout of a process diagram | `LayoutGraph`, `FallbackLayout`, `LayoutLanes` |
| Reading and writing BPMN diagrams | `Diagram`, `DiagramParser`, `DiagramGenerator`, `DiagramLinks`, `DiagramNesting`, `DiagramBoxes`, `DiagramContents`, `DiagramFiling`, `DiagramRoundTrip`, `DiagramReload` |
| Job worker and lock renewal | `LockRenewal`, `WorkerOutcomes` |
| Access tokens of the Node SDK | `TokenProvider`, `TokenRuns` |
| Verifier cache of the auth middleware | `Joining`, `Fingerprint`, `VerifierCache`, `VerifierRuns` |
| Vendor namespaces in diagram data | `JsonValues`, `Namespaces`, `ExtensionAttributes`, `PropertyNames`, `ExtensionElements`, `NormalizedData`, `NormalizedOrder` |
| Connector inputs | `Connectors`, `ConnectorReads` |
| Event definitions and root elements | `EventDefinitions`, `EventReferences`, `EventSetters` |
| Snowflake ids | `Bits`, `Snowflake` |
| Scope claims | `Claims` |
| Anchors of diagram edges | `EdgeAnchors` |
| Shared | `Options`, `Text` |

How the source's forms are kept. Code that fills lists, maps and queues in loops is written as methods with loops and
proved against functions; the parser, the token provider, the auth middleware and the id generator are classes with the
fields of the source. Concurrency is a state machine: a run is a list of actions, each enabled at its turn, and a result
about runs holds for every such list. Parsed records (`JsonValues`) are lists of fields in insertion order.

Where the code and its intention part:

- Layout (`LoopEndsIffNoReachableCycle`, `CycleNeverEnds`): the queue loop never ends when a cycle can be reached from
  its first nodes.
- Copies (`WrittenAsPlacedIff`, `DraggedTaskIsWrittenTwice`, `DeletedTaskComesBack`, `DeletedFlowComesBack`): a
  sub-process that was read from a file carries copies of what was nested in it, and is written with those whose tag
  nothing filed under it has. So a task that was dragged out of it is written twice, and one that was deleted comes
  back, if it was the last of its tag there; and so does a sequence flow.
- Nesting (`TwinSubProcessesAreLost`): two sub-processes with the same box take each other in, and both are lost, unless
  another sub-process around their centre is no larger than they are.
- Round trip (`RoundTripIsIdentityIffSizesAreNonZero`, `ZeroWidthIsNotKept`): a shape with zero width or height comes
  back with default size.
- Verifier cache (`KeyTellsIff`, `AlwaysOwnIff`, `IssuersCollide`, `BlankInModeChangesKind`): a configuration with other
  settings has the same key exactly when a setting holds a bar that could as well stand between two settings: one with no
  blank beside it, or with a blank only on the side of the secret, which alone is not trimmed, or in the secret one with
  a blank on one side at most. And a blank around the token mode gives another kind of verifier under the same key.
- Properties (`SecondPassLosesProperty`): one named `__unnamed_1` can be lost when data is normalised once more.
- Field order (`ConnectorIsDisplaced`): when a file binds the prefix `bpmn` itself to the vendor namespace, normalising
  puts its extension elements last, and normalising once more moves them.
- Connector inputs (`LastWriteWinsIffKnownType`): for an unknown job type an input that is no longer given can stay.
- Events (`AllCloseIff`): a reference has its root element exactly when some node adds that very id. A message or signal
  event that has only its marker refers to a root element that is not written unless its name comes out as `Message1` or
  `Signal1`; an error code that begins with a digit or has a blank behind it gets two different ids; a reference with a
  blank around it is written so, and its root without; and when an event is switched to another kind, a reference in a
  definition of its old kind stays behind and loses its root element.
- Ids (`IdsAlwaysIncreaseIff`): order is lost when the clock passes 2^41 milliseconds after the epoch.

## Model

| member | source | states |
|---|---|---|
| FallbackLayout.LoopEndsIffNoReachableCycle | frontend/src/lib/bpmn-parser.ts:92-123 | the queue loop, which keeps no set of visited nodes, ends if and only if no cycle can be entered from the nodes in the first queue |
| FallbackLayout.CycleNeverEnds | frontend/src/lib/bpmn-parser.ts:92-123 | for instance, it never ends for a start event that leads into a cycle of two |
| FallbackLayout.ExitGivesLongestWalks | frontend/src/lib/bpmn-parser.ts:90-123 | when the loop has ended, each node that can be entered from the first queue has as rank the length of the longest walk to it, and no other node has a rank |
| FallbackLayout.AcyclicRanksEveryNode | frontend/src/lib/bpmn-parser.ts:76-123 | on an acyclic graph the loop ends, and then every node has as rank the length of the longest walk to it |
| FallbackLayout.DrainQueue | frontend/src/lib/bpmn-parser.ts:105-123 | the loop over the shifted and pushed queue, with its termination measure, arrives at a state of the step machine with an empty queue |
| FallbackLayout.RankNodes | frontend/src/lib/bpmn-parser.ts:76-123 | the ranks it leaves are the longest walks, provided no cycle can be reached |
| FallbackLayout.ReachedEdgesPointRight | frontend/src/lib/bpmn-parser.ts:105-143 | before boundary events are moved, every kept edge out of a reached node points right by at least the horizontal gap |
| FallbackLayout.AcyclicEdgesPointRight | frontend/src/lib/bpmn-parser.ts:105-143 | on an acyclic graph every kept edge does |
| FallbackLayout.UnreachedStandRight | frontend/src/lib/bpmn-parser.ts:125-143 | nodes that no walk enters stand right of all others |
| FallbackLayout.BoundaryEventsSit | frontend/src/lib/bpmn-parser.ts:145-157 | a boundary event attached to another kind of node ends 18 left of and above that node's lower right corner, 100 by 80 being the size of a node that has none |
| FallbackLayout.ApplyFallbackLayout | frontend/src/lib/bpmn-parser.ts:70-158 | the whole layout in place: no change for an empty list or when coordinates are there and it is not forced, otherwise the arrangement whose coordinates the rows of `LayoutLanes` and the ones above tell |
| LayoutLanes.BranchesFanOut | frontend/src/lib/bpmn-parser.ts:99-143 | when no node has two edges in, the targets of a reached node stand one gap right of it: the first at its height, the next one gap above, then one below, then two above, and so on |
| LayoutLanes.TargetsStandApart | frontend/src/lib/bpmn-parser.ts:99-143 | so two targets of one node stand a non-zero whole number of gaps above each other, never at the same place |
| LayoutLanes.WalksBeginOnTheLeft | frontend/src/lib/bpmn-parser.ts:92-143 | in any graph, a start event stands at the middle height, at the left edge if nothing leads into it; every other node that nothing leads into stands at the left edge, two gaps down and one more for each earlier node where walks begin; when they begin nowhere, the first node stands there two gaps down |
| LayoutLanes.HeightsAreThoseOfWays | frontend/src/lib/bpmn-parser.ts:99-143 | in any graph, the height of a reached node is that of some way of branches from the first queue to it: the sum of the branches' offsets; every other node stands at the middle height |
| LayoutLanes.LanesAreThoseOfWays | frontend/src/lib/bpmn-parser.ts:94-123 | this holds of the lanes at any time in the loop |
| LayoutLanes.LanesComeCloser | frontend/src/lib/bpmn-parser.ts:110-116 | in any graph a lane only moves closer to the middle, and each turn leaves no target further out than the branch into it |
| LayoutLanes.UnreachedStandInRow | frontend/src/lib/bpmn-parser.ts:125-143 | the nodes that no walk enters stand in a row at the middle height, each by its index and one more gaps right of the rightmost of the others |
| LayoutLanes.LayoutExists | frontend/src/lib/bpmn-parser.ts:70-143 | these results are about something: there is an arrangement whenever no cycle can be reached |
| LayoutLanes.TwoTargets | frontend/src/lib/bpmn-parser.ts:99-143 | for instance, a start event with two targets: one at (340, 260), the other at (340, 70) |
| DiagramParser.Parser.ParseContainer | frontend/src/lib/bpmn-parser.ts:280-414 | reading a container appends exactly its nodes, each followed by what is nested in it, with parent links and relative positions, and its edges after those nested in it; the rows of `DiagramReload` tell what these nodes and edges are |
| DiagramParser.Parser.ParseTag | frontend/src/lib/bpmn-parser.ts:281-363 | the elements of one tag, in the order of the table, are appended with all that is nested in them |
| DiagramReload.ListedFlowIsRead | frontend/src/lib/bpmn-parser.ts:366-413 | each flow listed in a container that can be got to becomes an edge between its ends; a handle is the connector's if there is one, else the attribute's, else right for the source and left for the target |
| DiagramReload.ElementIsRead | frontend/src/lib/bpmn-parser.ts:232-363 | each element that can be got to becomes a node of the kind of its row in the table, in the container around it, with the size of its shape, its place being its shape's corner seen from the container's, where no shape counts as the origin |
| DiagramReload.EdgeIsKept | frontend/src/lib/bpmn-parser.ts:366-413 | an edge with both handles is read back from its own flow unchanged, a missing handle as right or left |
| DiagramReload.EdgesAreFiledIff | frontend/src/lib/bpmn-parser.ts:861-872 | an edge is filed under a container if and only if it is no message flow and its source goes there |
| DiagramReload.WrittenEdgeIsReadBack | frontend/src/lib/bpmn-parser.ts:280-950 | whatever was edited, each such edge in a container that can be got to is found when the written document is read, with the same ends and both handles |
| DiagramReload.WrittenNodeIsReadBack | frontend/src/lib/bpmn-parser.ts:280-950 | whatever was edited, each node filed under the process through sub-processes is found again, with its tag, in its effective parent, at the same absolute place and with the size it was written with |
| DiagramReload.DeletedFlowComesBack | frontend/src/lib/bpmn-parser.ts:923-933 | when no flow is filed under a sub-process, the ones it was read with are read again, so the last one that is deleted there comes back |
| DiagramGenerator.FindEffectiveParents | frontend/src/lib/bpmn-parser.ts:589-643 | a node keeps its parent link, or else goes to the smallest sub-process whose box holds its centre, or to the process, in the terms of the rows of `DiagramBoxes` |
| DiagramBoxes.BoxIsWritten | frontend/src/lib/bpmn-parser.ts:549-571 | the box the results about parents speak of is the one written as the node's shape |
| DiagramBoxes.CapturesIffAround | frontend/src/lib/bpmn-parser.ts:604-630 | a sub-process other than the node holds it if and only if twice the node's corner plus its size lies between twice the box's corner and twice its opposite corner, in both directions |
| DiagramBoxes.ParentIsSmallestAround | frontend/src/lib/bpmn-parser.ts:597-643 | a node without parent link goes to a box around it such that no other around it is smaller, and none before it in the list is as small; to the process if there is none |
| DiagramBoxes.GrowingKeepsParent | frontend/src/lib/bpmn-parser.ts:612-643 | growing a node without parent link by the same amount on opposite sides does not change its parent |
| DiagramBoxes.InnermostBoxIsChosen | frontend/src/lib/bpmn-parser.ts:612-643 | for nested boxes of positive size the chosen parent lies inside every other box around the node |
| DiagramBoxes.OverlappingTaskStaysOutside | frontend/src/lib/bpmn-parser.ts:612-643 | for instance, a task with its corner inside a sub-process and its centre outside stays in the process |
| DiagramGenerator.FillContainers | frontend/src/lib/bpmn-parser.ts:645-698 | every written node and every sequence flow is filed under its home and nowhere else |
| DiagramGenerator.Generate | frontend/src/lib/bpmn-parser.ts:547-950 | the written document is the forest unfolded from the process, with one shape for each written node |
| DiagramLinks.EndsWithinList | frontend/src/lib/bpmn-parser.ts:558-571 | the recursion along parent links ends within as many links as there are nodes, or never |
| DiagramLinks.PositionsAddUp | frontend/src/lib/bpmn-parser.ts:558-571 | when no node is its own ancestor, every absolute position is the node's own plus that of its parent |
| DiagramContents.NestingHoldsWhatGetsToTheProcess | frontend/src/lib/bpmn-parser.ts:589-933 | a node is written once if effective parents lead from it to the process and otherwise not at all, and besides as often as its id stands in stray copies: the copies of nested elements with which nodes that get to the process are written |
| DiagramContents.OthersAreStray | frontend/src/lib/bpmn-parser.ts:589-933 | an element that is no node of the list is written exactly as often as its id stands in stray copies |
| DiagramContents.WrittenAsPlacedIff | frontend/src/lib/bpmn-parser.ts:589-933 | a node is written exactly as often as it gets to the process if and only if no written node carries its id in copies that nothing filed under that node replaces |
| DiagramContents.DraggedTaskIsWrittenTwice | frontend/src/lib/bpmn-parser.ts:589-933 | for instance, a task dragged out of the sub-process it was read in is written twice, although all boxes are in order |
| DiagramContents.DeletedTaskComesBack | frontend/src/lib/bpmn-parser.ts:589-933 | and a deleted task that was the last of its tag in its sub-process is written again |
| DiagramContents.NestingHoldsEveryNodeOnce | frontend/src/lib/bpmn-parser.ts:589-933 | when each taker has larger area than the sub-process it takes in, every node is written exactly once, but for stray copies, and none at all exactly if it is a pool, a lane or a message flow |
| DiagramNesting.NestingIsFinite | frontend/src/lib/bpmn-parser.ts:923-933 | the references that link containers form a finite tree: unfolding them further adds nothing |
| DiagramContents.MutualTakersAreLost | frontend/src/lib/bpmn-parser.ts:612-643 | two nodes that take each other in do not get to the process, and only stray copies of them are written |
| DiagramContents.TwinSubProcessesAreLost | frontend/src/lib/bpmn-parser.ts:612-643 | in any diagram, two sub-processes without parent link that have the same box of positive size are lost in this way when every other sub-process around their centre is larger |
| DiagramContents.TwoTwinsAreLost | frontend/src/lib/bpmn-parser.ts:612-643 | a diagram of two such sub-processes alone is written without any of them |
| DiagramFiling.PositionIsCorner | frontend/src/lib/bpmn-parser.ts:558-571 | summing relative positions along parent links gives back the corner of each element's shape |
| DiagramFiling.OverlayIsReadAsContent | frontend/src/lib/bpmn-parser.ts:923-933 | copies of nested elements that assignment leaves behind are never read again |
| DiagramRoundTrip.ParseGenerateParse | frontend/src/lib/bpmn-parser.ts:280-950 | reading what was written from a read diagram gives the same nodes in the same order with the same ids, tags, parents and positions, and the same edges; like the first one, the written diagram is not laid out on reading |
| DiagramRoundTrip.RoundTripIsIdentityIffSizesAreNonZero | frontend/src/lib/bpmn-parser.ts:232-950 | the round trip changes nothing if and only if no element that is read has zero width or height |
| DiagramRoundTrip.ZeroWidthIsNotKept | frontend/src/lib/bpmn-parser.ts:232-950 | for instance, a task drawn with zero width is read back with another |
| LockRenewal.EveryRunIsGood | backend/libs/worker/worker.go:109-206 | in every interleaving each job gets at most one request, none after an aborted handler or a renewal failure, the request tells how the handler ended, no extension is in flight or sent after it, and no renewal error is dropped |
| LockRenewal.RenewalFailureIsReturned | backend/libs/worker/worker.go:130-206 | an extension that failed while the job was live is the error the worker returns, whatever the handler did, and no request is sent |
| LockRenewal.BatchIsHandledInOrder | backend/libs/worker/worker.go:109-128 | the jobs started are a prefix of the batch in order, each one before the current got its request, and the worker returns without error only at the end; how they were answered is told in the next rows |
| WorkerOutcomes.FailedRequestIsReturned | backend/libs/worker/worker.go:121-159 | a request that is answered with an error ends the batch: from then on that error is what the worker returns, and no job is begun and no request answered any more |
| WorkerOutcomes.ReturnsNoneWhenAllAreAnswered | backend/libs/worker/worker.go:109-159 | each job before the current one had its request answered without error, so a worker that returned none had that of all jobs |
| WorkerOutcomes.ReturnedErrorIsAccounted | backend/libs/worker/worker.go:130-206 | an error that is returned is a renewal failure of the current job, the error of its aborted handler, or the answer to the last request |
| WorkerOutcomes.AbortIsReturned | backend/libs/worker/worker.go:140-149 | when a handler was aborted, the worker that has returned did so in that job, with the handler's error or a renewal failure |
| WorkerOutcomes.DoneContextRaisesNothing | backend/libs/worker/worker.go:180-184 | once the context of a job is done, no renewal failure is raised for it |
| WorkerOutcomes.CancelledIsDone | backend/libs/worker/worker.go:134-138 | a cancelled caller, or a stopped renewer, leaves the context of the job done |
| LockRenewal.NeverStuck | backend/libs/worker/worker.go:130-206 | in every reachable state some step other than a cancellation or a tick is possible until the worker has returned |
| TokenProvider.Provider.GetToken | clients/nodejs-sdk/src/Auth.ts:76-87 | the call does the step of the machine: reject, serve from the cache, join, or start an exchange |
| TokenProvider.Provider.FinishExchange | clients/nodejs-sdk/src/Auth.ts:89-130 | an answer settles the exchange, and fills the cache only with an accepted token and a readable clock, in the terms of the rows of `TokenRuns` |
| TokenProvider.Provider.RunFinally | clients/nodejs-sdk/src/Auth.ts:81-85 | the callback forgets the remembered promise, whichever it is |
| TokenProvider.ParseTokenResponse | clients/nodejs-sdk/src/Auth.ts:468-488 | an accepted response has a non-empty token and a positive lifetime |
| TokenRuns.ParsedIffGrants | clients/nodejs-sdk/src/Auth.ts:468-488 | an answer is accepted if and only if the token has 1 to 1048576 characters, the type is missing or reads bearer in any case, and the lifetime is a positive safe integer; it gives that token and lifetime |
| TokenRuns.SettledIffGranted | clients/nodejs-sdk/src/Auth.ts:89-130 | an exchange brings a token if and only if its answer grants it and the clock can be read |
| TokenRuns.CachedTokenWasGranted | clients/nodejs-sdk/src/Auth.ts:76-130 | in every run, a token served from the cache was granted by an earlier answer, and the call came before the clock at that answer plus 1000 times the seconds it gave, less the skew |
| TokenRuns.GrantedTokenIsServed | clients/nodejs-sdk/src/Auth.ts:76-130 | and a granted token is served to every call before that time until another answer grants one |
| TokenProvider.OneExchangeOutstanding | clients/nodejs-sdk/src/Auth.ts:76-87 | in every run at most one exchange is outstanding, and it is the one remembered, although the callback forgets blindly |
| TokenProvider.EveryCallerIsServed | clients/nodejs-sdk/src/Auth.ts:76-130 | each caller got a token some exchange brought that was not within the skew of its expiry, or the result of the exchange it joined |
| TokenProvider.CacheHoldsTheLastToken | clients/nodejs-sdk/src/Auth.ts:89-130 | the cache holds the token of the last exchange that brought one |
| TokenProvider.CallStartsExchangeIff | clients/nodejs-sdk/src/Auth.ts:217-228 | a call starts an exchange if and only if no cached token is usable and none is outstanding, so after a failed one has been cleared the next starts afresh |
| TokenProvider.WaitingCallerCanGoOn | clients/nodejs-sdk/src/Auth.ts:76-130 | a waiting caller is never stranded: whatever the endpoint answers, at most three further actions deliver it the result of the exchange it joined |
| Joining.NoMovableDetermines | backend/libs/auth/middleware.go:151-179 | sixteen parts, trimmed but for one, can be told from their join when no bar in them could as well stand between two of them |
| Joining.MovableCollides | backend/libs/auth/middleware.go:151-179 | a bar that could stand between two parts gives another list of parts with the same join |
| Fingerprint.KeyTellsIff | backend/libs/auth/middleware.go:151-179 | the fingerprint tells a configuration's settings, whatever other configuration there may be, if and only if no bar in them could as well stand between two of them |
| Fingerprint.KeyTellsSettings | backend/libs/auth/middleware.go:151-179 | when one of two configurations has no bar in a setting, equal fingerprints mean equal settings |
| Fingerprint.KeyIgnoresBlanks | backend/libs/auth/middleware.go:151-167 | blanks around any setting but the secret make no difference to the fingerprint |
| Fingerprint.KeyIsInjective | backend/libs/auth/middleware.go:151-179 | for trimmed configurations without such bars the fingerprint tells all fields apart but the three file names |
| Fingerprint.IssuersCollide | backend/libs/auth/middleware.go:151-179 | a bar between two issuer texts can stand in either address under one fingerprint |
| VerifierCache.Middleware.GetVerifier | backend/libs/auth/middleware.go:118-140 | one undisturbed lookup: return the cached verifier on a hit, else build, store both fields and return, or fail and store nothing |
| VerifierCache.RunsAreSerial | backend/libs/auth/middleware.go:118-140 | any interleaving of requests under the read-write lock gives each the result it has at its own place in one order of undisturbed lookups, a place not earlier than the request came, and leaves the cache that order leaves |
| VerifierRuns.OrderFollowsTime | backend/libs/auth/middleware.go:118-140 | that order agrees with time: a request that was done before another came stands before it |
| VerifierCache.CacheIsTransparent | backend/libs/auth/middleware.go:118-140 | every verifier handed out was built from a configuration with the caller's fingerprint |
| VerifierCache.CacheGivesOwnSettings | backend/libs/auth/middleware.go:118-179 | without movable bars it was built from the caller's own settings |
| VerifierRuns.AlwaysOwnIff | backend/libs/auth/middleware.go:118-179 | requests with a configuration are handed verifiers with its own settings in every run if and only if it has no movable bar |
| VerifierRuns.BuildsOnlyOnMiss | backend/libs/auth/middleware.go:128-139 | whenever a verifier is built or stored, the cache holds none for the request at that time |
| VerifierRuns.NoneIsBuiltTwiceInARow | backend/libs/auth/middleware.go:128-139 | between two successful builds for one fingerprint a verifier for another one was stored, so requests that miss together build once |
| VerifierCache.KindsAgreeIff | backend/libs/auth/middleware.go:142-149 | configurations with equal fingerprints and no movable bars get the same kind of verifier exactly when blanks surround both modes or neither, or the mode is not introspection |
| VerifierRuns.KindIsTheMode | backend/libs/auth/middleware.go:118-149 | in every run a verifier that is handed out introspects tokens exactly when the mode it was built for is the word introspection, blanks included |
| VerifierCache.BlankInModeChangesKind | backend/libs/auth/middleware.go:142-179 | whatever else is configured, a blank after the mode gives the other kind under the same fingerprint |
| Namespaces.CanonicalizeVendorKeys | frontend/src/lib/bpmn-namespaces.ts:124-141 | the two passes over the entries compute the rewriting that the lemmas below are about |
| Namespaces.ContextHolds | frontend/src/lib/bpmn-namespaces.ts:39-52 | the context of a file holds exactly the canonical prefix and those its root element binds to the vendor namespace |
| Namespaces.RewrittenKey | frontend/src/lib/bpmn-namespaces.ts:112-122 | a key is rewritten exactly when it begins with a prefix of the context, as attribute or element, and then keeps the rest behind the canonical prefix; the first such prefix of the context counts |
| Namespaces.RenamedFieldIsKept | frontend/src/lib/bpmn-namespaces.ts:124-141 | the last value of those whose keys become the same is found, rewritten, under the canonical key |
| Namespaces.PlainFieldIsKept | frontend/src/lib/bpmn-namespaces.ts:124-141 | a value under any other key is found, rewritten, under the same key |
| Namespaces.CanonIsIdempotent | frontend/src/lib/bpmn-namespaces.ts:124-141 | what any context led to, the default context leaves alone, at every depth and in order |
| Namespaces.CanonicalIffUnchanged | frontend/src/lib/bpmn-namespaces.ts:124-141 | a value is unchanged by rewriting if and only if at every depth its keys are distinct with the canonical ones last |
| ExtensionAttributes.SetArtificialFlowAttribute | frontend/src/lib/bpmn-namespaces.ts:72-82 | the loop over the keys computes the set that the lemma below is about |
| ExtensionAttributes.SetThenGet | frontend/src/lib/bpmn-namespaces.ts:61-82 | an attribute reads as what was set, and every other attribute as before, in any context |
| ExtensionAttributes.FirstPrefixCounts | frontend/src/lib/bpmn-namespaces.ts:54-70 | an attribute reads as the value under the first prefix of the context with which it is there, or else without prefix |
| PropertyNames.RemoveDuplicates | frontend/src/lib/bpmn-namespaces.ts:148-155 | the loop with its seen set keeps the properties whose key no earlier one has |
| PropertyNames.KeepsFirstOfEachNameIffNoClash | frontend/src/lib/bpmn-namespaces.ts:148-155 | exactly the first property of each name and all unnamed ones stay, if and only if no property has the made-up name of an unnamed one |
| PropertyNames.DedupeIsIdempotentIff | frontend/src/lib/bpmn-namespaces.ts:148-155 | removing duplicates twice is like once if and only if the positions left make no such clash |
| PropertyNames.SecondPassLosesProperty | frontend/src/lib/bpmn-namespaces.ts:148-155 | a list on which the second pass loses a property |
| ExtensionElements.NormalizeExtensionElements | frontend/src/lib/bpmn-namespaces.ts:158-181 | merging, rewriting, deleting and setting computes the normalised fields; none for a value that is no record |
| ExtensionElements.AllPropertiesAre | frontend/src/lib/bpmn-namespaces.ts:100-147 | the properties that are merged are exactly the records in records of properties, whatever prefix either has |
| ExtensionElements.FirstConnectorIs | frontend/src/lib/bpmn-namespaces.ts:106-169 | the connector is the first record under the first prefix of the context that has one, or else without prefix |
| ExtensionElements.NormalizeFieldsIsIdempotentIff | frontend/src/lib/bpmn-namespaces.ts:143-181 | normalising extension elements again changes nothing, order included, if and only if the merged properties hold no clash |
| NormalizedData.NormalizeBpmnData | frontend/src/lib/bpmn-namespaces.ts:183-204 | the loop over the twenty names and the last step compute the normalised data |
| NormalizedData.FirstExtensionElementsCount | frontend/src/lib/bpmn-namespaces.ts:158-202 | a list of extension elements is normalised like its first entry alone; anything but a record, and a record that nothing is left of, is removed |
| NormalizedData.NormalizeKeepsAttributes | frontend/src/lib/bpmn-namespaces.ts:54-70 | every vendor attribute reads from normalised data in the default context as it read from the data in the file's own |
| NormalizedData.NormalizeKeepsProperties | frontend/src/lib/bpmn-namespaces.ts:143-218 | the properties read from normalised data are those under any prefix of the file, merged and without duplicates |
| NormalizedData.NormalizeKeepsConnector | frontend/src/lib/bpmn-namespaces.ts:158-181 | the first connector under any prefix of the file is found again, rewritten, under the canonical one |
| NormalizedData.FilesKeepTheirMeaning | frontend/src/lib/bpmn-namespaces.ts:39-204 | so attributes, properties and connector keep their meaning whatever prefixes the root element of a file binds |
| NormalizedOrder.NormalizeIsIdempotentIff | frontend/src/lib/bpmn-namespaces.ts:183-204 | normalising once more changes nothing, nested data and order included, if and only if the merged properties hold no clash and the extension elements were not put last |
| NormalizedOrder.BindsBpmnIff | frontend/src/lib/bpmn-namespaces.ts:112-141 | they can be put last only in a file that binds the prefix `bpmn` to the vendor namespace |
| NormalizedOrder.ConnectorIsDisplaced | frontend/src/lib/bpmn-namespaces.ts:183-204 | such data, with an empty connector, is changed by normalising once more |
| NormalizedOrder.NormalizeIsIdempotent | frontend/src/lib/bpmn-namespaces.ts:143-204 | so it is idempotent when no property of the file is named `__unnamed_<n>` and `bpmn` is not so bound |
| NormalizedOrder.MoveAppends | frontend/src/lib/bpmn-namespaces.ts:188-194 | moving the attributes leaves the other fields in their order, with the attributes after them in the order of the names |
| NormalizedData.NormalizeKeepsFieldsIff | frontend/src/lib/bpmn-namespaces.ts:183-204 | whatever is bound, the values of all fields stay in a second pass if and only if the merged properties hold no clash |
| NormalizedData.SetArtificialFlowProperties | frontend/src/lib/bpmn-namespaces.ts:220-238 | the properties read back as written, less duplicates; no other key of the data and no other extension element reads differently |
| NormalizedData.ReadAfterWrite | frontend/src/lib/bpmn-namespaces.ts:211-238 | properties read as they were written, less the duplicates |
| NormalizedData.ReadAfterWriteKeepsFirstsIff | frontend/src/lib/bpmn-namespaces.ts:143-156 | they read as the first of each name, order kept, if and only if the list holds no clash |
| NormalizedData.WriteKeepsTheRest | frontend/src/lib/bpmn-namespaces.ts:220-238 | writing properties changes no other extension entry, not the connector, and no other key of the data |
| Connectors.ReadConnectorInputs | frontend/src/lib/connector-descriptors.ts:95-110 | each field reads from the node, else from the last property of its name, else as its default |
| Connectors.InputIsRead | frontend/src/lib/connector-descriptors.ts:102-125 | the same of one field: its text comes from the node unless that is missing or null, else from the last property with its trimmed name, else it is the default or empty |
| Connectors.BlanksAroundNameAreIgnored | frontend/src/lib/connector-descriptors.ts:118-123 | a property goes by its name less the blanks around it |
| Connectors.ApplyConnectorInputs | frontend/src/lib/connector-descriptors.ts:133-181 | the loops and the branches on the kept list compute the new data |
| Connectors.ApplyingKeepsTheRest | frontend/src/lib/connector-descriptors.ts:146-180 | applying inputs keeps the other keys, the other extension elements, and the properties with other names, as often as they were there and in their order, before those that are written |
| Connectors.PropertyIsWrittenIff | frontend/src/lib/connector-descriptors.ts:138-171 | of the properties under the keys, exactly those of the inputs that are not all blanks are there after applying |
| Connectors.LastWriteWins | frontend/src/lib/connector-descriptors.ts:133-181 | for one set of keys, applying inputs twice leaves the data of the second alone, up to the order of fields |
| Connectors.LastWriteWinsForKnownType | frontend/src/lib/connector-descriptors.ts:133-181 | for a known job type the last write wins |
| Connectors.UnknownTypeKeepsOldInput | frontend/src/lib/connector-descriptors.ts:138-144 | for an unknown job type it does not: an input that is no longer given stays among the properties |
| Connectors.LastWriteWinsIffKnownType | frontend/src/lib/connector-descriptors.ts:133-181 | so the last write wins for all data and inputs if and only if the job type is known |
| ConnectorReads.OfficialFieldsAreGood | frontend/src/lib/connector-descriptors.ts:20-75 | the field names of every official connector differ when case and blanks are ignored |
| ConnectorReads.ReadAfterApply | frontend/src/lib/connector-descriptors.ts:95-181 | after applying, each field reads as its input, or as its default when none was given |
| ConnectorReads.ReadAfterReload | frontend/src/lib/connector-descriptors.ts:95-181 | after the file was saved, read and normalised, each field reads as its input when not blank, and as its default otherwise |
| EventSetters.SetReference | frontend/src/lib/bpmn-event-definitions.ts:166-286 | after any of the four setters the event is of the kind set, refers to the id made from the text and remembers it, and keeps all its other keys |
| EventSetters.SetterGivesRoot | frontend/src/lib/bpmn-event-definitions.ts:166-372 | its catalogue then holds one root of its kind: the id made from the text, with the text as name or code |
| EventDefinitions.CollectRootEventCatalog | frontend/src/lib/bpmn-event-definitions.ts:305-372 | the loop over the nodes fills the four maps as the lemmas below say |
| EventDefinitions.CatalogHolds | frontend/src/lib/bpmn-event-definitions.ts:305-372 | a root id is in the catalogue if and only if some node adds it |
| EventDefinitions.LastNodeNames | frontend/src/lib/bpmn-event-definitions.ts:305-372 | a root has the name or code that the last node that adds it gives it |
| EventDefinitions.GivenNameCounts | frontend/src/lib/bpmn-event-definitions.ts:288-302 | which is the one the node remembers, less the blanks around it, if it remembers one |
| EventDefinitions.NameFromReference | frontend/src/lib/bpmn-event-definitions.ts:288-302 | a message or signal without a name is named as its reference, less the prefix and with blanks for underscores |
| EventDefinitions.ReceivedName | frontend/src/lib/bpmn-event-definitions.ts:359-363 | one that a task receives is named as its id, less the prefix |
| EventDefinitions.KindIsFirstDefinition | frontend/src/lib/bpmn-event-definitions.ts:48-76 | without a marker, an event is of the first kind, in the order of the checks, whose definition it has |
| EventDefinitions.MarkerCounts | frontend/src/lib/bpmn-event-definitions.ts:48-63 | a marker counts before all definitions, whatever blanks are around it and in small or capital letters |
| EventDefinitions.FirstReferenceCounts | frontend/src/lib/bpmn-event-definitions.ts:148-183 | of the places for a reference, the first that is not blank counts |
| EventDefinitions.IdsAreKept | frontend/src/lib/bpmn-event-definitions.ts:42-46 | a text that is made of id characters and begins like an id is its own id |
| EventDefinitions.RunBecomesOne | frontend/src/lib/bpmn-event-definitions.ts:42-46 | a run of other characters becomes one underscore |
| EventDefinitions.RootIdsAreDistinct | frontend/src/lib/bpmn-event-definitions.ts:305-372 | root ids are distinct within each kind |
| EventReferences.WriteDefinition | frontend/src/lib/bpmn-parser.ts:721-814 | making up, replacing and completing a definition computes what is written |
| EventReferences.GivenDefinitionIsKept | frontend/src/lib/bpmn-parser.ts:721-814 | a definition that is there is written as it is, but for the reference made up for an escalation or error event without one |
| EventReferences.HeldIsWritten | frontend/src/lib/bpmn-parser.ts:721-814 | the references an element is written with are exactly those its data holds: under both definition keys, or the made-up id where the generator makes up or completes the definition, and those of a receive task |
| EventReferences.AllCloseIff | frontend/src/lib/bpmn-parser.ts:721-814 | in any diagram, each reference that is written has its root element if and only if every reference that a node holds is the root id that some node adds |
| EventReferences.ClosesIff | frontend/src/lib/bpmn-parser.ts:721-814 | for one node alone: if and only if it adds every reference that it holds |
| EventReferences.EventClosesIff | frontend/src/lib/bpmn-parser.ts:721-814 | without receive reference: if and only if it holds none but the root id of its own kind |
| EventReferences.EventReferencesClose | frontend/src/lib/bpmn-parser.ts:721-814 | hence all references of a diagram have their root elements when every node carries only the definition of its kind with a trimmed reference equal to its remembered id |
| EventReferences.BlankAroundReferenceDangles | frontend/src/lib/bpmn-parser.ts:721-814 | a definition whose reference has a blank around it, on a node that remembers no id, does not close |
| EventSetters.OtherKindClosesIff | frontend/src/lib/bpmn-event-definitions.ts:166-286 | after a setter, the references of another kind have their roots if and only if no definition of that kind holds a reference |
| EventSetters.SetterClosesIff | frontend/src/lib/bpmn-event-definitions.ts:166-286 | after a setter, all references that are written have their roots if and only if no definition of another kind holds a reference |
| EventSetters.SwitchingKindsLeavesReference | frontend/src/lib/bpmn-event-definitions.ts:166-286 | so an event that referred to one kind and is switched to another is written with a reference that has no root element |
| EventReferences.BareMessageClosesIff | frontend/src/lib/bpmn-parser.ts:741-746 | a message or signal event with nothing but its marker closes if and only if its name comes out as the fixed part of the made-up id |
| EventReferences.BareCodeClosesIff | frontend/src/lib/bpmn-parser.ts:728-751 | an escalation or error event with nothing but its code closes if and only if the code as it stands and the code as it is cleaned give the same id; for a trimmed code, if and only if it begins like an id |
| EventReferences.BlankBehindCodeDangles | frontend/src/lib/bpmn-parser.ts:728-751 | for instance, not for the code `A` with a blank behind it |
| Bits.OrIsSum | backend/libs/id/id.go:72 | or-ing bits that do not meet adds them |
| Bits.MaskIsRemainder | backend/libs/id/id.go:58 | a mask of low bits takes the remainder |
| Snowflake.Node.NewNode | backend/libs/id/id.go:33-43 | a node exists exactly for the numbers that fit into ten bits, and starts at time and step zero |
| Snowflake.Node.Generate | backend/libs/id/id.go:45-73 | clamping, stepping, waiting and packing do the step of the machine: a new millisecond begins at step 0, a call returns at once with the next step while there are any, and otherwise waits for a later reading, and is still waiting if there is none |
| Snowflake.MillisecondHolds4096 | backend/libs/id/id.go:45-73 | in a new millisecond 4096 calls return at once, with steps 0, 1, 2 and so on, and the next one waits |
| Snowflake.PackIsSum | backend/libs/id/id.go:12-72 | the shifts and ors, with 64-bit wrap-around, give the sum of the three fields |
| Snowflake.FieldsAreRecovered | backend/libs/id/id.go:12-72 | step and node can be read back from every id, the time exactly when it fits into 42 bits, and then the id is non-negative exactly from the epoch on |
| Snowflake.NodesNeverCollide | backend/libs/id/id.go:72 | ids of different nodes differ, whatever their clocks say |
| Snowflake.IdsAlwaysIncreaseIff | backend/libs/id/id.go:45-73 | over every sequence of readings, regressions and exhausted steps included, ids increase strictly as long as, and only as long as, no reading is 2^41 milliseconds past the epoch |
| Claims.SplitTwice | backend/libs/auth/claims_mapper.go:112-128 | splitting on some separators and each piece on others is one split on all of them |
| Claims.PiecesMakeUpText | backend/libs/auth/claims_mapper.go:118-127 | the pieces with the separators between them make up the text |
| Claims.SeparatorsCommute | backend/libs/auth/claims_mapper.go:118-126 | the order of the separators makes no difference |
| Claims.ValueAsStringSlice | backend/libs/auth/claims_mapper.go:112-142 | the rounds of splitting and the list cases give the tokens of a single pass |
| Claims.TextClaim | backend/libs/auth/claims_mapper.go:112-128 | a text claim gives exactly the texts between commas and spaces, trimmed, not blank, distinct, in the order in which they come up first (scope syntax: section 3.3 of RFC 6749) |
| Claims.ListClaim | backend/libs/auth/claims_mapper.go:129-138 | a claim that is a list gives exactly the texts in it, trimmed, not blank and distinct |
| Claims.DedupeStrings | backend/libs/auth/claims_mapper.go:193-211 | the loop with its seen set computes the list the lemmas are about |
| Claims.DedupeIsIdempotent | backend/libs/auth/claims_mapper.go:193-211 | removing blanks and duplicates twice is like once |
| EdgeAnchors.AnchorIsOnRay | frontend/src/lib/floating-edge-utils.ts:11-38 | for a box of positive size and distinct centres the anchor is a positive multiple of the way from centre to centre |
| EdgeAnchors.AnchorIsOnRhombus | frontend/src/lib/floating-edge-utils.ts:11-38 | its offsets in half extents add up to one |
| EdgeAnchors.RhombusIsInBox | frontend/src/lib/floating-edge-utils.ts:11-38 | hence it lies in the box |
| EdgeAnchors.SideIsTowardsTarget | frontend/src/lib/floating-edge-utils.ts:58-77 | the side is left or right exactly when the other centre is strictly left or right, top or bottom only for aligned centres |
| EdgeAnchors.SidesFaceEachOther | frontend/src/lib/floating-edge-utils.ts:41-56 | the two ends of an edge are attached to opposite sides |
| EdgeAnchors.CoincidentCentres | frontend/src/lib/floating-edge-utils.ts:11-77 | with coincident centres both ends are in the centre and count as bottom |

## Left out

- XML text: reading and printing files; diagrams are element trees and records are JSON values.
- Rounding: coordinates and times of day are real numbers or integers, not floating point.
- Lanes in the round trip: the parser makes a lane the parent without making positions relative, so `ParseGenerateParse` has no lanes or pools.
- ParseGenerateParse: is about diagrams that are not edited in between (`NestingHoldsWhatGetsToTheProcess` is about edited ones); assumes distinct ids, flows that start in the container that lists them, and no top-level centre inside a sub-process box, as otherwise the generator files elements elsewhere; and coordinates that are not all zero, as otherwise, or when the name or id of the process forces it, the parser lays the diagram out anew.
- RoundTripIsIdentityIffSizesAreNonZero: has the same assumptions.
- BranchesFanOut: is about graphs with at most one edge into each node, as otherwise the lane closest to the middle wins (`LanesComeCloser`, `HeightsAreThoseOfWays`); the same holds of `TargetsStandApart`.
- OthersAreStray: counts elements; of sequence flows only `DeletedFlowComesBack` speaks.
- ParseContainer: lane sets, which are read after the flows, and the collaboration are not part of this model.
- Generate: linking containers by reference is modelled by unfolding them to a bound; `NestingIsFinite` shows that the bound makes no difference.
- Position: where a node is its own ancestor the generator does not return; the model stops at a bound, and the results about written diagrams exclude such links.
- Handles taken from the waypoints of an edge: an edge without stored handles counts as having no waypoints.
- Other data of nodes and edges in the round trip: labels, vendor attributes and event definitions are treated in their own modules.
- Sorting the outgoing edges by their own index in the layout: they already are in that order.
- Lower case is taken of the letters A to Z only, and keys that look like array indices are not moved to the front of an object.
- A value of `undefined` under a key counts as absent.
- Display names of messages and signals across a reload: they are derived lossily from the ids.
- RenewalFailureIsReturned: is a safety statement; that a handler or a remote call returns at all, and fairness of the scheduler, are not modelled.
- The calls to the workflow engine, token endpoint and verifier construction are outcomes that may be anything.
- The two token providers differ only in the request they send, so one class stands for both; a clock failure while the assertion is signed counts as a request that was not sent.
- `claimFirstStringSlice`, role claims and claim paths: short case splits on top of the tokens.
- Timer, link, conditional, terminate, compensate and cancel events refer to no root element and take part only in telling the kind of an event.
- `InitDefaultNode`: one node is modelled; making it anew starts its clock again.
