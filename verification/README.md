# Ticket inventory: a verified model

Ticket stock lives in four places at once. PostgreSQL holds one row per event and one row per ticket type, kept equal by
triggers; Valkey holds counters that refuse hopeless requests before the database sees them; OpenSearch holds a
projection for search; and a control row says which of the two SQL tables is authoritative. The project models these
parts, the refresh-token families and the purchase rate limiter beside them, and proves what keeps them consistent.

How the modules build on each other:

- `InventoryTables`, `InventoryTriggers`, `Purchases`, `WriterSwitch`, `InventoryRuns`: the database. A session runs the
  trigger cascade statement by statement; the purchase transaction and the mode switch refine specifications; invariants
  and version laws hold over every run.
- `Counters`, `Prefilter`, `CounterDrift`, `PurchaseService`, `CounterSeed`: the counters. Every script and every database transaction is
  one step, requests interleave arbitrarily, and the service methods are proved to be the same protocol run alone.
- `InventoryMessages`, `Projection`, `Confluence`, `EndToEnd`, `Reconciliation`, `Rebuild`, `IndexRuns`, `Recovery`,
  `Repair`: the projection, from one scripted update to a rebuild of the whole index. `EndToEnd` and `Recovery` join it to
  the database: the versions a run produces are what makes the scripts safe.
- `WriterBarrier`, `SwitchRun`: the barrier between writers and switches, and the cutover command.
- `Resolver`, `RateLimit`, `RefreshTokens`, `TokenCleanup`, `Keyset`: the stateful services around them.

Assumptions that are stated in the modules and not proved: Valkey answers and keeps its keys, processes do not die
between two steps of a request, random identifiers are never drawn twice, one SQL transaction is atomic (except in
`WriterBarrier`, which is about the steps inside), and the limiter's clock does not run backwards.

Four results differ from what one might expect of the code, each with its exact condition:

- The answer of the verification after a lost COMMIT is right only while an even number of other switches committed in
  between (`WriterBarrier.VerificationIsConclusive`).
- A counter stays exact across a reconcile only if nothing was reserved when the stock was read, or somebody wrote the
  counter before the reconcile did (`Prefilter.ReconcileIsExactIff`); otherwise it ends above the stock, never below.
- An added type moves the event row without publishing it, so the event fields of the projection stay behind until the
  next confirmed purchase or a rebuild (`EndToEnd.EventProjectionConvergesIff`).
- The limiter's bound is one sharper than twice the limit (`RateLimit.LessThanTwiceTheLimit`, reached by
  `RateLimit.BoundIsReached`).

`dafny verify dfyconfig.toml` checks the whole project.

## Model

| member | source | states |
|---|---|---|
| InventoryTriggers.Session.LegacyStatement | src/database/migrations/1785542400000-add-ticket-type-compatibility-writer.ts:265-314 | A top-level legacy write is accepted exactly in legacy mode with a valid row and a default type, whatever the client set mirror_origin to, and then also copies the row to the default type; triggers nest at most two levels below the statement. |
| InventoryTriggers.Session.TypeStatement | src/database/migrations/1785542400000-add-ticket-type-compatibility-writer.ts:321-377 | A top-level type write is accepted exactly in ticket_type mode when the row and the resulting aggregate are valid, and then sets the legacy row to the sums with version + 1; the same depth bound. |
| InventoryTriggers.Session.ForwardBridge | src/database/migrations/1785542400000-add-ticket-type-compatibility-writer.ts:78-131 | Copies a legacy row onto the default type at depth 1, and does nothing when a mirror fires it. |
| InventoryTriggers.Session.ReverseMirror | src/database/migrations/1785542400000-add-ticket-type-compatibility-writer.ts:473-563 | Writes the aggregate with the next version at depth 1, and does nothing deeper or under another origin. |
| InventoryTriggers.Session.FenceStatement | src/database/migrations/1785542400000-add-ticket-type-compatibility-writer.ts:187-253 | At depth 1 the table of the inactive writer is always refused; deeper only the mirror directions of the mode pass. |
| InventoryTriggers.Session.GuardLegacyWrite | src/database/migrations/1785542400000-add-ticket-type-compatibility-writer.ts:265-314 | Row guard of the legacy table: raise or keep, by depth, mode and origin. |
| InventoryTriggers.Session.GuardTypeWrite | src/database/migrations/1785542400000-add-ticket-type-compatibility-writer.ts:321-377 | Row guard of the type table: raise, keep, or skip the echo of a mirror. |
| InventoryTriggers.AggregateStock | src/database/migrations/1785542400000-add-ticket-type-compatibility-writer.ts:539-541 | The loop over the rows returns the two SQL sums. |
| InventoryTriggers.WrittenRows | src/database/migrations/1785542400000-add-ticket-type-compatibility-writer.ts:78-131 | In rows: an accepted type write leaves that row, the aggregate of all rows with the next version, and every other row; an accepted legacy write leaves that row and the same row for the default type. |
| InventoryTables.SoldByType | src/purchases/purchases.service.ts:624-861 | Confirmed quantity summed by type is confirmed quantity of the event, once every purchase has a type of the event. |
| Purchases.ExecutePurchaseTransaction | src/purchases/purchases.service.ts:624-861 | The step-by-step transaction, with its rollbacks and its trigger cascade, has exactly the state and answer of the purchase specification. |
| Purchases.ResolveTicketType | src/purchases/purchases.service.ts:864-936 | The chosen type, or the single type of the event, or the error of the branch that fails. |
| Purchases.CreateEvent | src/events/events.service.ts:64-183 | In either mode the new event has one default type, full stock of version 0 in the written table and its mirror in the other. |
| Purchases.RetryChangesNothing | src/purchases/purchases.service.ts:1001-1063 | Once a key has a row no retry changes anything; a fresh lookup answers with the stored result or a conflict, a racing one the same or an error before its INSERT. |
| Purchases.PurchaseKeepsKeysUnique | src/purchases/purchases.service.ts:831-857 | No committed transaction, racing or not, leaves two rows with one idempotency key; the purchases grow by at most the row whose result was returned. |
| Purchases.ResolveCases | src/purchases/purchases.service.ts:864-936 | Which type is chosen and which error is raised, in terms of the types of the event, the mode and the type asked for. |
| Purchases.CreatedOutcome | src/purchases/purchases.service.ts:624-861 | A new purchase is confirmed exactly if the quantity fits the row of the active writer, which falls by it and rises by one version; answer and appended row carry the remainder of the event exactly when confirmed, null otherwise. |
| Purchases.CreatedChange | src/purchases/purchases.service.ts:780-826 | A confirmed purchase carries the committed rows of its event and type for publication, a rejected one nothing. |
| Purchases.ReplayedOutcome | src/purchases/purchases.service.ts:638-663 | A replay answers field by field with a stored row of the same buyer, key, quantity and, if one was asked for, type. |
| Purchases.CreatedEventIs | src/events/events.service.ts:64-183 | The rows of a new event: name of the default type, full stock, version 0 in the written table. |
| InventoryRuns.PurchaseKeepsInv | src/purchases/purchases.service.ts:938-972 | A purchase keeps: tables equal, bounds, versions of types at most the legacy version, stock missing equals confirmed quantity. |
| InventoryRuns.SwitchKeepsInv | src/cutover/ticket-type-writer-mode-switch.ts:145-261 | A mode switch that passed its checks keeps the same invariant for the other mode. |
| InventoryRuns.RunKeepsInv | src/purchases/purchases.service.ts:624-861 | The invariant holds after every run of creations, purchases, switches and added types. |
| InventoryRuns.Conservation | src/cutover/ticket-type-cutover-readiness.ts:237-273 | In every reachable state legacy total and remaining are the sums over types, 0 <= remaining <= total, and total - remaining is the confirmed quantity, per type and per event. |
| InventoryRuns.SwitchSucceedsIff | src/cutover/ticket-type-writer-mode-switch.ts:182-222 | In every reachable state a switch succeeds exactly when the current mode is the source, the schema stood still and, towards legacy, every event has one type. |
| InventoryRuns.RunIsLater | src/database/migrations/1785542400000-add-ticket-type-compatibility-writer.ts:106-127 | Over every run versions never fall, an equal version means an equal row, names and purchases are never rewritten. |
| InventoryRuns.ConfirmedRaisesVersions | src/database/migrations/1785542400000-add-ticket-type-compatibility-writer.ts:554-559 | A confirmed purchase strictly raises both the type and the event version in either mode, takes the quantity from both rows, touches no other type, and publishes the committed rows. |
| InventoryRuns.RetryAnswersFirstResult | src/purchases/purchases.service.ts:638-663 | After any run a same-payload retry answers exactly the first committed result, a differing payload fails, and neither changes the database. |
| InventoryRuns.CommittedKeyPersists | src/purchases/purchases.service.ts:1001-1017 | The row of a committed key is the one every later lookup finds. |
| InventoryRuns.ReachableAborts | src/purchases/purchases.service.ts:780-857 | In reachable states a purchase of a type of the event is rolled back by a database error exactly when it would be confirmed and a version that has to rise is at the end of its range; nothing else in the trigger cascade fails. |
| WriterSwitch.CheckDatabase | src/cutover/ticket-type-cutover-readiness.ts:530-573 | The category loops report clean exactly when no event violates any parity category under the expected mode. |
| WriterSwitch.CheckEvent | src/cutover/ticket-type-cutover-readiness.ts:150-300 | Going through every category, with scans over types, stock and purchases and the two sums, an event is reported clean exactly when it violates none. |
| WriterSwitch.UnmirroredIff | src/cutover/ticket-type-cutover-readiness.ts:182-196 | The mirror of a legacy row is missing exactly when the event has no default type or the default type no stock. |
| WriterSwitch.EventCleanIff | src/cutover/ticket-type-cutover-readiness.ts:150-300 | An event without violations has one stock row per type, a default type, purchases of its types only and an aggregate that is the sum of its stock; under legacy expectation the default is the only type. |
| WriterSwitch.ExecuteWriterModeSwitch | src/cutover/ticket-type-writer-mode-switch.ts:145-261 | The mode changes exactly when both parity checks and the schema comparison passed and COMMIT took effect; what the caller is told follows from the fate of COMMIT. |
| SwitchRun.RunWriterModeSwitch | src/cutover/ticket-type-writer-mode-switch.ts:381-554 | The whole command: nothing changes unless the preflight was green and the transaction passed, each outcome occurs exactly in its case, and an ambiguous COMMIT is reported as the target mode exactly when it committed. |
| SwitchRun.CheckPreflight | src/cutover/ticket-type-writer-mode-switch.ts:391-470 | The preflight is green exactly when database, counters and projection show no violation for the source mode. |
| SwitchRun.GreenIff | src/cutover/ticket-type-writer-mode-switch.ts:391-470 | Green in terms of the stores: every event is clean, the projection has no difference, every type row has a counter equal to it with a safe revision, every event counter equals its row (it may be absent only before a switch away from legacy), and no type counter is without a row. |
| WriterBarrier.RunKeepsInv | src/database/inventory-writer-control.ts:29-82 | Exclusion, and every mode read under the barrier being current, in every interleaving of writers, switches and verifications. |
| WriterBarrier.ReadModeStaysValid | src/database/inventory-writer-control.ts:102-117 | The mode a barrier-holding transaction has read is still the control value at each of its later steps. |
| WriterBarrier.NeverRejectedAsInactive | src/database/migrations/1785542400000-add-ticket-type-compatibility-writer.ts:187-253 | So the fence accepts its statements on the table of that mode at each step, and on no other table. |
| WriterBarrier.SwitchRunsAlone | src/database/inventory-writer-control.ts:67-82 | No writer is in flight while a switch holds the barrier. |
| WriterBarrier.VerificationIsConclusive | src/cutover/ticket-type-writer-mode-switch.ts:330-371 | When the verification answers, the original switch has ended, and the answer is the target exactly when it committed, if and only if an even number of other switches committed in between. |
| WriterBarrier.ThirdSwitchMisleads | src/cutover/ticket-type-writer-mode-switch.ts:330-371 | A concrete third switch that makes the verification report the source mode after a committed switch. |
| WriterBarrier.VerificationCanWait | src/cutover/ticket-type-writer-mode-switch.ts:330-371 | The state of that counterexample is reachable. |
| WriterBarrier.StepGoesForward | src/database/inventory-writer-control.ts:29-82 | In every step a transaction only goes forward, keeps its kind and what it has read, and never changes once it has ended. |
| WriterBarrier.CanDrain | src/cutover/ticket-type-writer-mode-switch.ts:330-371 | From every reachable state all that is in flight can end without moving the control row, so nothing blocks for good. |
| WriterBarrier.GetsThrough | src/cutover/ticket-type-writer-mode-switch.ts:145-261 | With nothing in flight a writer commits and leaves the control row, and a switch from its source mode moves it. |
| Counters.CounterStore.RunReserve | src/cache/inventory-cache.service.ts:68-82 | Unknown, sold out or a decrement with a higher revision, exactly as specified. |
| Counters.CounterStore.RunRelease | src/cache/inventory-cache.service.ts:84-94 | An absent counter is not created; otherwise the quantity returns and the revision rises. |
| Counters.CounterStore.RunSync | src/cache/inventory-cache.service.ts:96-113 | Compare-and-set on the revision, with the EXISTS guard where the script has one. |
| Counters.CounterStore.RunInit | src/cache/inventory-cache.scripts.ts:13-26 | Sets the counter and raises the revision. |
| Counters.ScriptEffect | src/cache/inventory-cache.service.ts:68-145 | A change of a counter raises its revision by one, and no other counter of either namespace moves. |
| Counters.RevisionCounts | src/cache/inventory-cache.service.ts:241-257 | Over any calls the revision stays equal exactly when nobody wrote the counter, and then the value is the same. |
| Counters.SyncWritesIff | src/cache/inventory-cache.service.ts:96-113 | A sync writes if and only if no reserve, release, init or sync touched the counter since its anchor was read (and the counter exists, where guarded). |
| Prefilter.RemedyFacts | src/purchases/purchases.service.ts:486-604 | After every outcome a reservation has become a purchase of the counted row, or is given back or corrected with the database value of the same row; a correction happens exactly when the transaction saw a remainder that the request did not book. |
| Prefilter.CorrectionWrites | src/purchases/purchases.service.ts:558-576 | A correction by an untouched revision makes the counter equal to the row after: for a confirmed purchase without a reservation, and for a rejected one with it. |
| Prefilter.GateRefusesIff | src/purchases/purchases.service.ts:203-223 | The gate turns a request away exactly when it has no idempotency key and a counter that exists is below its quantity, and reserves exactly when an existing counter has room. |
| Prefilter.ArrivalIs | src/purchases/purchases.service.ts:199-223 | Requests arrive while others are under way and disturb nothing. |
| Prefilter.OperationsReachTables | src/events/events.service.ts:130-183 | Switches, added types and creations act on the tables of the protocol as on those of a run; creation leaves one counter to initialise. |
| Prefilter.JobsReadAndWrite | src/cutover/reconcile-inventory-counters.ts:348-410 | A seed or reconcile writes the stock it read: always without a noted revision, and with one exactly if the counter exists and nobody wrote it. |
| Prefilter.TransactKeepsInv | src/purchases/purchases.service.ts:427-460 | The transaction step keeps the counter invariant of every key, with a lost COMMIT answer or an exception included. |
| Prefilter.RemedyKeepsInv | src/purchases/purchases.service.ts:559-604 | Release and sync steps keep the counter invariant of every key. |
| Prefilter.StepKeepsInv | src/purchases/purchases.service.ts:199-473 | Every step of every request, seed, reconcile, creation and switch keeps the counter invariant. |
| Prefilter.CounterNeverForgetsStock | src/purchases/purchases.service.ts:199-286 | In every interleaving counter + open reservations >= remaining, for every type row and for every event row while the event has one type. |
| Prefilter.SoldOutIsTrue | src/purchases/purchases.service.ts:203-223 | With nothing held open, a request the gate answers with sold out would not have been confirmed by the database. |
| Prefilter.HeldIsNeverRejected | src/purchases/purchases.service.ts:376-473 | On an exact counter, a request that got a reservation is confirmed or fails; the database never answers sold out. |
| Prefilter.ExactAlways | src/purchases/purchases.service.ts:376-604 | From a synced counter of a single-type event, stock = counter + open reservations stays exact under any interleaving without idempotency keys, lost answers, added types or a seed of that row; mode switches are allowed, and so is every reconcile that read the stock with nothing open or noted an older revision. |
| Prefilter.FreshCounterIsExact | src/events/events.service.ts:130-183 | An event whose counter was initialised before its first request starts exact. |
| Prefilter.ReconcileIsExactIff | src/cutover/reconcile-inventory-counters.ts:348-410 | A reconcile notes the revision and reads the stock, any such run goes by, and it writes: the counter is exact afterwards if and only if somebody wrote it in between or no reservation was open at the read. |
| CounterDrift.DriftAccounts | src/purchases/purchases.service.ts:427-604 | Over any interleaving without an overwrite of the counter, idempotency keys and lost COMMIT answers included, counter + open reservations - stock grows by exactly the quantity confirmed without a reservation whose outcome was seen. |
| PurchaseService.Service.CreatePurchaseLegacy | src/purchases/purchases.service.ts:199-286 | Run alone, the legacy path leaves exactly the database, counters and answer of the interleaved protocol, and publishes the committed rows of a new confirmed purchase and nothing otherwise. |
| PurchaseService.Service.CreatePurchaseTicketType | src/purchases/purchases.service.ts:376-473 | The same for the ticket type path and for the bypass. |
| PurchaseService.Service.ReconcileTicketTypeCounter | src/purchases/purchases.service.ts:486-604 | The nested compensation branches do what the remedy of the outcome says, on the one counter of the request. |
| PurchaseService.AloneIs | src/purchases/purchases.service.ts:199-286 | A refused request changes nothing; any other runs gate, transaction and remedy, and ends with nothing left to do. |
| PurchaseService.PublishedRows | src/purchases/purchases.service.ts:324-367 | A new confirmed purchase publishes the committed rows of its event and type; nothing else is ever published. |
| PurchaseService.PublishedIsCounted | src/purchases/purchases.service.ts:324-367 | What the service publishes for a purchase is what the run of the database counts as published by it. |
| PurchaseService.RefusedIff | src/purchases/purchases.service.ts:203-223 | A refusal before the transaction needs a request without an idempotency key and a counter that is present and too low. |
| PurchaseService.KeyedRetryIsAnswered | src/purchases/purchases.service.ts:203-223 | A retry with the key of a committed purchase is answered with its result after any run, whatever the counter shows. |
| PurchaseService.BypassCorrects | src/purchases/purchases.service.ts:558-576 | A keyed request that passed a counter too low for it and was confirmed leaves that counter equal to the row. |
| PurchaseService.SyncedStaysSynced | src/purchases/purchases.service.ts:427-439 | An undisturbed purchase leaves a counter equal to its row equal again, whatever the mode, plan, key or outcome; only a lost answer of a confirmed purchase leaves it above, by exactly the quantity; no other counter moves. |
| Resolver.LoadPlanFromDatabase | src/purchases/ticket-type-resolver.service.ts:174-224 | Legacy scope in legacy mode, the only type of a single-type event, and many types otherwise. |
| Resolver.LoadedPlanIs | src/purchases/ticket-type-resolver.service.ts:174-224 | Legacy scope exactly in legacy mode, and a type exactly when it is the only one of the event. |
| Resolver.LoadedPlanIsStocked | src/purchases/ticket-type-resolver.service.ts:174-224 | In a reachable state a loaded plan names a counter whose stock row exists, and none exactly when the type is omitted and the event has not exactly one. |
| Resolver.ScopeFits | src/purchases/purchases.service.ts:380-393 | Whatever plan is cached, an explicit type decides the counter, and only an omitted type of a many-type event bypasses it. |
| Resolver.InitialKeyIsAsked | src/events/events.service.ts:130-183 | The counter initialised when an event is created is the one its requests ask under the plan loaded next, in either mode. |
| Resolver.LruKeepsMostRecent | src/purchases/ticket-type-resolver.service.ts:145-172 | While nothing is dropped, the bounded insertion order holds exactly the most recently used events, in order of use. |
| Resolver.LruIsTail | src/purchases/ticket-type-resolver.service.ts:136-172 | With expiry and invalidation between the uses, the cache is always a tail of the recency list, within its bound. |
| Resolver.DropLeavesRoom | src/purchases/ticket-type-resolver.service.ts:136-172 | A concrete run in which that tail is shorter than the bound allows. |
| Resolver.TicketTypeResolver.GetFresh | src/purchases/ticket-type-resolver.service.ts:145-158 | An expired entry leaves, a served one becomes the newest, nothing else changes. |
| Resolver.TicketTypeResolver.StoreInternal | src/purchases/ticket-type-resolver.service.ts:160-172 | The entry becomes the newest, the size never exceeds the bound, and the order is that of the bounded list of touches. |
| Resolver.TicketTypeResolver.Resolve | src/purchases/ticket-type-resolver.service.ts:89-124 | A hit was primed or read from the tables by a load started after the last reset of the event, within the time to live; a miss joins the load in flight or starts the only one. |
| Resolver.TicketTypeResolver.Commit | src/purchases/ticket-type-resolver.service.ts:18-22 | A commit by anyone else, a switch or an added type among them, goes unnoticed: no entry changes, and what is said of served plans below still holds. |
| Resolver.FreshPlanIsCurrent | src/purchases/ticket-type-resolver.service.ts:89-139 | So a served plan is the one primed by the last reset of the event, or what the last commit before some moment after it had left in the tables. |
| Resolver.ResetsIff | src/purchases/ticket-type-resolver.service.ts:131-142 | A reset of an event is its prime or its invalidation, and nothing else. |
| Resolver.TicketTypeResolver.Arrive | src/purchases/ticket-type-resolver.service.ts:102-112 | A load stores its plan exactly if it is still the one in flight, so a reset during the load discards it. |
| Resolver.TicketTypeResolver.Settle | src/purchases/ticket-type-resolver.service.ts:117-123 | A load removes only its own in-flight entry. |
| Resolver.TicketTypeResolver.Prime | src/purchases/ticket-type-resolver.service.ts:131-134 | The primed plan is stored as newest and pending loads of the event are disowned. |
| Resolver.TicketTypeResolver.Invalidate | src/purchases/ticket-type-resolver.service.ts:139-142 | The entry and pending loads of the event are dropped. |
| InventoryMessages.BuildParse | src/messaging/inventory-event.contract.ts:242-269 | A built payload is accepted unchanged exactly when it is well-formed, and refused otherwise, with or without a trace context. |
| InventoryMessages.NoLegacyFallback | src/messaging/inventory-event.contract.ts:118-160 | A payload with any versioned marker is never taken for a legacy one. |
| InventoryMessages.ParseBuild | src/messaging/inventory-event.contract.ts:118-237 | What is accepted is well-formed and every field the parser read is rebuilt. |
| InventoryMessages.VersionedIff | src/messaging/inventory-event.contract.ts:118-237 | A payload is taken for a versioned change if and only if it carries every field of a well-formed one. |
| InventoryMessages.LegacyIff | src/messaging/inventory-event.contract.ts:118-160 | And for a legacy change if and only if it has an event, a remainder in range and no versioned marker. |
| InventoryMessages.NonBlankNames | src/messaging/inventory-event.contract.ts:110-116 | White space alone is no name; one other character, whatever surrounds it, is. |
| Projection.GuardScript | src/search/events-projection.store.ts:79-149 | The loop and branches of the guard compute its specification: apply, keep, or throw, on the type and the event independently. |
| Projection.LegacyScript | src/search/events-projection.store.ts:158-165 | Only an unversioned document takes the legacy quantity. |
| Projection.MetadataScript | src/search/events-projection.store.ts:181-202 | Metadata is replaced, location set, cleared or kept, quantities seeded only where missing and unversioned. |
| Projection.ResolveLocation | src/search/events-projection.store.ts:223-246 | Preserve exactly when both are absent; invalid exactly when one is not finite or the two do not match. |
| Projection.Index.Update | src/search/events-projection.store.ts:295-318 | One upserting update stores what the script wrote, and leaves every other document and every refused update alone. |
| Projection.GuardWrites | src/search/events-projection.store.ts:79-149 | Whatever the guard writes names its event, leaves metadata alone, and moves the event fields and the top-level quantities together, exactly when the message is newer. |
| Projection.LegacyWrites | src/search/events-projection.store.ts:158-165 | A legacy update writes exactly while the document is unversioned, names the event and sets the top-level remainder, and nothing else. |
| Projection.MetadataWrites | src/search/events-projection.store.ts:181-202 | Field by field: metadata replaced, location by directive, quantities seeded only where missing and only while unversioned, inventory fields kept. |
| Confluence.CorruptionIff | src/search/events-projection.store.ts:108-139 | The guard throws exactly on an equal version with different values; applying a message twice writes once. |
| Confluence.GuardKeepsMirror | src/search/events-projection.store.ts:79-149 | A consistent message never raises corruption and leaves the document showing exactly the messages so far. |
| Confluence.DeliveryMirrors | src/search/events-projection.store.ts:79-202 | Any sequence of consistent messages, legacy and metadata updates raises no corruption and shows exactly its messages. |
| Confluence.OrderDoesNotMatter | src/search/events-projection.store.ts:79-202 | Two deliveries of the same messages, in any order, with any repetition and any other updates between, end in the same types map and event fields. |
| Confluence.NewestWins | src/search/events-projection.store.ts:96-139 | Per type and per event the document shows a message exactly when no other outranks it, with top-level quantities equal to the event fields. |
| Confluence.DeliveryNames | src/search/events-projection.store.ts:142-143 | Once any update of an event was written, its document carries the id of the event, through every later delivery. |
| EndToEnd.SayableAgrees | src/database/migrations/1785542400000-add-ticket-type-compatibility-writer.ts:106-127 | Everything any committed state of a run can say about an event is mutually consistent. |
| EndToEnd.PublishedIsSayable | src/purchases/purchases.service.ts:324-367 | What purchases publish describes states they committed. |
| EndToEnd.SoldTypesArePublished | src/purchases/purchases.service.ts:324-367 | The current row of every type somebody bought has been published. |
| EndToEnd.ProjectionConverges | src/search/events-projection.store.ts:79-202 | For every database run and every delivery of its messages no corruption is raised, and once everything published has arrived every bought type shows its database row. |
| EndToEnd.EventProjectionConvergesIff | src/search/events-projection.store.ts:115-139 | With exactly the published messages delivered, in any order and with other updates between, the event fields show the event row if and only if a confirmed purchase was the last to move it; several types included. |
| EndToEnd.EventProjectionConverges | src/search/events-projection.store.ts:115-139 | The positive half also with rebuild payloads of any past state among the messages, and with the top-level quantities. |
| EndToEnd.PublishedOnlyWhen | src/purchases/purchases.service.ts:324-367 | The current event row has been published only if a confirmed purchase was the last to move it. |
| EndToEnd.AddedTypeHidesEventRow | src/purchases/purchases.service.ts:324-367 | A concrete run (create, switch, sell, add a type) whose event row no delivery of its messages shows. |
| EndToEnd.OnlyAddedTypesHide | src/purchases/purchases.service.ts:324-367 | Where no type is ever added, the first confirmed purchase is enough. |
| EndToEnd.RebuildConverges | src/search/inventory-rebuild.service.ts:69-155 | If the payloads of the final state are among the delivered ones, the whole versioned view equals the tables. |
| EndToEnd.SayableSurvivesTheWire | src/messaging/inventory-event.contract.ts:118-237 | The consumer accepts every message of a reachable state exactly when the type has a non-blank name. |
| Reconciliation.CompareEvent | src/search/inventory-reconciliation.service.ts:192-340 | The three loops record exactly the specified multiset of findings. |
| Reconciliation.CleanIff | src/search/inventory-reconciliation.service.ts:192-340 | Nothing is recorded if and only if document and database agree on versions, quantities, names, the set of types and metadata. |
| Reconciliation.HeadlessFindings | src/search/inventory-reconciliation.service.ts:205-248 | A document without a readable versioned header gets exactly one finding: unversioned if nothing versioned but something else can be read, malformed otherwise. |
| Reconciliation.EventReportedIff | src/search/inventory-reconciliation.service.ts:249-293 | Each finding about the event is recorded once, exactly when its condition holds of the stored values; an element without an id counts once each. |
| Reconciliation.RowReportedIff | src/search/inventory-reconciliation.service.ts:294-332 | Each finding about a row is recorded once, exactly when the last element with its id is missing, unreadable, of another version with that value, or of the same version with other values. |
| Reconciliation.StrangerReportedIff | src/search/inventory-reconciliation.service.ts:334-340 | A type without a row is recorded as unexpected exactly when an element has its id, and in no other category. |
| Rebuild.PayloadsReceived | src/search/events-projection.store.ts:96-139 | After guarded updates that did not throw, each type shows the newer of stored and sent, and the event likewise. |
| Rebuild.RebuildSucceedsIff | src/search/inventory-rebuild.service.ts:69-155 | A rebuild of an event throws nowhere if and only if nothing stored contradicts the snapshot at an equal version and the coordinates are both set or both missing. |
| Rebuild.RebuildThenCompareClean | src/search/inventory-rebuild.service.ts:69-155 | Rebuild succeeds and compare is clean if and only if the document had no unexpected type, nothing newer and nothing contradicting. |
| Rebuild.TypelessStaysUnversioned | src/search/inventory-reconciliation.service.ts:212-240 | An event without types is still reported as unversioned after a rebuild. |
| IndexRuns.RebuildInventoryProjection | src/search/inventory-rebuild.service.ts:69-155 | For every bulk size the index ends as if each update had been sent alone, with the fewest requests; it fails exactly when an update threw. |
| IndexRuns.Bulk.Push | src/search/inventory-rebuild.service.ts:95-104 | Buffers, and sends a full buffer, without losing or reordering an update. |
| IndexRuns.CeilIsLeast | src/search/inventory-rebuild.service.ts:95-104 | The number of requests is the least that holds all updates. |
| IndexRuns.TypeCountJoin | src/search/inventory-rebuild.service.ts:69-155 | The types counted by a rebuild are those of all its snapshots. |
| IndexRuns.IterateAuthoritative | src/search/inventory-projection-source.ts:86-177 | Every event exactly once, in id order, whatever the page size, with the rows of the table. |
| IndexRuns.RebuiltDocument | src/search/inventory-rebuild.service.ts:69-155 | A whole rebuild leaves in each document what the updates of its own event make of it. |
| IndexRuns.ReconcileInventoryProjection | src/search/inventory-reconciliation.service.ts:116-190 | The counters of the report do not depend on the page size. |
| IndexRuns.DiffsZeroIff | src/search/inventory-reconciliation.service.ts:116-190 | No difference is counted exactly when every event has an agreeing document. |
| IndexRuns.RebuildThenReconcileClean | src/search/inventory-rebuild.service.ts:69-155 | A rebuild of the whole index succeeds and the reconciliation after it reports nothing if and only if no document holds an unexpected type, anything newer or anything contradicting, coordinates come in pairs, and no document belongs to an unknown event. |
| Recovery.FedDocumentFits | src/search/events-projection.store.ts:79-149 | A document fed by any messages of a run is never ahead of the tables and never contradicts them. |
| Recovery.PublishedMayBeFed | src/purchases/purchases.service.ts:324-367 | Whatever a run published may be fed to the index in any order, so the results below apply to it. |
| Recovery.AnyDeliveryRecovers | src/search/inventory-reconciliation.service.ts:192-340 | For every run and every partial delivery, reconciliation never reports corruption, and one rebuild makes it report nothing exactly when the coordinates come in a pair. |
| Recovery.WholeIndexRecovers | src/search/inventory-rebuild.service.ts:69-155 | The same for a whole index fed by one run: one rebuild of the index leaves nothing to report, if and only if every event has both coordinates or none. |
| Recovery.RebuildAndReconcile | src/search/inventory-rebuild.service.ts:69-155 | And from the tables: paging, rebuilding in bulk, paging again and reconciling reports no error and no difference, whatever the page and bulk sizes, if and only if every event has both coordinates or none. |
| Repair.RepairScript | src/search/projection-repair.service.ts:122-159 | The nested loops overwrite exactly the entries with equal version and different values, or throw on an unreadable one; noop exactly when nothing changed. |
| Repair.RepairKeepsVersions | src/search/projection-repair.service.ts:122-159 | No version, id or position changes, and nothing of another version is touched. |
| Repair.RepairIdempotent | src/search/projection-repair.service.ts:122-159 | Repairing again is a noop. |
| Repair.EventRepair | src/search/projection-repair.service.ts:146-156 | The two aggregate and the two top-level quantities are set together, exactly when an aggregate value differs at an equal version; otherwise all four stay. |
| Repair.EntriesRepair | src/search/projection-repair.service.ts:127-144 | Every element at the version of its row shows that row afterwards. |
| Repair.ThrowsIff | src/search/projection-repair.service.ts:122-159 | The script throws if and only if it reaches a quantity that is not there at an equal version. |
| Repair.EventDiffIff | src/search/projection-repair.service.ts:274-302 | The dry run lists an aggregate quantity exactly when it can be read and differs at an equal version. |
| Repair.RowDiffersIff | src/search/projection-repair.service.ts:304-351 | And a field of a type exactly when the first element with its id can be read and differs in it at an equal version. |
| Repair.MalformedIff | src/search/projection-repair.service.ts:352-362 | The refusals: malformed exactly when a quantity at an equal version cannot be read, no corruption exactly when the dry run lists nothing. |
| Repair.RepairedIsCompatible | src/search/projection-repair.service.ts:122-159 | After a repair the guard raises corruption on no payload of the same snapshot. |
| Repair.RepairThenRebuildSucceeds | src/search/projection-repair.service.ts:122-159 | So a rebuild from the snapshot succeeds, exactly when the coordinates come in a pair. |
| Repair.RepairThenRebuildClean | src/search/projection-repair.service.ts:245-391 | Repair, rebuild, compare: clean if and only if the repair could read what it compares, coordinates come in a pair, and the document held nothing newer than the snapshot and no unexpected type. |
| Repair.RepairWritesIff | src/search/projection-repair.service.ts:278-351 | On readable documents without repeated ids the script writes exactly when the dry run shows a difference. |
| Repair.RepairContractCorruption | src/search/projection-repair.service.ts:245-391 | Diff and refusals are those of the dry run; nothing is written without apply or with a refusal; applied is reported exactly when the script wrote. |
| Repair.UnrefusedRepairWrites | src/search/projection-repair.service.ts:245-391 | A repair that is not refused writes, and the next one is refused for lack of corruption. |
| Repair.RemovalHelps | src/search/projection-repair.service.ts:105-113 | Removing an orphan removes every element with the id and changes no other type. |
| Repair.RunbookConverges | src/search/projection-repair.service.ts:105-159 | Removing all unexpected types, repairing, rebuilding: clean if and only if the repair could read what it compares, coordinates come in a pair, and the document was not ahead. |
| RefreshTokens.RefreshTokensService.IssueToken | src/auth/refresh-tokens.service.ts:77-107 | A new family with one live token. |
| RefreshTokens.RefreshTokensService.RotateToken | src/auth/refresh-tokens.service.ts:109-207 | Unknown, reused, expired or rotated: state and answer of each case. |
| RefreshTokens.RefreshTokensService.RevokeFamilyByToken | src/auth/refresh-tokens.service.ts:210-228 | Revokes what is not revoked yet in the family of a known token. |
| RefreshTokens.StepKeepsInv | src/auth/refresh-tokens.service.ts:77-228 | Every family stays one chain, linked both ways by parent and replaced_by. |
| RefreshTokens.RunKeepsInv | src/auth/refresh-tokens.service.ts:77-228 | So in every state of every run. |
| RefreshTokens.StartInv | src/auth/refresh-tokens.service.ts:77-107 | The empty table is such a state. |
| RefreshTokens.AtMostOneLive | src/auth/refresh-tokens.service.ts:109-205 | A family has at most one token that can still be exchanged. |
| RefreshTokens.NoDanglingLineage | src/database/refresh-token-cleanup.ts:64-81 | parent and replaced_by point to rows of the same family that point back. |
| RefreshTokens.RevocationKills | src/auth/refresh-tokens.service.ts:139-151 | Reuse detection and logout leave no exchangeable token in the family. |
| RefreshTokens.DeadForever | src/auth/refresh-tokens.service.ts:139-151 | After either, every later rotation in the family is refused, over any run. |
| RefreshTokens.RevocationStays | src/auth/refresh-tokens.service.ts:141-148 | The first revocation of a token, with its reason, is never overwritten. |
| RefreshTokens.ExpiryRevokesNothing | src/auth/refresh-tokens.service.ts:155-158 | A live token is refused exactly when it has expired, and that changes nothing. |
| RefreshTokens.IssuedRow | src/auth/refresh-tokens.service.ts:77-107 | The row of an issued token: given user and family, no parent, nothing spent, fourteen days to live; no other row changes. |
| RefreshTokens.RotatedRows | src/auth/refresh-tokens.service.ts:159-207 | A token is exchanged exactly when it exists, is unused, unrevoked and unreplaced, and has not expired; the old row is marked used and replaced, the new one has the same user and family and fourteen days from the rotation, and no other row changes. |
| RefreshTokens.IssueThenRotate | src/auth/refresh-tokens.service.ts:77-207 | From every state a user can log in and exchange the token, exactly as long as it has not expired. |
| RefreshTokens.ReuseRevokes | src/auth/refresh-tokens.service.ts:139-151 | Presenting a spent token revokes everything in its family that is not revoked yet, as reuse_detected, and changes no other row. |
| RefreshTokens.LogoutRevokes | src/auth/refresh-tokens.service.ts:210-228 | Logout revokes everything in the family of a known token that is not revoked yet, does nothing for an unknown one, and never fails. |
| TokenCleanup.DeleteBatch | src/database/refresh-token-cleanup.ts:64-81 | One statement deletes as many whole eligible families as the limit allows, any of them. |
| TokenCleanup.GroupEligible | src/database/refresh-token-cleanup.ts:65-71 | Grouping by newest expiry finds exactly the families all of whose rows are past the retention. |
| TokenCleanup.EligibleByNewest | src/database/refresh-token-cleanup.ts:65-71 | A family is eligible exactly when its newest expiry lies before the cutoff. |
| TokenCleanup.SweptRows | src/database/refresh-token-cleanup.ts:64-81 | A cleanup takes away exactly the rows of the families it names. |
| TokenCleanup.CleanupExpiredRefreshTokenFamilies | src/database/refresh-token-cleanup.ts:118-153 | With k eligible families: min(maxBatches, k / batchSize + 1) statements, min(k, batchSize * batches) families deleted whole, and an early stop only when none remains. |
| TokenCleanup.RunRefreshTokenCleanupWithLock | src/database/refresh-token-cleanup.ts:178-211 | Skipped exactly when another session holds the lock; otherwise the lock is returned unless the unlock fails. |
| TokenCleanup.CleanupUnobservable | src/database/refresh-token-cleanup.ts:64-81 | In any run of issue, rotate and logout, cleanup statements at any points leave every answer as it was, while clocks differ by at most the retention. |
| TokenCleanup.CleanupObservedIff | src/database/refresh-token-cleanup.ts:64-81 | A deleted token is missed exactly when it was live and its owner's clock still accepts it. |
| TokenCleanup.SweptRunKeepsInv | src/database/refresh-token-cleanup.ts:64-81 | With cleanup anywhere in the run every family stays a chain, so no lineage column dangles. |
| RateLimit.RateLimiter.IncrWithExpire | src/auth/rate-limit.service.ts:44-51 | Counts, and gives a new counter its expiry. |
| RateLimit.RateLimiter.Enforce | src/auth/rate-limit.service.ts:100-188 | Counts every key once and admits exactly when no key is over its limit; a refusal names the longest wait among the keys over their limit. |
| RateLimit.PassesIff | src/auth/rate-limit.service.ts:100-188 | After any run a request passes if and only if each of its keys has had fewer hits than its limit since the hit that opened the running window. |
| RateLimit.CountsFromOpener | src/auth/rate-limit.service.ts:44-51 | A counter counts the hits from the one that opened its window and expires one window after that one. |
| RateLimit.WaitIs | src/auth/rate-limit.service.ts:44-51 | The wait named by a refusal is what is left of the window to the nearest second, or the whole window when that rounds to nothing. |
| RateLimit.AtMostLimitPerWindow | src/auth/rate-limit.service.ts:44-51 | In one window exactly the smaller of hits and limit pass. |
| RateLimit.LessThanTwiceTheLimit | src/auth/rate-limit.service.ts:44-51 | In any interval of one window length fewer than 2 * limit hits pass. |
| RateLimit.LimiterBound | src/auth/rate-limit.service.ts:100-188 | The same for requests with several keys, and every stored counter has an expiry. |
| RateLimit.PassedCounts | src/auth/rate-limit.service.ts:100-188 | The number bounded here is the number of positions of requests that passed. |
| RateLimit.LimiterWindowBound | src/auth/rate-limit.service.ts:100-188 | In the running window of a key at most the smaller of its count and its limit of such requests pass. |
| RateLimit.BoundIsReached | src/auth/rate-limit.service.ts:44-51 | For every limit there are hits in order of time of which 2 * limit - 1 pass within one window length. |
| Keyset.VisitAll | src/search/inventory-projection-source.ts:86-177 | The paging loop visits every row once, in key order, for every page size. |
| Keyset.ListsUnique | src/search/inventory-projection-source.ts:92-122 | The listing is unique, so the page size cannot be seen. |
| Keyset.LessIsLexicographic | src/search/inventory-projection-source.ts:92-122 | The listing is by event, then by type. |
| CounterSeed.RunSeed | src/cutover/reconcile-inventory-counters.ts:196-332 | Refused exactly for the active namespace; otherwise each row of the namespace is initialised once, in key order, and counted. |
| CounterSeed.SeedThenCheckClean | src/cutover/ticket-type-cutover-readiness.ts:641-738 | After a seed no check of the same state counts missing, invalid or mismatched counters of the namespace; nothing at all, where strict, exactly if no revision was at the largest safe integer. |
| CounterSeed.SeedSparesTheActive | src/cutover/reconcile-inventory-counters.ts:112-121 | A seed leaves every counter of the other namespace alone. |
| CounterSeed.CheckCutoverValkey | src/cutover/ticket-type-cutover-readiness.ts:615-894 | The three passes count exactly the violations of each row and the counters without a row, for every page size. |
| CounterSeed.TypeRowCounts | src/cutover/ticket-type-cutover-readiness.ts:641-738 | What a row of the type namespace adds to each category, by the state of its counter: absent, out of range, above the total, different from the row, or with no safe revision. |
| CounterSeed.EventRowCounts | src/cutover/ticket-type-cutover-readiness.ts:792-888 | The same for a row of the event namespace, where an absent counter is allowed. |
| CounterSeed.CountedIff | src/cutover/ticket-type-cutover-readiness.ts:641-738 | A category is positive if and only if some row has that state. |
| CounterSeed.OrphanIff | src/cutover/ticket-type-cutover-readiness.ts:740-790 | The orphans are exactly the type counters that have no row. |
| CounterSeed.PreflightRowsIff | src/cutover/ticket-type-cutover-readiness.ts:641-888 | Before a switch the rows of a namespace are found in order if and only if every counter required is there, equals its row and has a safe revision. |
| CounterSeed.RunReconcile | src/cutover/reconcile-inventory-counters.ts:236-410 | The rows of the namespace are listed once, in key order, from one snapshot, and each is corrected against the tables and counters as they are by then, with other clients' scripts between its steps; processed = rows listed = synced + skipped. |
| CounterSeed.ReconcileCounts | src/cutover/reconcile-inventory-counters.ts:400-410 | A target is synced, and its counter then shows the row, exactly when row and counter exist and nobody wrote the counter meanwhile; otherwise it is skipped and nothing is written. |
| CounterSeed.ReconcileCorrects | src/cutover/reconcile-inventory-counters.ts:348-410 | An undisturbed reconcile makes every existing counter of the namespace equal to its row, creates none, and leaves the other namespace alone. |
| CounterSeed.ReconcileCreatesNoKey | src/cache/inventory-cache.scripts.ts:28-67 | A counter that is there afterwards was there before or was written by another client. |

## Left out

- HTTP controllers, cookies, JWT, password hashing and client addresses: no inventory or token state of their own.
- EventBridge, SQS, OpenSearch and pg clients, retries, timeouts, tracing, metrics and the request-seen marker: delivery is an arbitrary sequence of messages, and runWithConflictRetry is the one atomic update it converges to.
- SQL text, catalog checks and function-body hashes of the readiness check: the parity and control categories are predicates over the model state.
- Valkey failures, eviction, 64-bit overflow of a revision, and counter values that are not integers: see the assumptions above.
- Snapshot anomalies inside one SQL transaction: purchase, rotate, revoke and cleanup are one step each.
- Deletes and TRUNCATE guards on the inventory tables (src/database/migrations/1785542400000-add-ticket-type-compatibility-writer.ts, lines 386 to 470): no modelled operation deletes an event.
- The update-in-place of a document inside a script: scripts work on a local copy that the index stores afterwards, so aliasing of list elements is not captured.
- Statement order of seed against purchases: RunSeed runs under the shared barrier on one snapshot; its interleaving with requests is in `Prefilter`, as single steps of reading a row and writing a counter.
- InventoryTriggers.Session.LegacyStatement: the updated_at column, and which exception text is raised, are not modelled; a raised exception is the answer `false`, after which the caller restores the tables.
- IndexRuns.ReconcileInventoryProjection: counts are totals, not per category, and the bounded list of sample findings and the paging of the unexpected-document scan are not modelled; the findings of one event are (`Reconciliation.CompareEvent`).
- WriterSwitch.CheckDatabase: the categories for NULL type columns, for an invalid or missing control row and for compatibility objects (triggers, functions, indexes) are not modelled; a purchase always has a type, and the control row always holds a mode.
- SwitchRun.CheckPreflight: the projection enters as the number of differences its reconciliation reported (`IndexRuns.ReconcileInventoryProjection`).
- CounterDrift.DriftAccounts: a type added to the event while its event row is the counted one is excluded, since it changes the stock itself.
- CounterSeed.CheckCutoverValkey: a SCAN is taken to return every key once, and a counter key that does not parse does not exist in the model.
- SwitchRun.RunWriterModeSwitch: the preflight is one earlier snapshot of the three stores; the verification reads the control row directly, its waiting and other switches being the subject of `WriterBarrier`; evidence serialisation is left out.
- RefreshTokens.RefreshTokensService.RotateToken: a row and the token it stores the hash of share one identifier; hashing, issue metadata and ids per column are not modelled.
- Resolver.TicketTypeResolver.Resolve: microtask order is any order of Arrive and Settle; what a waiter that joined a load receives is the plan of that load.
- delete-document and delete-ticket-type commands of the repair tool: only their effect on the document is modelled (`Repair.RemovalHelps`), not their existence checks.
- Evidence parsing and completeness assertions of the readiness check, CLI parsing, key formatting, UUID and date formats: easy, and independent of the state.
