# Verified models of Rector's hard cores

This project models, in Dafny, the parts of Rector whose correctness depends on more
than one function at a time, and proves what they promise:

* **Run-event streaming** (`RunProtocol*`, `RunStreamObjects`, `RunServer`). Writers persist run events and
  publish them later; every client stream subscribes, replays the persisted events, flushes what
  it buffered meanwhile and goes live. The protocol is a step system over an event log, a broker
  and any number of streams; the theorems hold in every run of every interleaving. The broker and
  the stream handler are also given as objects that are updated in place and proved against the
  functions that the step system is made of; whatever is done to these objects is a run of the step
  system, so its theorems hold of them. `RunProtocolEnds` says, with the four phases written out, when a
  stream ends.
* **Cartographer** – the repository walk over a tree in which any read may fail (`Walk*`), the
  incremental scan, its index and its report (`Incremental*`), the
  inventory stores in memory and in SQLite (`Inventory*`), import resolution (`Paths`,
  `ImportResolver`, `ImportCandidates`, `ImportOutside`), test linking (`TestLinker`, `TestNames`), the graph
  builder and its graphs (`GraphBuilder`, `BuiltGraph`, `GraphContents`), the impact query (`Impact`, `BuiltImpact`),
  the graph stores (`GraphStore*`), the listings of all four stores (`Snapshots`, `StoreListings`) and what one
  stage hands to the next (`Pipeline`).
* **Three smaller cores** – the CSV export against a reader after section 2 of RFC 4180 (`Csv`, `CsvCells`),
  the evaluation gate (`Scorecard`, `ScorecardRules`) and Chroma collection names against their validator
  (`Chroma`, `ChromaNames`).

The modules `RunProtocolEnds`, `WalkExact`, `IncrementalReport`, `ImportCandidates`, `TestNames`, `GraphContents`,
`StoreListings`, `ScorecardRules`, `CsvCells` and `ChromaNames` say what the operations compute in terms of phases,
paths, extensions and characters, so that a wrong constant, branch or field in a function that an operation shares
with its specification contradicts one of them.

`dafny verify dfyconfig.toml` checks everything.

## What turned out to be false, and when it holds

* Frames are not always a prefix of the log. With two concurrent writers of one run a terminal
  event can overtake an earlier one, which is then never sent (`OutOfOrderLosesEvent`), and two
  events that are published in the wrong order to a stream that still replays are flushed out of
  order (`FlushLosesOrder`). In every run, every client holds a prefix at every moment if and only if no delivery to a live stream and no
  flush of a buffer skips an event of the log (`AlwaysPrefixIff`). Publishing the events of a run in
  log order, which serial writers do, is enough (`ReceivedPrefix`, `SerialIsOrdered`).
* The walk does not always report each entry once. A name with a backslash is rewritten as if the
  backslash were a separator: beside a directory `a` that holds `b`, a file called `a`, backslash,
  `b` is reported as `a/b` as well (`SamePathTwice`), even if `a` is ignored (`IncludedUnderIgnored`).
  Each entry ends in exactly one way if and only if no two reached places are rewritten to one path
  (`ExactlyOneEndIff`). No path is included twice and no included path is ignored if and only if no
  place with a backslash collides with another place (`GoodWalkIff`); so names without backslashes
  are safe (`PortableWalk`, `PortableIsGood`).
* A path can be included and ignored at once: under a policy that ignores links, as the shipped one
  does (src/cartographer/ignorePolicy.ts:31-58), a directory `a` that holds `b` beside a link called
  `a`, backslash, `b` (`IncludedAndIgnored`). Scanned again and again without an edit, such a file is
  stored by every other scan and deleted by the ones between, so no rescan is quiet and every other index
  is not a full one, without any hash failure (`NeverAtRest`, `RestlessRescan`). A rescan is
  quiet if and only if no included path that can be hashed is ignored and, after a fast scan, no
  missed edit comes to light (`RescanIsQuietIff`); the deleted files are the stored paths that were
  not included if and only if no stored included path is ignored (`DeletedExactlyIff`).
* The walk throws not only if the root cannot be read: it also throws when it reaches a place that is
  rewritten to a path outside the root (`UpAndOverThrows`), which in the root of the file
  system is every entry (`NothingInsideSlash`).
* A specifier that leads outside the root can resolve: `../` from a root file resolves when a root
  file is called `..` plus a source extension. `OutsideResolvesIff` says that this is the only case, and
  `OutsideIff` which specifiers lead outside. Because dots are resolved before backslashes become
  separators, a specifier with backslashes may lead outside although it would stay inside if they were
  separators from the start, and the other way round (`DotsBeforeBackslashes`).
* The index is not always a fresh index after a scan: a file that is found but cannot be hashed
  keeps its old record (`UnreadableKeepsRecord`), and a stored file that is included and ignored
  loses it (`RestlessRescan`). For one scan and after any history, the index is a fresh one if and
  only if every stored included path can be hashed exactly if it is not ignored (`EqualsFreshIff`,
  `AnyHistoryIff`).
* The fast check does not always equal hashing (`UnseenEdit`). It does, in one scan and scan by scan
  over whole histories, exactly when size and modification time never hide a readable change from a
  fast scan (`FastIffTrustworthy`, `FastHistoryIff`).
* Two default scans without an edit in between have the same snapshot id, so SQLite refuses to
  persist the second one although the in-memory store accepts it (`UnchangedRescanRefused`,
  `FailsIffReused`, `ReuseDiffers`).
* The graph stores agree on normalised roots only: `r` and `r/` have one key, so a put under the second
  replaces the first in SQLite, while the in-memory store lists both (`SlashedRootDiffers`).
* Safety has a blind spot: if the empty path is an undeclared change and is the first one found, no
  other undeclared change is reported. `SafetyOneIff` says exactly when the score is full. The
  manifests that the runner builds never hold the empty path (src/evals/globalRunner.ts:73-81), so
  this concerns direct callers only.
* A pass does not always mean that no file was created: hash tables are plain objects, and a lookup
  under the name of an inherited member, such as `constructor`, is never undefined. A created file
  of that name that is declared as changed gets full accuracy and safety, and so does a deleted one.
  A passing run can declare and create, or delete, a file if and only if its path is such a name
  (`CreatedUnseenIff`, `DeletedUnseenIff`).

## Model

| member | source | states |
|---|---|---|
| RunProtocolSafety.StepInv | src/api/server.ts:880-996 | every step of the protocol (persist, publish, deliver to one listener, open, read, failed read, resume, client close, heartbeat) keeps the invariant that ties log, pending publications, listener lists, delivery pass and streams together |
| RunProtocolSafety.RunInv | src/api/server.ts:647-996 | the invariant holds in the last state of every run |
| RunProtocolSafety.ExactlyOnce | src/api/server.ts:934-982 | in every run a client receives each event at most once and only persisted events of its run; on an open live stream every persisted event was received, waits to be published or is being delivered to this stream; apart from heartbeats the frames are exactly those of the received events |
| RunProtocolSafety.QuiescentDelivery | src/api/server.ts:722-734 | when nothing of the run waits for publication, an open live stream has received exactly the persisted events, and none of them is done, in need of a decision, failed or aborted |
| RunProtocolSafety.CleanTeardown | src/api/server.ts:902-909 | in every run `end` is called once if the stream is closed and not before, a `done` frame can only be the last frame of a closed stream, a closed stream has no heartbeat and no registered listener, an open one is registered and has a heartbeat exactly once its handler is through, and no empty listener set is kept |
| RunProtocolSafety.HeartbeatWrites | src/api/server.ts:991-995 | in every run a heartbeat that is due writes one comment to an open stream and changes nothing else |
| RunProtocolSafety.NothingAfterEnd | src/api/server.ts:955-962 | from any reachable state on, a closed stream gets no further frame and no further `end`, whatever steps follow, including deliveries from a stale copy of the listeners |
| RunProtocolSafety.WritersNeverBlock | src/api/server.ts:651-666 | a pending event can be published whenever no pass is under way, and a pass under way can always go on: the listeners of its copy exist |
| RunProtocolEnds.FreshEventEmitted | src/api/server.ts:934-951 | a fresh event on an open stream is followed by a cost frame exactly if it is a provider call, and by `done` and the end exactly if its phase is one of the four of src/protocol/phases.ts:31 |
| RunProtocolEnds.LiveEventEnds | src/api/server.ts:955-962 | in every run, a live delivery of an event not received yet writes its frames and closes the stream, with `done` last, exactly if its phase is one of the four |
| RunProtocolEnds.ResumeEnds | src/api/server.ts:967-982 | in every run, replay and flush close an open stream exactly if a replayed or buffered event is in one of the four phases, and the last frame is `done` with the phase of the first such event |
| RunProtocolEnds.DoneExactlyAtTerminal | src/api/server.ts:946-949 | in every run, a received event in one of the four phases is the last one, the stream is closed once and its last frame is `done` with that phase; every `done` frame comes from such an event |
| RunProtocolOrder.RunOrder | src/api/server.ts:967-987 | if the oldest unpublished event of a run is always published first, snapshot, buffer and log stay aligned through every step |
| RunProtocolOrder.ReceivedPrefix | src/api/server.ts:967-982 | in every ordered run, at every moment, what a client received is a prefix of the persisted log in log order |
| RunProtocolOrder.EndsAtFirstTerminal | src/api/server.ts:946-949 | in every ordered run a stream that ended with `done` received exactly the log up to its first event that is done, in need of a decision, failed or aborted, and the frame has that phase; once everything is published, every stream that was not disconnected and whose handler is through is closed exactly if the log has such an event, and has the whole log otherwise |
| RunProtocolOrder.SerialIsOrdered | src/api/server.ts:722-734 | if each event is published before the next one of its run is persisted, the run is ordered |
| RunProtocolOrder.PrefixKeptIff | src/api/server.ts:934-951 | a delivery to a live stream that holds a prefix keeps a prefix exactly if everything before the delivered event was received |
| RunProtocolPrefix.EmitAllPrefixIff | src/api/server.ts:970-982 | emitting a run of events keeps a prefix of the log exactly if each of them is held already or is the next one, up to a terminal event |
| RunProtocolPrefix.ResumePrefixIff | src/api/server.ts:967-982 | resuming keeps a prefix exactly if the snapshot ends the stream or what was buffered goes on without a gap |
| RunProtocolPrefix.StepPrefixIff | src/api/server.ts:934-982 | a step keeps every client at a prefix exactly if it skips no event, in a live delivery or in a flush |
| RunProtocolPrefix.AlwaysPrefixIff | src/api/server.ts:880-996 | in every run, every client holds a prefix of its log at every moment if and only if no live delivery and no flush skips an event |
| RunProtocolPrefix.FlushLosesOrder | src/api/server.ts:955-982 | a run in which two events are persisted after the snapshot, published in the wrong order while the stream replays, and flushed: the client has received the second one first, which is no prefix |
| RunProtocolOrder.OutOfOrderLosesEvent | src/api/server.ts:722-734 | a run of two concurrent writers in which the client gets `done` and never the event persisted first |
| RunStreamObjects.RunEventBroker.AddListener | src/api/server.ts:667-673 | registers a listener once under its run |
| RunStreamObjects.RunEventBroker.RemoveListener | src/api/server.ts:675-680 | removes a listener and drops an emptied set |
| RunStreamObjects.RunEventBroker.Publish | src/api/server.ts:659-666 | every listener registered when the pass began reacts to the event once and as if alone; exactly those that the event closed are gone afterwards; other runs are untouched |
| RunStreamObjects.RunStream.constructor | src/api/server.ts:889-962 | a fresh stream is open, replaying, empty and subscribed |
| RunStreamObjects.RunStream.Teardown | src/api/server.ts:902-909 | refines the teardown of the step system: idempotent, writes the final frame, unsubscribes, stops the timer, ends once |
| RunStreamObjects.RunStream.EmitEvent | src/api/server.ts:934-951 | refines event emission of the step system, with de-duplication by id and teardown on a terminal event |
| RunStreamObjects.RunStream.Deliver | src/api/server.ts:955-962 | refines the listener: ignore when closed, buffer while replaying, else emit |
| RunStreamObjects.RunStream.EmitAll | src/api/server.ts:970-982 | the replay and flush loops emit event by event and stop at a terminal one |
| RunStreamObjects.RunStream.Resume | src/api/server.ts:967-995 | the code after the awaited read refines the atomic resume step |
| RunStreamObjects.RunStream.Tick | src/api/server.ts:991-995 | a heartbeat writes a comment only while the stream is open |
| RunStreamObjects.WholePass | src/api/server.ts:651-658 | running a delivery pass to its end in the step system gives every stream of the copy the event once and changes no other stream, as `Publish` does |
| RunServer.Server.Open | src/api/server.ts:880-962 | opening a stream object is the open step of the step system |
| RunServer.Server.Publish | src/api/server.ts:659-666 | publishing to the objects is a whole delivery pass of the step system |
| RunServer.Server.Resume | src/api/server.ts:967-995 | resuming a stream object is the resume step |
| RunServer.Server.ReadFails | src/api/server.ts:983-987 | a failed read of a stream object is the failed read step |
| RunServer.Server.ClientCloses | src/api/server.ts:964-965 | a disconnect of a stream object is the close step |
| RunServer.Server.Tick | src/api/server.ts:991-995 | a heartbeat of a stream object is the heartbeat step |
| RunServer.PublishRun | src/api/server.ts:651-666 | in every run a whole pass gives the event to exactly the streams of its run, of which closed ones ignore it |
| RunServer.ObjectsExactlyOnce | src/api/server.ts:934-982 | whatever was done to the objects, each stream object has sent each event at most once, and only persisted events of its run |
| RunServer.ObjectsCleanTeardown | src/api/server.ts:902-909 | whatever was done to the objects, a stream object is ended once if it is closed and not before, `done` is its last frame, and the broker lists it exactly while it is open |
| Walk.Walker.ApplyIgnoreDecision | src/cartographer/repoScanner.ts:199-211 | records an ignored entry exactly if the policy ignores it |
| Walk.Walker.WalkEntry | src/cartographer/repoScanner.ts:153-179 | one entry adds exactly what the walk function says: an error, an ignored entry, an included file or its subtree; it throws exactly if a place at or below it lies outside the root |
| Walk.Walker.WalkDirectory | src/cartographer/repoScanner.ts:164-170 | a directory is listed in name order, or its failure is recorded |
| Walk.Walker.WalkFile | src/cartographer/repoScanner.ts:171-179 | a file is included, ignored because of its head, or recorded as unreadable |
| Walk.Walker.WalkEntries | src/cartographer/repoScanner.ts:165-168 | the entries of a directory are walked in order |
| Walk.RunWalk | src/cartographer/repoScanner.ts:62-86 | the whole walk; it throws exactly if the root cannot be read, is no directory or cannot be listed, or a reached place is rewritten to a path outside the root |
| Walk.Accounted | src/cartographer/repoScanner.ts:138-211 | as multisets, the reached places are the included, ignored and errored places plus the listed directories |
| WalkSafety.RootOnce | src/cartographer/repoScanner.ts:164-168 | no place is reached twice, on every tree |
| WalkSafety.ReportedAsReached | src/cartographer/fileReader.ts:21-29 | a path is reported as often as reached places are rewritten to it |
| WalkSafety.ExactlyOneEndIff | src/cartographer/repoScanner.ts:138-211 | for every tree and every pattern of failures, each reached entry ends in exactly one of included, ignored, errored, listed and no other path is mentioned, if and only if no two reached places are rewritten to one path |
| WalkSafety.PortableWalk | src/cartographer/fileReader.ts:21-37 | with names free of backslashes the walk never throws below a readable root and reports every place as it is |
| WalkSafety.IncludedReason | src/cartographer/repoScanner.ts:160-178 | every included file is one the walk came to, readable, passed by the policy before and after its head was read, with its own size and time |
| WalkSafety.IgnoredReason | src/cartographer/repoScanner.ts:199-211 | every ignored entry is one the walk came to and the policy refused |
| WalkSafety.ErrorReason | src/cartographer/repoScanner.ts:181-197 | every error stands for a status, listing or head that could not be read, with the stage to match |
| WalkExact.IncludedIff | src/cartographer/repoScanner.ts:153-179 | included are exactly the readable files that the walk comes to and that the policy passes on path, name, status and links, and again on the head, each with its own path, size and time |
| WalkExact.IgnoredIff | src/cartographer/repoScanner.ts:199-211 | ignored are exactly the entries that the policy refuses by status, and the files that it refuses by head |
| WalkExact.ErrorIff | src/cartographer/repoScanner.ts:181-197 | errors stand exactly for a status, a listing or a head that could not be read, at the stage that says which |
| WalkExact.ThrowsIff | src/cartographer/repoScanner.ts:62-86 | the walk throws exactly if the root has no status, is no directory or cannot be listed, or an entry that it comes to lies outside the root |
| WalkExact.ResultIs | src/cartographer/repoScanner.ts:62-86 | else it reports these entries under their repository paths, with all their fields, behind the errors there were before |
| WalkSafety.IncludedNotIgnored | src/cartographer/types.ts:160-162 | with names free of backslashes no included path is ignored or lies under an ignored directory |
| WalkSafety.IncludedCanonicalOnce | src/cartographer/repoScanner.ts:175-178 | with names free of backslashes included paths are canonical and each is included once |
| WalkSafety.IncludedOnceIff | src/cartographer/fileReader.ts:28-33 | each path is included once if and only if no two included places are rewritten to one path, one of them with a backslash in it |
| WalkSafety.NoneIgnoredIff | src/cartographer/fileReader.ts:28-33 | no included path is ignored if and only if no included and ignored place, one of them with a backslash in it, are rewritten to paths of which the second hides the first |
| WalkSafety.GoodWalkIff | src/cartographer/fileReader.ts:28-33 | every path is included once and none is ignored, if and only if no place with a backslash collides with another place |
| WalkSafety.PortableIsGood | src/cartographer/fileReader.ts:21-37 | with names free of backslashes every path is included once and none is ignored |
| WalkCorners.SamePathTwice | src/cartographer/fileReader.ts:28-33 | a directory with a file in it and a file beside it that is named with a backslash are included under one path |
| WalkCorners.IncludedUnderIgnored | src/cartographer/fileReader.ts:28-33 | a file named with a backslash is included under a path inside an ignored directory |
| WalkCorners.IncludedAndIgnored | src/cartographer/fileReader.ts:28-33 | under a policy that ignores links, one path is both included and ignored |
| WalkCorners.UpAndOverThrows | src/cartographer/fileReader.ts:25-27 | a root holding one file named `..`, backslash and a name cannot be walked, unless the root itself has that name |
| WalkCorners.UpAndOver | src/cartographer/fileReader.ts:21-29 | a root file named `..`, backslash and a name is outside if the root has another name, and else is the empty path |
| WalkCorners.NothingInsideSlash | src/cartographer/fileReader.ts:35-37 | in the root of the file system itself every ordinary entry counts as outside |
| Incremental.DiffCurrentFiles | src/cartographer/incrementalIndex.ts:40-74 | files, changed files and hash errors, under absolute paths, of the difference to the stored index |
| Incremental.RemovedInventoryPaths | src/cartographer/incrementalIndex.ts:76-84 | the sorted stored paths that are ignored now or were not included |
| Incremental.ScanChangedFiles | src/cartographer/incrementalIndex.ts:17-38 | the result of a scan and the store after it; a scan that throws leaves the store as it was |
| Incremental.HashAll | src/cartographer/repoScanner.ts:101-110 | one new record for every included file that can be hashed, one error for every other |
| Incremental.ScanRepository | src/cartographer/repoScanner.ts:88-119 | a full scan reports what an incremental scan of an empty index would |
| IncrementalReport.ErrorsCounted | src/cartographer/incrementalIndex.ts:22-30 | over every walk, prior index and mode, the result has the errors of the walk and then, as often as there are such entries, a hash error for each included entry that the fast check does not take over and that cannot be hashed; every other entry has a record |
| IncrementalReport.ErrorsStored | src/cartographer/incrementalIndex.ts:29-31 | after the scan the store has these errors, as often, behind those it had under the snapshot id |
| IncrementalReport.AbsolutePath | src/cartographer/incrementalIndex.ts:66-71 | the path of a hash error is the root, a slash and the path in the repository |
| IncrementalReport.ReportIs | src/cartographer/incrementalIndex.ts:40-84 | what the records, changed files, deleted paths and ignored entries of a result are, for every walk, prior index and mode, and that its id is the fingerprint of the paths and hashes in the listed order |
| IncrementalReport.ReportOrder | src/cartographer/scanResult.ts:16-25 | all lists of a result but the errors are in path order |
| IncrementalAgreement.WalkIsGood | src/cartographer/repoScanner.ts:62-86 | every walk of a readable tree whose names are free of backslashes completes, includes each path once and none that is ignored |
| IncrementalAgreement.DeletedExactlyIff | src/cartographer/incrementalIndex.ts:76-84 | the deleted files are exactly the stored paths that were not included, if and only if no stored included path is ignored |
| IncrementalAgreement.ScanAt | src/cartographer/incrementalIndex.ts:51-84 | the index after any scan, path by path: a stored path stays exactly if it is included and not ignored, a new one comes in exactly if a record was made, and the record is the last one made or else the old one |
| IncrementalAgreement.ScanKeeps | src/cartographer/incrementalIndex.ts:76-84 | only included paths stay in the index |
| IncrementalAgreement.FreshAt | src/cartographer/repoScanner.ts:101-119 | a full scan indexes exactly the included paths that can be hashed, each with a new record of one of its entries |
| IncrementalAgreement.EqualsFreshIff | src/cartographer/incrementalIndex.ts:51-84 | a default scan of any index leaves exactly what a full scan indexes, if and only if every stored included path can be hashed exactly if it is not ignored |
| IncrementalAgreement.AnyHistoryIff | src/cartographer/incrementalIndex.ts:17-113 | after any history of scans, thrown, fast or default, on any trees, a default scan leaves exactly what a full scan indexes, if and only if it agrees with it on every path stored before |
| IncrementalAgreement.AnyHistory | src/cartographer/incrementalIndex.ts:17-113 | so any history ends in a full index if the last scan is a default one in which every included path can be hashed and is not ignored |
| IncrementalAgreement.RescanIsQuietIff | src/cartographer/incrementalIndex.ts:51-84 | scanning again without edits, fast or not, reports nothing changed and nothing deleted, if and only if no included path that can be hashed is ignored and no edit that a fast first scan missed comes to light |
| IncrementalAgreement.FastIffTrustworthy | src/cartographer/incrementalIndex.ts:48-63 | fast and default scans find the same changed and deleted files and leave the same records up to times, if and only if no file that looks unchanged has other readable content |
| IncrementalAgreement.SameReports | src/cartographer/incrementalIndex.ts:26-29 | scans with the same outcome list the same changed and the same deleted files |
| IncrementalAgreement.FastHistory | src/cartographer/incrementalIndex.ts:48-63 | over whole histories in which fast scans can trust size and time, every scan reports the changed and deleted files that hashing everything would report and leaves the same records, up to times |
| IncrementalAgreement.FastHistoryIff | src/cartographer/incrementalIndex.ts:48-63 | every scan of a history agrees with hashing if and only if its fast scans could trust size and time |
| IncrementalCorners.UnreadableKeepsRecord | src/cartographer/incrementalIndex.ts:55-57 | a scan that hashes a file and one that cannot: the record stays, where a full scan has none |
| IncrementalCorners.UnseenEdit | src/cartographer/incrementalIndex.ts:53-54 | an edit that keeps size and time: the fast scan disagrees with hashing |
| IncrementalCorners.NeverAtRest | src/cartographer/incrementalIndex.ts:76-84 | a file beside a link that is rewritten to its path: after any number of scans without an edit it is stored exactly if that number is odd |
| IncrementalCorners.RestlessRescan | src/cartographer/incrementalIndex.ts:51-84 | so every scan after the first reports a change or a deletion, and every other one leaves an index that is not a full one |
| IncrementalAgreement.PersistedIndex | src/cartographer/inventoryStore.ts:88-101 | persisting a result changes the index of its root as described and no other root |
| IncrementalAgreement.SameContentSameId | src/cartographer/scanResult.ts:64-66 | default scans of the same content have the same snapshot id, whatever was stored before |
| IncrementalAgreement.UnchangedRescanRefused | src/cartographer/sqliteInventoryStore.ts:156-177 | persisting the second of two default scans without an edit in between fails in SQLite and changes nothing |
| InventoryStores.InMemoryInventoryStore.UpsertFiles | src/cartographer/inventoryStore.ts:36-45 | records replace those under their path, ignored ones remove it |
| InventoryStores.InMemoryInventoryStore.RemoveFiles | src/cartographer/inventoryStore.ts:47-53 | removes exactly the given paths of the root |
| InventoryStores.InMemoryInventoryStore.CreateSnapshot | src/cartographer/inventoryStore.ts:55-75 | appends a snapshot to its root, whatever its id |
| InventoryStores.InMemoryInventoryStore.RecordErrors | src/cartographer/inventoryStore.ts:77-82 | appends errors to those of a snapshot |
| InventoryStores.InMemoryInventoryStore.PersistScanResult | src/cartographer/inventoryStore.ts:88-101 | snapshot, errors, upserts, removals in this order |
| InventoryStores.InMemoryInventoryStore.GetLatestSnapshot | src/cartographer/inventoryStore.ts:19-28 | a snapshot of the root than which none is newer, with the smallest id of those that are as new, or none if the root has none |
| InventoryStores.SqliteInventoryStore.RunDeleteIn | src/cartographer/sqliteInventoryStore.ts:101-101 | one statement, which accepts at most 999 bound variables |
| InventoryStores.SqliteInventoryStore.RemoveFiles | src/cartographer/sqliteInventoryStore.ts:96-103 | the chunked delete equals deleting the whole set, and no statement binds more than 999 variables |
| InventoryStores.SqliteInventoryStore.UpsertFiles | src/cartographer/sqliteInventoryStore.ts:86-94 | row by row insert, update or delete |
| InventoryStores.SqliteInventoryStore.CreateSnapshot | src/cartographer/sqliteInventoryStore.ts:105-128 | fails exactly if the id is taken |
| InventoryStores.SqliteInventoryStore.RecordErrors | src/cartographer/sqliteInventoryStore.ts:130-145 | errors continue the numbering of their snapshot |
| InventoryStores.SqliteInventoryStore.PersistScanResult | src/cartographer/sqliteInventoryStore.ts:156-177 | all or nothing |
| InventoryAgreement.FailsIffReused | src/cartographer/sqliteInventoryStore.ts:180-180 | an operation fails in SQLite exactly if it creates a snapshot under a taken id, and then changes nothing |
| InventoryAgreement.StepAgrees | src/cartographer/sqliteInventoryStore.ts:86-177 | every operation that succeeds keeps the agreement of the two stores on files, snapshots and error order |
| InventoryAgreement.StoresAgree | src/cartographer/sqliteInventoryStore.ts:46-193 | over every sequence of operations that reuses no snapshot id, SQLite never fails and the stores agree |
| InventoryAgreement.SameAnswers | src/cartographer/inventoryStore.ts:24-86 | stores that agree list the same files, the same snapshots in the same order and the same errors |
| InventoryAgreement.ReuseDiffers | src/cartographer/inventoryStore.ts:55-75 | reusing an id makes the in-memory store list one snapshot more than SQLite |
| StoreListings.InventoryNewestFirst | src/cartographer/inventoryStore.ts:132-135 | both inventory stores list exactly the snapshots of the root, of any two the newer one first, and of equally new ones the one with the smaller id |
| StoreListings.FilesListed | src/cartographer/inventoryStore.ts:30-34 | after any operations the files of a root are listed in path order, each stored record once and nothing else |
| StoreListings.PersistsAll | src/cartographer/inventoryStore.ts:88-101 | what one persisted scan leaves: the snapshot with its five counts, the errors, for each path the last record unless it is ignored or deleted, and all else as it was |
| Snapshots.ListingUnique | src/cartographer/inventoryStore.ts:132-135 | newest first, then by id: the listing of snapshots with distinct ids is determined by the set |
| Snapshots.LatestIsFirst | src/cartographer/inMemoryGraphStore.ts:13-16 | the first of a listing is one of the snapshots, none is newer, and none that is as new has a smaller id |
| Paths.CanonicalNormal | src/cartographer/graphIds.ts:9-30 | path normalisation leaves canonical paths alone |
| Paths.PlainNormal | src/cartographer/graphIds.ts:17-29 | normalisation only drops a trailing slash from a path with plain segments |
| ImportResolver.ResolveIsFirst | src/cartographer/importExtractor.ts:97-157 | relative resolution picks the first indexed member of one fixed list: source for a JS extension, exact path, extensions, index files |
| ImportResolver.FileTargetIndexed | src/cartographer/importExtractor.ts:159-178 | a file target is always an indexed file |
| ImportResolver.ResolveStable | src/cartographer/importExtractor.ts:136-178 | dropping files other than the target from the index never changes the resolution |
| ImportCandidates.ScriptSpecifier | src/cartographer/importExtractor.ts:94-157 | a specifier with `.js`, `.jsx`, `.mjs` or `.cjs`, from any canonical importer to any path inside the repository, is the first indexed one of a literal list: the path without the extension, with `.ts`, `.tsx`, `.js`, `.jsx`, `.mts`, `.cts`, its six index files, then the same with the extension on |
| ImportCandidates.ScriptMeansSource | src/cartographer/importExtractor.ts:120-153 | such a specifier is the `.ts` file of that name whenever that one is indexed and the bare name is not |
| ImportCandidates.SiblingSource | src/cartographer/importExtractor.ts:152-154 | in a file of directory `d`, `./x.js` is `d/x.ts` |
| ImportCandidates.PlainSpecifier | src/cartographer/importExtractor.ts:113-157 | any other relative specifier inside the repository is the first indexed one of the path, its six source files and its six index files |
| ImportCandidates.BaseWithin | src/cartographer/importExtractor.ts:144-150 | `./` stays in the directory of the importer and each `../` goes one up |
| ImportCandidates.ImporterForms | src/cartographer/importExtractor.ts:144-147 | an importer that is canonical once normalised resolves alike in every form, with backslashes, doubled slashes or `./` in front |
| ImportCandidates.OtherSpecifiers | src/cartographer/importExtractor.ts:127-178 | only specifiers with `./` or `../` are looked up, aliases are not configured, all others are packages |
| ImportOutside.OutsideResolvesIff | src/cartographer/importExtractor.ts:136-157 | a specifier whose path leaves the root at some point, backslashes or not, resolves exactly if it names the parent of the root and a root file is called `..` plus a source extension |
| ImportOutside.OutsideIff | src/cartographer/importExtractor.ts:144-150 | any relative specifier leads outside exactly if its segments, with the dots resolved first and the backslashes made separators afterwards, leave the root at some point |
| ImportOutside.ClimbsIff | src/cartographer/importExtractor.ts:144-150 | without backslashes: a relative specifier leads outside exactly if following its segments from the importer's directory leaves the root at some point, and its path then starts with `..` |
| ImportOutside.DotsBeforeBackslashes | src/cartographer/graphIds.ts:9-30 | read with backslashes as separators, one specifier leaves the root and resolves to a root file, another stays inside and leads outside |
| ImportOutside.TooManyUpsClimb | src/cartographer/importExtractor.ts:144-150 | more `../` than directories always climbs above the root, to the parent of the root exactly if one more and nothing after it |
| ImportOutside.ParentOfRootResolves | src/cartographer/importExtractor.ts:136-157 | the exception is real for every root importer and every source extension |
| TestLinker.LinkedTests | src/cartographer/testLinker.ts:182-207 | a test is linked exactly if it imports the target, or no test does, it is the only test named after the target and only one source has that name; linked tests are indexed test files |
| TestLinker.FindTestsByLoops | src/cartographer/testLinker.ts:111-207 | the loops compute the linked tests |
| TestLinker.Collect | src/cartographer/testLinker.ts:75-85 | a loop that pushes what satisfies a predicate computes the filtered list |
| TestLinker.CountSourcesWithStem | src/cartographer/testLinker.ts:140-150 | counts the indexed sources with a stem |
| TestLinker.CollectNamedAfter | src/cartographer/testLinker.ts:152-180 | collects the tests named after a stem |
| TestLinker.BasenameFallback | src/cartographer/testLinker.ts:152-180 | the naming convention counts only if it is unambiguous on both sides |
| TestNames.LinkedExactly | src/cartographer/testLinker.ts:111-207 | a test is linked exactly if it imports the target, or no test does, exactly one source and exactly one test have the name, and it is that test; names and conventions are spelled out |
| TestNames.LinkedInOrder | src/cartographer/testLinker.ts:73-75 | the linked tests come in path order |
| TestNames.NamedAfterIff | src/cartographer/testLinker.ts:63-71 | a test follows the convention exactly if its base name is the stem, `.test` or `.spec`, and one of six extensions, the last two in any case, and the stem is one line |
| TestNames.CandidateIff | src/cartographer/testLinker.ts:39-41 | a test candidate has `.test.` or `.spec.` in its base name |
| TestNames.StemIs | src/cartographer/testLinker.ts:43-61 | the stem is the base name up to its last dot, unless that dot comes first |
| GraphBuilder.CollectAncestorDirectories | src/cartographer/graphBuilder.ts:150-162 | the directories are exactly the paths above some file |
| GraphBuilder.EmitSymbols | src/cartographer/graphBuilder.ts:419-472 | nodes, DEFINES and EXPORTS edges of the symbols in order |
| GraphBuilder.ResolveTargetNode | src/cartographer/graphBuilder.ts:559-574 | the target of an import; a package node is pushed only the first time, which the merge by id does not notice |
| GraphBuilder.EmitImport | src/cartographer/graphBuilder.ts:596-608 | IMPORTS, DEPENDS_ON and, for a re-export, EXPORTS edges of one site |
| GraphBuilder.EmitImports | src/cartographer/graphBuilder.ts:576-609 | the edges of all sites of a file |
| GraphBuilder.EmitStructure | src/cartographer/graphBuilder.ts:237-284 | the structural extraction of all files; skipping known packages changes nothing after the merge |
| GraphBuilder.EmitLinks | src/cartographer/graphBuilder.ts:632-645 | a TESTS edge for each linked test that is a test file |
| GraphBuilder.EmitTestEdges | src/cartographer/graphBuilder.ts:611-648 | the TESTS edges of all structural files |
| GraphBuilder.MergeById | src/cartographer/graphBuilder.ts:650-669 | inventory entries first, structural entries only under new ids |
| GraphBuilder.PutAllNewOk | src/cartographer/graphBuilder.ts:657-669 | merging keeps ids distinct, keeps the base, adds nothing foreign and loses no id |
| GraphBuilder.BuildGraphSnapshot | src/cartographer/graphBuilder.ts:63-147 | the loops compute the graph that the theorems are about |
| BuiltGraph.NoEdgeLost | src/cartographer/graphBuilder.ts:664-669 | the graph has exactly the emitted edges: merging by id drops only repetitions |
| BuiltGraph.NoDanglingEdge | src/cartographer/graphBuilder.ts:474-609 | both ends of every edge are nodes of the graph |
| BuiltGraph.InventoryNodesKept | src/cartographer/graphBuilder.ts:164-235 | every node of the inventory is in the graph |
| BuiltGraph.FileNodesAre | src/cartographer/graphBuilder.ts:218-232 | only inventory files have a file id or a file kind |
| BuiltGraph.ContainsIff | src/cartographer/graphBuilder.ts:286-335 | the CONTAINS edges are exactly the edges from the container of an inventory id to that id, none into the project |
| BuiltGraph.OneContainer | src/cartographer/graphBuilder.ts:306-332 | every package, directory and file of the inventory has exactly one CONTAINS parent |
| GraphContents.ContainsAre | src/cartographer/graphBuilder.ts:286-335 | the CONTAINS edges for canonical paths, both directions: project to package, and to each file and directory from the project if its path has no slash, else from the directory named before its last slash |
| GraphContents.ContainerOf | src/cartographer/graphBuilder.ts:306-373 | each file and directory has one container, which is the project exactly if its path has no slash, and directory `d` exactly if the path is `d`, a slash and a name without slashes |
| BuiltGraph.ReachesProject | src/cartographer/graphBuilder.ts:367-373 | following containers from any inventory id leads to the project, through inventory nodes |
| BuiltGraph.DefinesIff | src/cartographer/graphBuilder.ts:449-458 | the DEFINES edges lead exactly from the structural files to the symbols found in them |
| BuiltGraph.ExportsIff | src/cartographer/graphBuilder.ts:459-470 | the EXPORTS edges lead exactly from a structural file to its exported symbols and to what it re-exports |
| GraphContents.ImportsAre | src/cartographer/graphBuilder.ts:576-609 | the IMPORTS edges are exactly those of an analysed file and a specifier that leads to a file or a package |
| GraphContents.DependsOnAre | src/cartographer/graphBuilder.ts:576-609 | the DEPENDS_ON edges lead exactly from analysed files to what they import |
| GraphContents.TestsAre | src/cartographer/graphBuilder.ts:611-648 | the TESTS edges lead exactly from a test file to an analysed file that it is linked to |
| GraphContents.NodesAre | src/cartographer/graphBuilder.ts:164-472 | every node with its kind and path, and exactly which ids a graph has: project, package, directories, files, symbols of analysed files, imported packages; each once |
| BuiltGraph.UniqueAndSorted | src/cartographer/graphBuilder.ts:671-677 | node and edge ids are unique and both lists are sorted by printed id, however ids are printed |
| BuiltGraph.OrderIndependent | src/cartographer/graphBuilder.ts:74-75 | every permutation of the input files gives the same graph |
| Impact.AddProbableTests | src/cartographer/queryService.ts:370-381 | adds exactly the paths with a TESTS edge to the target |
| Impact.ExpandNode | src/cartographer/queryService.ts:302-313 | one file adds its dependents, queues each new one once and adds the tests around it |
| Impact.ExpandPath | src/cartographer/queryService.ts:301-314 | one path adds the dependents and tests of all its file nodes |
| Impact.ComputeStructuralImpactSets | src/cartographer/queryService.ts:284-318 | on every graph, cyclic or not, the work list terminates; impacted are exactly the paths with a chain of dependencies to a changed path, probable tests exactly the tests around an impacted file |
| Impact.ImpactLeast | src/cartographer/queryService.ts:284-318 | the impact is contained in every set that holds the change and is closed under dependents |
| Impact.ImpactIdempotent | src/cartographer/queryService.ts:284-318 | the impact of an impact adds nothing |
| Impact.ImpactUnion | src/cartographer/queryService.ts:284-318 | the impact of a union is the union of the impacts, so it is monotone |
| Impact.DependsOnIs | src/cartographer/queryService.ts:302-313 | one step of the query is an IMPORTS or DEPENDS_ON edge to a file, test, doc or config node, from an id whose last node has a path |
| Impact.CoversIs | src/cartographer/queryService.ts:370-381 | a test covers a node along a TESTS edge from an id whose last node has its path |
| Impact.ProbableTestIs | src/cartographer/queryService.ts:302-313 | a probable test covers an impacted file node or the start of an IMPORTS or DEPENDS_ON edge to one |
| BuiltImpact.DependsOnIsImport | src/cartographer/graphBuilder.ts:576-609 | one step of the query on a built graph is one resolved import |
| BuiltImpact.CoversIsLink | src/cartographer/graphBuilder.ts:632-645 | a test edge into a file is a test that is linked to it |
| BuiltImpact.ReachesIsImportChain | src/cartographer/queryService.ts:284-318 | reachability on a built graph is a chain of resolved imports |
| BuiltImpact.ProbableIsLinked | src/cartographer/queryService.ts:302-313 | probable tests on a built graph are the tests linked to an impacted file |
| BuiltImpact.ImpactOfChange | src/cartographer/queryService.ts:551-569 | building and querying: impacted are exactly the changed paths and the files with a chain of resolved imports to one, probable tests exactly the test files linked to an impacted source file |
| GraphStores.InMemoryGraphStore.PutGraphSnapshot | src/cartographer/inMemoryGraphStore.ts:23-47 | replaces the header, nodes and edges of its key |
| GraphStores.FindIndex | src/cartographer/inMemoryGraphStore.ts:36-36 | the first snapshot with an id |
| GraphStores.InsertRows | src/cartographer/sqliteGraphStore.ts:86-125 | inserts in order and fails exactly if a primary key is taken |
| GraphStores.SqliteGraphStore.PutGraphSnapshot | src/cartographer/sqliteGraphStore.ts:62-133 | delete and insert as one transaction |
| GraphStoreAgreement.PutFailsIff | src/cartographer/sqliteGraphStore.ts:129-132 | a put fails exactly if two of its items share a primary key or one is taken by another snapshot, and then changes nothing |
| GraphStoreAgreement.PutReplaces | src/cartographer/sqliteGraphStore.ts:73-127 | a put replaces what its key had and leaves every other key alone |
| GraphStoreAgreement.StoresAgree | src/cartographer/sqliteGraphStore.ts:62-179 | over every sequence of proper puts SQLite never fails and the stores agree |
| GraphStoreAgreement.SameAnswers | src/cartographer/inMemoryGraphStore.ts:49-74 | stores that agree give the same listings, lookups, nodes and edges |
| StoreListings.GraphNewestFirst | src/cartographer/inMemoryGraphStore.ts:13-16 | both graph stores list exactly the snapshots of the root, newest first and then by id |
| StoreListings.PutLeaves | src/cartographer/sqliteGraphStore.ts:62-133 | after a proper put the key has the header with its counts and exactly the nodes and edges, in the order of their ids |
| StoreListings.SlashedRootDiffers | src/cartographer/sqliteGraphStore.ts:62-82 | two puts under `r` and `r/`: memory lists both, SQLite only the second |
| Pipeline.WalkFeedsBuilder | src/cartographer/graphBuilder.ts:63-97 | what a walk includes is a valid input for the builder: canonical and distinct paths |
| Csv.CellRoundTrip | scripts/export-linear-issues.js:140-146 | a reader recovers an escaped cell, whatever it contains |
| Csv.RowsRoundTrip | scripts/export-linear-issues.js:148-164 | rows of any cells are recovered from their printed form |
| Csv.CsvRoundTrip | scripts/export-linear-issues.js:148-164 | for every list of issues a reader after section 2 of RFC 4180 recovers exactly the header and every cell |
| CsvCells.ExportIsRead | scripts/export-linear-issues.js:148-164 | for every list of issues the reader recovers the six column names and, issue by issue, title, description, status, priority, labels and estimate in this order |
| CsvCells.ExportIs | scripts/export-linear-issues.js:148-164 | the text is the line of the column names and a line for each issue in order, with commas between the escaped cells and a line feed behind each line, the last one included |
| CsvCells.QuotedOnlyIfNeeded | scripts/export-linear-issues.js:140-146 | a cell is written as it is exactly if it has no quote, comma, carriage return or line feed |
| CsvCells.LabelsJoin | scripts/export-linear-issues.js:156-156 | labels are separated by a comma and a space |
| Scorecard.VerifyPathHashes | src/evals/scoreDimensions.ts:91-113 | true exactly if for every path both lookups find something and they differ exactly if a change is expected |
| Scorecard.VerifiedHasHashes | src/evals/scoreDimensions.ts:83-89 | outside the inherited names a verified path has both hashes |
| Scorecard.AnyDirectHashMismatch | src/evals/scoreDimensions.ts:115-127 | the first path whose lookups both find something and differ |
| Scorecard.ComputeAccuracy | src/evals/scoreDimensions.ts:134-154 | the accuracy score |
| Scorecard.AccuracyOneIff | src/evals/scoreDimensions.ts:134-154 | accuracy is full exactly if there is nothing to check, or the hashes fit the expectation and every oracle path has evidence |
| Scorecard.VerifyUndeclaredChanges | src/evals/scoreDimensions.ts:161-172 | the first enumerated path that differs and is not allowed to |
| Scorecard.ComputeSafety | src/evals/scoreDimensions.ts:179-198 | the safety score |
| Scorecard.SafetyOneIff | src/evals/scoreDimensions.ts:179-198 | safety is full exactly if no output leaks, and no change is undeclared or an undeclared empty path is the first one found |
| Scorecard.FoundEmptyIff | src/evals/scoreDimensions.ts:161-196 | the empty path is found exactly if it is an undeclared change before which nothing undeclared is enumerated, after the change or, if nothing undeclared is there, before it |
| Scorecard.NoEmptyPathHidesNothing | src/evals/globalRunner.ts:73-81 | manifests without the empty path hide nothing |
| Scorecard.PassedIffNoneFailed | src/evals/globalRunner.ts:405-420 | a scorecard passes exactly if the list of failed gated dimensions is empty |
| Scorecard.PassPinsChanges | src/evals/globalRunner.ts:486-576 | a pass means that no manifest file was created or deleted, unless it is declared and has an inherited name, and that the manifest files with a new hash are exactly the declared changed paths that the manifest has |
| Scorecard.CreatedUnseenIff | src/evals/scoreDimensions.ts:83-113 | a passing run can declare and create a file if and only if its path is an inherited name |
| Scorecard.DeletedUnseenIff | src/evals/scoreDimensions.ts:83-113 | a passing run can declare and delete a file if and only if its path is an inherited name |
| ScorecardRules.AccuracyIs | src/evals/scoreDimensions.ts:134-154 | the accuracy on all inputs: one without oracle paths, zero if the hashes are not as expected, else the share of oracle paths that an artifact or a table speaks of |
| ScorecardRules.OraclePathsAre | src/evals/globalRunner.ts:498-500 | the oracle paths are those of the four lists of a scenario, each once |
| ScorecardRules.GateIs | src/evals/globalRunner.ts:405-420 | a scorecard passes exactly if reliability, accuracy, safety, memory, delegation and evidence have the full score, and the failed ones are listed |
| ScorecardRules.PassMeans | src/evals/globalRunner.ts:486-576 | with no empty path in the manifests, a passing run changed exactly the declared paths that a manifest has |
| ScorecardRules.UnseenIff | src/evals/scoreDimensions.ts:83-113 | a passing run can declare and create, or delete, a file exactly if the file has one of twelve names |
| Chroma.CollectionNameForRecord | src/memory/chromaMemoryAdapter.ts:107-125 | for every record id of any length and content the generated name is accepted by the validator: 3 to 63 allowed characters, alphanumeric ends, no two dots in a row, not shaped like an IPv4 address |
| Chroma.PadToThree | src/memory/chromaMemoryAdapter.ts:111-111 | padding reaches three characters and leaves longer names alone |
| Chroma.CleanIdKept | src/memory/chromaMemoryAdapter.ts:108-110 | a short clean id appears unchanged after the prefix |
| ChromaNames.AcceptedIff | src/memory/chromaMemoryAdapter.ts:115-125 | what the validator accepts, with an address as four runs of digits between dots |
| ChromaNames.SanitizeIs | src/memory/chromaMemoryAdapter.ts:108-108 | the code units of letters, digits, dot, underscore and hyphen stay, every other one becomes an underscore |
| ChromaNames.CollapseRun | src/memory/chromaMemoryAdapter.ts:108-108 | a run of two or more dots becomes one underscore, a single dot stays |
| ChromaNames.CollapseAfter | src/memory/chromaMemoryAdapter.ts:108-108 | runs of dots are collapsed each on its own |
| ChromaNames.NameIs | src/memory/chromaMemoryAdapter.ts:107-113 | the name is the prefix and the collapsed id, cut after 63 characters, with everything behind its last alphanumeric character made one zero |
| ChromaNames.PlainIdKept | src/memory/chromaMemoryAdapter.ts:107-113 | an id of code units that spell a short clean name appears unchanged after the prefix |

## Left out

- Deleting events, and exceptions thrown by writing to a response or by serialising a frame.
- Frame bytes and cost aggregation: a cost frame carries the events it aggregates.
- Redaction: any function that keeps the id, the run and the phase of an event.
- The atomicity of one delivery pass: other steps may fall between two deliveries, which allows more runs than the code has.
- Printed ids: node and edge ids are values, and merging (`NoEdgeLost`) goes by these values; the printed ids of two edges may coincide when a path holds colons, and would then be merged.
- String order: by Unicode scalar value, where the code compares UTF-16 code units.
- Labels, properties, evidence, languages and hashes of graph nodes and edges, and the schema parsing of stored rows.
- Extraction of symbols and imports from TypeScript source: what was extracted from each file is given.
- Roots whose own path looks like a network share to the Windows path rules, and drive letters: the root is a list of segments.
- The ignore rules: any function of the questions the walk asks; loading ignore files is a list of errors.
- Emitters of scan events and the errors they add.
- Concurrency of scans and of store operations: each runs to its end.
- Column types and collation of SQLite; tables are maps with primary keys.
- Validation of query paths and the other queries of the graph query service.
- Tables of hashes that inherit from anything but the standard object prototype.
- Reliability, memory, delegation, evidence, cost and simplicity scores: given numbers, of which only being 1 matters for the gate.
- The harness around the gate: workspaces, patches, validators and manifests on disk.
- HTTP routes, authentication, providers, secrets, benchmarks, reports and the command line.
- RunStreamObjects.RunEventBroker.Publish: the order in which listeners are called is that of registration, and listeners are streams.
- Snapshots.LatestIsFirst: with equal creation times and equal ids nothing is said about which of the two comes first.
