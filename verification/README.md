# Fluree: publication, transfer and import, modelled and proved

A Dafny model of the parts of Fluree where one mistake would lose or fork data, or change what a
statement means:

- **Publication.** Pushers, incremental importers and interactive Cypher transactions write
  content-addressed objects and then move one durable head by compare-and-set. `Publication` is the
  protocol as atomic steps over a shared store, a head, one cached state per process and any number
  of writers that may stop anywhere; `PublicationSafety`, `Serializability`, `Continuations`,
  `LostRaces` and `StaleCache` are about whole runs; `Transfer` is the code of the writers, with
  fields updated in place, and `TransferRuns` ties its calls to runs.
- **Push validation** (`PushValidation`, `Namespaces`). Commits are checked one by one against an
  evolving log and namespace table, then applied in bulk.
- **Export and pull** (`CommitWalk`, `Export`, `Pull`). A depth-limited stack walk over the commit
  graph, one page per call, and the client that follows cursors and imports what is missing.
- **Restore** (`PackCodec`, `PackStream`, `Restore`). The `fluree-pack-v1` decoder, a stream cut into
  arbitrary reads, and the bounded pool of concurrent writes.
- **Cypher scripts** (`CypherLexer`, `Splitter`, `SplitJoin`, `Identity`, `CypherImport`, `KeySets`,
  `ImportOrder`, `ImportNodes`, `ImportEndpoints`, `ImportAcceptance`, `CypherImporter`). The
  line-at-a-time statement splitter against a one-pass lexer, percent-encoded identities, and the
  three import passes.
- **Conditional MERGE** (`CypherMerge`, `MergeMeaning`, `MergePair`, `MergeStatement`). The rewrite of
  one statement into a match branch and a create branch, and its meaning over a property graph.
- **Full-text settings** (`FullTextConfig`) and the **BM25 worker** (`Bm25`, `Bm25Worker`).

Conventions. A digest is the blob it was computed from, so equal digests mean equal blobs. `t` and
lengths are unbounded integers except where a length field is decoded (16 and 32 bits,
little-endian). Text in identities is its UTF-8 bytes. JSON, UTF-8, content-id and Cypher parsing,
literal rendering, hashing of ids, the clock, storage outcomes and the order in which concurrent
work finishes are parameters or free choices. A class is used where the source updates fields in
place; its methods are tied to functions whose properties are proved as lemmas.

## What the code does not guarantee

Places where a natural property fails of the code, each with the exact condition under which it
holds.

- Push and incremental import check a batch against the durable head but build the state they
  install from the cached one, without comparing the two heads. Over a stale cache the installed
  state is incomplete, and a later transaction whose compare-and-set wins can publish something that
  no order of the publications gives, as long as batches keep theirs
  (`StaleCache.StaleInstallBreaksSerial`). The installed state is complete exactly when the cached head
  was the durable head (`PublicationSafety.InstalledStateCompleteIff`), and exactly then every later
  transaction of that process builds what the durable history gives (`Serializability.FreshBatchIff`).
  A run is serial in publication order exactly when every transaction it published did so
  (`Serializability.SerialRunIff`). From a quiet moment of a serial run every continuation with fresh
  batches is serial exactly when every cache at the durable head has applied the whole history
  (`Continuations.ContinuationsSerialIff`).
- A transaction that begins on a ledger without commits pins no ref at all, and the compare-and-set
  of an existing record against no ref always reports a conflict. So the first publication of a ledger
  is never an interactive transaction (`LostRaces.FirstPublicationIsTransferred`), and as long as no
  batch is staged nothing is ever published (`LostRaces.TransactionsNeverPublishFirst`). A staged
  transaction wins exactly when it began on a ledger with commits whose head has not moved since
  (`LostRaces.TransactionWinsIff`).
- Incremental import runs only the bulk namespace union, which accepts a batch that rebinds a code;
  push rejects it (`Namespaces.BulkAcceptsARebinding`). The two agree exactly when the union keeps
  every commit's delta (`Namespaces.SequentialIffBulkKeepsEveryDelta`).
- Import applies that union after the compare-and-set, so a conflict with the cached table makes the
  call fail with the head moved and the cache left behind; this happens exactly when the union does
  not fit the table (`Transfer.LedgerHandle.ImportIncremental`). For push it cannot happen
  (`Transfer.LedgerHandle.Push`). In the protocol it is a writer that stops after winning.
- The pair of MERGE branches creates equal absent rows twice. It does nothing for a relationship that
  is stored as a plain edge without a reifier: the match branch needs the reifier, while the create
  guard of a pattern without a property map needs only the edge (`MergePair.OneBranchIff`, failing
  input `MergeStatement.PlainEdgeIsIgnored`). The script importer stores such edges. And a SET that
  removes the last property of a matched relationship makes the engine remove its reifier too, which
  leaves such a plain edge (`MergeStatement.LastPropertyTakesTheReifier`). The pair is row-by-row
  find-or-create exactly when none of the three happens (`MergePair.PairIsRowByRowIff`); the third
  happens to an entity exactly when the items only remove properties, and remove every one it has
  (`MergePair.EmptiedIff`). A property set twice with different values keeps both; doing the items at
  once is doing them in order exactly when none clashes (`MergeStatement.TogetherIsInOrderIff`).
- The importer's check for dangling edges compares hashes, so an edge can dangle; it does exactly when
  a statement links a matched id that the import never creates and a created one has its hash
  (`ImportEndpoints.NoEdgeDanglesIff`).
- Following export cursors over a merge can lose commits (`CommitWalk.MergeHistoryLosesANode`). A page
  and its cursor cover everything exactly when every frontier entry left over is on the page or
  reachable from the cursor (`CommitWalk.PageLosesNothingIff`).
- The indexer's scopes part from direct resolution for graphs named like a sentinel and for foreign
  `#txn-meta` graphs (`FullTextConfig.IrregularDisagrees`), and when several overrides match one
  graph (`FullTextConfig.TwoOverridesDisagree`). For every graph they agree exactly when the overrides
  whose scope covers it add what the first matching override adds (`FullTextConfig.AgreesIff`).
- The validator rejects empty commits, so a pull ends at the sender's head exactly when no missing
  commit is empty (`Pull.PullInto`).
- The worker's reverse map is no exact inverse of the registrations after a re-registration that
  drops a ledger (`Bm25.ShrinkingLeavesAWatcher`); in a run it is exact at every moment exactly as long
  as no registration drops one (`Bm25.RunExactIff`).
- The worker may have two syncs of one source in flight (`Bm25.TwoSyncsOfOneSource`); no source ever has
  exactly as long as no flush takes one that is in flight (`Bm25.RunAloneIff`).

The commit chain check compares parent digests only, while the preflight compares whole ids; the model
does the same.

## Model

| member | source | states |
|---|---|---|
| `Publication.StepKeepsInv` | fluree-db-api/src/commit_transfer.rs:502-606 | every step of every writer keeps: one chain with t rising by 1 per parent link, the head is its end, every published commit and txn blob is stored, every cache and staged writer continues a published head |
| `Publication.RunKeepsInv` | fluree-db-api/src/commit_transfer.rs:583-598 | the same in every reachable state of every interleaving |
| `PublicationSafety.LinearHistory` | fluree-db-api/src/commit_transfer.rs:797-863 | between any two moments of a run the later head descends to the earlier one through stored commits, and the published chain only grew by that path |
| `PublicationSafety.HeadIsStored` | fluree-db-api/src/commit_transfer.rs:2011-2050 | in every run the durable head names an object stored under its own digest |
| `LostRaces.LoserLeavesNoTrace` | fluree-db-api/src/commit_transfer.rs:583-606 | for every run and every writer that never wins in it, leaving out that writer's events gives a run that ends with the same head, caches, history and other writers |
| `LostRaces.TransactionWinsIff` | fluree-db-api/src/cypher_txn.rs:343-362 | a staged transaction wins exactly when it began on a ledger with commits and the durable head is the one it began on |
| `LostRaces.CommitStagesIff` | fluree-db-api/src/cypher_txn.rs:311-325 | in every run COMMIT goes on to write exactly when the transaction changed something and the cached head is still the one of its BEGIN |
| `LostRaces.TransactionsNeverPublishFirst` | fluree-db-nameservice/src/memory.rs:432-437 | in every run, as long as no batch has been staged, no transaction has published and the head is unborn |
| `LostRaces.FirstPublicationIsTransferred` | fluree-db-api/src/cypher_txn.rs:115-118 | in every run the first publication is a pushed or imported batch |
| `PublicationSafety.NoIntermediateHead` | fluree-db-api/src/cypher_txn.rs:311-370 | no commit before the last of a publication is ever the head, at any moment of the run |
| `PublicationSafety.PublicationIsOneMove` | fluree-db-api/src/cypher_txn.rs:318-362 | the head moves only by a winning compare-and-set, once per publication, to its last commit; a transaction moves it from its pinned base |
| `PublicationSafety.RunIsSerial` | fluree-db-api/src/cypher_txn.rs:108-127 | the published history equals running all publications, transactions by their statements, one after another in publication order, in every run whose batches are staged over a cache at the durable head |
| `PublicationSafety.InstalledStateCompleteIff` | fluree-db-api/src/commit_transfer.rs:321-347 | the state a winning batch installs is complete exactly when the cached head it was built on is the head it was checked against |
| `Serializability.SerialRunIff` | fluree-db-api/src/cypher_txn.rs:108-127 | every run is serial in publication order up to any moment exactly when every transaction it published by then had built on its base what its statements build on the durable history |
| `Serializability.CacheIsSerialIff` | fluree-db-api/src/cypher_txn.rs:108-127 | a cache at the durable head gives every transaction the commits the durable history gives exactly when it has applied that whole history |
| `Serializability.FreshBatchIff` | fluree-db-api/src/commit_transfer.rs:321-347 | after a batch has won and installed, every later transaction of that process builds what the durable history gives exactly when the batch was staged over a cache at the head it was checked against |
| `Continuations.WholeStaysSerial` | fluree-db-api/src/cypher_txn.rs:108-127 | from any state of any run in which everything in memory at the durable head has applied the whole history, every continuation whose batches are staged over a cache at the durable head stays so and stays serial |
| `Continuations.ContinuationsSerialIff` | fluree-db-api/src/commit_transfer.rs:321-347 | for a serial run with no writer under way: all those continuations are serial exactly when every cache at the durable head has applied the whole history |
| `Continuations.LoadHeals` | fluree-db-api/src/commit_transfer.rs:321-347 | in any state of any run a process that is not writing can load the ledger and then builds what the durable history gives |
| `StaleCache.StaleInstallBreaksSerial` | fluree-db-api/src/commit_transfer.rs:1100-1190 | a run over a stale cache whose last transaction published flakes it stages in no order of the publications that keeps the order of batches |
| `TransferRuns.PublishedBatchIsARun` | fluree-db-api/src/commit_transfer.rs:305-623 | in any state of any run, the steps of one batch that publishes lead to the head, cache and history that push and import promise |
| `TransferRuns.CommittedTransactionIsARun` | fluree-db-api/src/cypher_txn.rs:108-370 | likewise BEGIN, any statements and COMMIT without a head move in between lead to what COMMIT promises |
| `Transfer.LedgerHandle.constructor` | fluree-db-api/src/commit_transfer.rs:1966-1984 | a ledger without commits |
| `Transfer.LedgerHandle.WriteRequiredBlobs` | fluree-db-api/src/commit_transfer.rs:1014-1066 | succeeds exactly when every referenced txn blob is provided with the txn codec and a matching digest; then all of them are stored; stored objects stay |
| `Transfer.LedgerHandle.WriteCommitBlobs` | fluree-db-api/src/commit_transfer.rs:1068-1098 | every commit of the batch ends up stored under its digest; stored objects stay |
| `Transfer.LedgerHandle.CompareAndSet` | fluree-db-nameservice/src/memory.rs:391-470 | updates exactly when a ref is expected, its id is the record's and t grows, and otherwise changes nothing |
| `Transfer.LedgerHandle.Publish` | fluree-db-api/src/commit_transfer.rs:2011-2050 | succeeds exactly when every referenced txn blob is good and the head is still the one seen; then the head is the last commit and all commits and txn blobs are stored; a failure does not move the head |
| `Transfer.LedgerHandle.ImportIncremental` | fluree-db-api/src/commit_transfer.rs:1966-2107 | the head moves exactly when the blobs are commits, none empty, they continue the durable head link by link, every txn blob they refer to is provided and the race is won; cache and namespaces follow exactly when the bulk union fits, and otherwise the call fails with the head moved; every other failure changes neither head nor cache |
| `Transfer.LedgerHandle.Push` | fluree-db-api/src/commit_transfer.rs:305-623 | succeeds exactly when import's conditions hold and every commit fits the namespaces and facts left by the ones before it and passes the other checks; then everything is installed with the table the commits give one by one; a failure changes neither head nor cache |
| `Transfer.CypherTransaction.constructor` | fluree-db-api/src/cypher_txn.rs:108-127 | BEGIN pins the cached head as base with nothing pending |
| `Transfer.CypherTransaction.Write` | fluree-db-api/src/cypher_txn.rs:142-302 | one statement runs against the private state; a change becomes one pending commit holding its flakes and its new namespaces, with the private head as only parent, the next t and no txn blob, and the private state is that commit applied; no change becomes none; nothing is published |
| `Transfer.CypherTransaction.Commit` | fluree-db-api/src/cypher_txn.rs:311-370 | succeeds exactly when nothing is pending, or it began on a ledger with commits and cached and durable head are still the base; then one head move to the last pending commit, everything stored, the cache equal to running all statements |
| `PushValidation.DecodeAndValidateChain` | fluree-db-api/src/commit_transfer.rs:769-835 | accepts exactly the valid chains and otherwise reports the first bad blob with its fault |
| `PushValidation.FaultlessIffChain` | fluree-db-api/src/commit_transfer.rs:797-826 | local checks against the predecessor alone amount to the whole chain being valid |
| `PushValidation.AcceptedIff` | fluree-db-api/src/commit_transfer.rs:769-888 | a batch passes chain, preflight, empty-commit and blob checks exactly when it is not empty, no commit is, each has a parent with the digest of the one before it and the next t, the first of them a parent that is the durable head, id and t, or none if there is none, and every txn blob referred to is provided under its digest |
| `Publication.AcceptedIffContinues` | fluree-db-api/src/commit_transfer.rs:769-888 | that condition is the relation between batch and head on which the invariant of runs rests |
| `PushValidation.IsCurrentlyAsserted` | fluree-db-api/src/commit_transfer.rs:956-1012 | finds whether the latest operation on a fact, metadata included, is an assert |
| `PushValidation.AssertRetractionsExist` | fluree-db-api/src/commit_transfer.rs:935-954 | accepts a commit exactly when each retraction names a currently asserted fact |
| `PushValidation.ValidatePush` | fluree-db-api/src/commit_transfer.rs:377-499 | accepts exactly the batches whose every commit fits the table and log left by the ones before it and passes the policy, shape and split-mode verdict given, and returns those |
| `PushValidation.NoDoubleRetraction` | fluree-db-api/src/commit_transfer.rs:387-419 | between two retractions of one fact in an accepted batch there is an assertion of it, from the first commit up to just before the second |
| `PushValidation.RetractionsOkIff` | fluree-db-api/src/commit_transfer.rs:935-1012 | a commit of a batch passes the retraction check exactly when, for each fact it retracts, the last earlier commit of the batch that says anything of it, or else the base log, asserts it; metadata facts included |
| `Namespaces.MergeDelta` | fluree-db-core/src/ns_encoding.rs:590-626 | accepts a delta exactly when code and prefix agree both ways, and then is the union |
| `Namespaces.MergeDeltasFirstWins` | fluree-db-api/src/commit_transfer.rs:1106-1130 | collects a batch's deltas, the first binding of a code wins |
| `Namespaces.FirstWinsIff` | fluree-db-api/src/commit_transfer.rs:1106-1130 | a code is bound to a prefix exactly when the first delta that binds the code binds it so |
| `Namespaces.BulkNamespacesAgree` | fluree-db-api/src/commit_transfer.rs:377-401 | when the deltas apply one by one, the bulk union is accepted and gives the same one-to-one table with no base entry changed |
| `Namespaces.BulkAcceptsARebinding` | fluree-db-api/src/commit_transfer.rs:1106-1130 | the bulk form accepts a batch that the sequential form rejects |
| `Namespaces.SequentialIffBulkKeepsEveryDelta` | fluree-db-api/src/commit_transfer.rs:377-401 | one by one succeeds exactly when the bulk union is accepted and keeps every delta |
| `CommitWalk.FirstUnvisited` | fluree-db-api/src/commit_transfer.rs:1384 | the first leftover frontier entry that was not visited, none if there is none |
| `CommitWalk.OnePage` | fluree-db-api/src/commit_transfer.rs:1324-1384 | for any graph, cursor and limit: listed nodes are distinct, reachable and no more than the limit; with no next cursor they are everything reachable; failure only if something reachable is unreadable |
| `CommitWalk.LinearWalk` | fluree-db-api/src/commit_transfer.rs:1327-1381 | in a single-parent history a page is the next nodes in order, or all that remain |
| `CommitWalk.MergeHistoryLosesANode` | fluree-db-api/src/commit_transfer.rs:1384 | over a merge, a node is on no page that following cursors can reach |
| `CommitWalk.PageLosesNothingIff` | fluree-db-api/src/commit_transfer.rs:1324-1384 | for any graph, cursor and limit: page and next cursor together cover everything reachable exactly when every leftover frontier entry is on the page or reachable from the cursor |
| `Export.ExportPage` | fluree-db-api/src/commit_transfer.rs:1270-1400 | the page is what the walk visits, at most the requested number of commits (100 if none is given) and never more than 500, with the stored bytes of those commits and of exactly the txn blobs they refer to, their t range and the cursor; it fails exactly when the walk does |
| `Export.ExportOnePage` | fluree-db-api/src/commit_transfer.rs:1324-1384 | the one-page theorem, limits included, for the page the call returns |
| `Pull.FetchMissing` | fluree-db-cli/src/commands/sync.rs:528-580 | for any page size, following the cursors fetches each commit once, newest first, and what is kept is exactly the missing part oldest first with its txn blobs |
| `Pull.MissingAcceptedIff` | fluree-db-api/src/commit_transfer.rs:769-888 | the missing part passes chain, head and blob checks exactly when none of its commits is empty |
| `Pull.PullInto` | fluree-db-cli/src/commands/sync.rs:528-600 | for any page size a receiver that is empty or at an ancestor ends at the sender's head, all stored, exactly when no missing commit is empty, and otherwise does not move; it succeeds exactly when also the namespaces fit |
| `PackCodec.ToLe16` | fluree-db-core/src/pack.rs:224-235 | a 16-bit length reads back |
| `PackCodec.ToLe32` | fluree-db-core/src/pack.rs:216-221 | a 32-bit length reads back |
| `PackCodec.DecodeStable` | fluree-db-core/src/pack.rs:286-388 | on any bytes the decoder asks for more than it has, or answers as for every extension; a frame consumes at least one byte and no more than there are |
| `PackCodec.DecodesIff` | fluree-db-core/src/pack.rs:286-388 | a frame is decoded exactly from the bytes of its layout: tag, little-endian lengths within the limits, and content its own parser reads |
| `PackCodec.RefusedFrames` | fluree-db-core/src/pack.rs:286-388 | which first bytes are no frame type, and that lengths beyond the limits are refused as soon as they can be read |
| `PackCodec.RoundTrip` | fluree-db-core/src/pack.rs:216-256 | decoding undoes encoding for every frame whose lengths fit and whose own id, manifest or text its parser reads back, whatever follows it |
| `PackStream.DrainSplit` | fluree-db-api/src/commit_transfer.rs:1705-1803 | draining a prefix and later its rest with more bytes gives what draining everything gives |
| `PackStream.PackMeaning` | fluree-db-api/src/commit_transfer.rs:1711-1785 | the frames of a pack settle the objects dispatched, in order, and the manifest used: the last of the nameservice phase |
| `PackStream.ObjectsInOrder` | fluree-db-api/src/commit_transfer.rs:1723-1765 | the objects are those of the Data frames, each in its place |
| `PackStream.LastManifestIff` | fluree-db-api/src/commit_transfer.rs:1766-1772 | the manifest used is a nameservice manifest that no other one follows |
| `PackStream.AcceptedIff` | fluree-db-api/src/commit_transfer.rs:1813-1828 | a stream is accepted exactly when it is preamble, frames with one Header before any Data and no Error up to the first End, and a nameservice manifest among them |
| `PackStream.ArchiveRoundTrip` | fluree-db-core/src/pack.rs:210-256 | writing an archive of such frames and decoding it gives back its objects and manifest |
| `Restore.Restorer.constructor` | fluree-db-api/src/commit_transfer.rs:1692-1697 | an empty pool |
| `Restore.Restorer.Reap` | fluree-db-api/src/commit_transfer.rs:1748-1752 | whichever write finishes first: the byte counter stays the sum of the payloads in flight, the object is stored, or its failure is reported |
| `Restore.Restorer.Admit` | fluree-db-api/src/commit_transfer.rs:1738-1765 | waits, for any payload size, until the write fits; then at most 32 writes, bytes equal to the sum, above 512 MiB only for a single write |
| `Restore.Restorer.Flush` | fluree-db-api/src/commit_transfer.rs:1805-1811 | afterwards nothing is in flight and everything dispatched is stored, or a failed write is reported |
| `Restore.Restorer.Dispatch` | fluree-db-api/src/commit_transfer.rs:1713-1784 | one frame does what the stream semantics says, with Data entering the pool |
| `Restore.Restorer.DrainBuffer` | fluree-db-api/src/commit_transfer.rs:1710-1799 | after any read, what was drained, what is buffered and what is to come still mean the whole stream |
| `Restore.Restorer.ReadAll` | fluree-db-api/src/commit_transfer.rs:1699-1803 | for every way of cutting the stream into reads the outcome is that of decoding it at once, errors included |
| `Restore.Restorer.Run` | fluree-db-api/src/commit_transfer.rs:1658-1854 | succeeds exactly when the whole stream is a pack, every object can be written, and the manifest has a commit head that parses to the id of an object of the stream; then everything is stored before the head is set, and the head is that id, which a stored object has, at the manifest's t or 0; otherwise the head is untouched |
| `CypherLexer.StringIsKept` | fluree-db-api/src/cypher_import.rs:597-620 | a string literal is kept whole, semicolons and comment marks included |
| `CypherLexer.BacktickIsKept` | fluree-db-api/src/cypher_import.rs:598-625 | a backticked name is kept whole |
| `CypherLexer.LineCommentIsNewline` | fluree-db-api/src/cypher_import.rs:599-606 | a line comment counts as one newline |
| `CypherLexer.BlockCommentIsSpace` | fluree-db-api/src/cypher_import.rs:607-633 | a block comment counts as one space and its opening star does not close it |
| `CypherLexer.TrimIs` | fluree-db-api/src/cypher_import.rs:579-651 | trimming takes exactly the white space off both ends |
| `Splitter.ReadLine` | fluree-db-api/src/cypher_import.rs:569-574 | the next line with its newline, and its number |
| `Splitter.ForEachStatement` | fluree-db-api/src/cypher_import.rs:550-651 | the line-at-a-time splitter yields the statements and start lines of the one-pass lexer, for every text |
| `SplitJoin.SplitUndoesJoin` | fluree-db-api/src/cypher_import.rs:535-651 | trimmed statements without comments or bare semicolons, printed with ";" and newline between them, split back into the same list, each with the line it starts on |
| `Identity.DecodeUndoesSegment` | fluree-db-api/src/csv_import.rs:47-70 | percent-encoding has a left inverse |
| `Identity.SegmentIsSafe` | fluree-db-api/src/csv_import.rs:41-70 | an encoded segment holds no reserved, control or non-ASCII byte, and every percent sign in it is followed by two hex digits |
| `Identity.PlainIsUnchanged` | fluree-db-api/src/csv_import.rs:41-70 | text without such bytes is left as it is |
| `Identity.MintInjective` | fluree-db-api/src/csv_import.rs:326-332 | distinct (id space, value) pairs get distinct IRIs, an empty space counting as none |
| `Identity.MintReads` | fluree-db-api/src/csv_import.rs:326-332 | an IRI is the base, the id space and a slash unless there is none, and what decodes to the value |
| `Identity.NodeIdInjective` | fluree-db-api/src/cypher_import.rs:462-484 | distinct (label, key value texts) get distinct node ids, for any numbers of keys |
| `Identity.NodeIdReads` | fluree-db-api/src/cypher_import.rs:462-484 | behind the vocabulary, the decoded pieces between the slashes of a node id are the label and the key values in order |
| `CypherImport.ClausesShift` | fluree-db-api/src/cypher_import.rs:274-400 | a statement whose created nodes carry their keys emits the same objects wherever it stands |
| `CypherImport.LinksCreateNothing` | fluree-db-api/src/cypher_import.rs:300-352 | a statement that only links what it matched creates no node |
| `CypherImport.KeyValuesIff` | fluree-db-api/src/cypher_import.rs:462-484 | the texts an id is built of are those of the first value of each key, in key order |
| `KeySets.KeyNamesIff` | fluree-db-api/src/cypher_import.rs:170-172 | sorted and deduplicated key lists are equal exactly when the property names are the same set |
| `ImportOrder.LearnIff` | fluree-db-api/src/cypher_import.rs:162-189 | learning succeeds exactly when every label is matched by one key set, and learns exactly those |
| `ImportOrder.LearnPermutes` | fluree-db-api/src/cypher_import.rs:162-189 | the keys learned, and whether learning fails, do not depend on the order of statements |
| `ImportOrder.NodesPassTotal` | fluree-db-api/src/cypher_import.rs:193-230 | pass 2 succeeds when every statement does on its own, and adds up what each adds |
| `ImportOrder.EdgesPassTotal` | fluree-db-api/src/cypher_import.rs:236-269 | pass 3 likewise, every skip decided by the nodes of pass 2 |
| `ImportOrder.EdgesCount` | fluree-db-api/src/cypher_import.rs:236-269 | in the multiset that the order theorems compare, every edge counts as often as it is written |
| `ImportOrder.ImportPermutes` | fluree-db-api/src/cypher_import.rs:162-269 | any permutation of statements or files is accepted exactly when the original is, with the same multiset of edges and as many skips |
| `ImportOrder.SkippedAreDangling` | fluree-db-api/src/cypher_import.rs:236-269 | when MATCH … CREATE only links, an import skips as many statements as have a matched id unknown among all the nodes it created in the end, and each of these has a matched id that it never created |
| `ImportNodes.AnonIdInjective` | fluree-db-api/src/cypher_import.rs:486-494 | anonymous ids with different numbers differ, whatever their labels |
| `ImportNodes.UnkeyedNodesAreDistinct` | fluree-db-api/src/cypher_import.rs:333-400 | over a whole import the node patterns without keys, of either pass, are numbered 1, 2, … in the order they are visited, so no two of them get one id |
| `ImportNodes.NodesAreDescribed` | fluree-db-api/src/cypher_import.rs:367-393 | the node objects written are, one for one and in order, the patterns that make a node: that id, all prefixed labels, and for each property name its last value that is not null |
| `ImportNodes.KeyedNodesAreRight` | fluree-db-api/src/cypher_import.rs:333-400 | every new node whose first label was matched, and that has all keys of that label, has the id of its key values |
| `ImportNodes.MatchFindsIff` | fluree-db-api/src/cypher_import.rs:246-259 | a MATCH is bound to such a node exactly when label and key value texts are the same |
| `ImportNodes.MatchBinds` | fluree-db-api/src/cypher_import.rs:246-259 | a MATCH binds exactly its variables, each to the id of the key values of the last node it names, and looks up the ids of all its nodes in order |
| `ImportAcceptance.LearnsIff` | fluree-db-api/src/cypher_import.rs:162-189 | learning succeeds exactly when no MATCH is malformed, every matched node has exactly one label and at least one property, and nodes matched by one label have the same property names |
| `ImportAcceptance.LearnedKeys` | fluree-db-api/src/cypher_import.rs:162-189 | the keys of a label are the property names it is matched by, and only matched labels have keys |
| `ImportAcceptance.ClausesOkIff` | fluree-db-api/src/cypher_import.rs:274-400 | writing clauses are accepted exactly when all are CREATE without named paths, bound variables are referred to bare, properties are literals, keys of keyed nodes are scalars, and relationships are directed, of fixed length, of one type and, under the n-ary policy, without non-null properties |
| `ImportAcceptance.ImportAcceptsIff` | fluree-db-api/src/cypher_import.rs:162-269 | an import succeeds exactly when learning does and every statement, read on its own against the keys learned, is acceptable |
| `ImportEndpoints.NoEdgeDangles` | fluree-db-api/src/cypher_import.rs:236-323 | both ends of every edge, from either pass, are created nodes, unless some matched id that the import never creates has the hash of one that it does |
| `ImportEndpoints.NoEdgeDanglesIff` | fluree-db-api/src/cypher_import.rs:236-323 | when MATCH … CREATE only links, some edge dangles exactly when a statement that is not skipped links such an id |
| `ImportEndpoints.PathEdges` | fluree-db-api/src/cypher_import.rs:308-328 | a path emits one edge per relationship, in order, each between the ids of its two neighbours in the direction and with the type written, and with its properties, of each name the last value that is not null, if the policy annotates edges; named nodes stay bound to those ids |
| `CypherImporter.NodeIdFromProps` | fluree-db-api/src/cypher_import.rs:462-484 | builds the id of the key values in key order, or fails when one is missing or no scalar |
| `CypherImporter.Importer.constructor` | fluree-db-api/src/cypher_import.rs:154-159 | nothing learned, nothing created |
| `CypherImporter.Importer.LearnKeys` | fluree-db-api/src/cypher_import.rs:162-189 | learns what the sightings of the script say, or reports the first conflict |
| `CypherImporter.Importer.LearnNodes` | fluree-db-api/src/cypher_import.rs:168-187 | the matched nodes of one statement |
| `CypherImporter.Importer.CreateNode` | fluree-db-api/src/cypher_import.rs:333-400 | reference, key-derived id or next anonymous id, with the binding, the recorded hash and the object emitted, as in the function that the theorems of `ImportNodes` are about |
| `CypherImporter.Importer.EmitPath` | fluree-db-api/src/cypher_import.rs:307-328 | a path emits its nodes and directed edges in order |
| `CypherImporter.Importer.EmitUpdateCreates` | fluree-db-api/src/cypher_import.rs:274-298 | all CREATE clauses of a statement |
| `CypherImporter.Importer.WriteNodes` | fluree-db-api/src/cypher_import.rs:193-230 | output and created nodes are those of pass 2 |
| `CypherImporter.Importer.BindMatched` | fluree-db-api/src/cypher_import.rs:246-259 | matched variables get their key-derived ids, and whether all of them are known |
| `CypherImporter.Importer.WriteEdges` | fluree-db-api/src/cypher_import.rs:236-269 | output and skip count are those of pass 3 |
| `CypherImporter.Convert` | fluree-db-api/src/cypher_import.rs:513-526 | the three passes in turn give the import that the theorems of `ImportOrder`, `ImportNodes`, `ImportEndpoints` and `ImportAcceptance` are about |
| `CypherMerge.RewriteShape` | fluree-db-api/src/cypher_write.rs:221-290 | the rewrite yields a SET over the matches with ON MATCH and trailing items, and a MERGE with ON CREATE and trailing items and no ON MATCH |
| `CypherMerge.DetectIff` | fluree-db-api/src/cypher_write.rs:95-213 | a statement is conditional exactly when it is one MERGE of a supported pattern, then only SETs, with something to set on a match; without a leading read it is probed, with all trailing items; after one it is paired if it merges a relationship or reads inline rows only; every other statement is lowered as it is |
| `CypherMerge.SetItemsInOrder` | fluree-db-api/src/cypher_write.rs:108-116 | the trailing items are those of every SET, in order |
| `CypherMerge.CreateRefusedIff` | fluree-db-transact/src/lower_cypher_update.rs:1339-1530 | creation is refused exactly for a property that a node pattern names, and for labels on a relationship |
| `CypherMerge.MatchesIff` | fluree-db-transact/src/lower_cypher_update.rs:1319-1336 | an entity matches exactly when it has every label of the pattern, the row's value of every key and, for a relationship, the edge is there and it is its reifier |
| `CypherMerge.PairLowers` | fluree-db-api/src/tx.rs:2060-2124 | what the staged pair does to the graph, reifiers removed with their last property included, or which refusal of the create branch it reports |
| `MergePair.EmptiedIff` | fluree-db-transact/src/stage.rs:243-366 | an entity is emptied by a SET, and its reifier bundle retracted, exactly when it is set, the items assert nothing, and it has properties, all of them named by the items, and nothing else but one edge to stand for |
| `MergePair.EmptyingIsBare` | fluree-db-transact/src/stage.rs:243-366 | that happens only to relationship patterns without labels and properties |
| `MergeMeaning.RowsExpected` | fluree-db-transact/src/lower_cypher_update.rs:1236-1275 | what every entity looks like after any number of rows, read row by row |
| `MergePair.PairIsRowByRowIff` | fluree-db-api/src/cypher_write.rs:221-290 | the pair is row-by-row find-or-create exactly when no two rows that the graph lacks are the same, no row is a plain edge without a reifier under a pattern without a property map, and no matched reifier loses its last property |
| `MergePair.BranchByOriginalGraph` | fluree-db-api/src/cypher_write.rs:215-248 | the branch a row takes row by row is the one whose guard holds of the graph before the statement, unless it is such a plain edge and neither guard does |
| `MergeStatement.PlainEdgeIsIgnored` | fluree-db-transact/src/lower_cypher_update.rs:1319-1336 | over an edge stored without a reifier, MERGE (a)-[r:T]->(b) SET r.k = v is accepted and leaves the graph as it was |
| `MergeStatement.LastPropertyTakesTheReifier` | fluree-db-transact/src/stage.rs:243-366 | MERGE (a)-[r:T]->(b) SET r.k = null over a relationship whose only property is k is accepted and leaves a plain edge, on which the next such statement is stuck |
| `MergeStatement.PerRowMerge` | fluree-db-api/src/cypher_write.rs:95-290 | the same for every statement that detection routes to the pair |
| `MergeStatement.StandaloneMerge` | fluree-db-api/src/cypher_write.rs:431-602 | for a standalone node MERGE, probing and running one branch with its items is find-or-create |
| `MergeStatement.StandaloneStatement` | fluree-db-api/src/cypher_write.rs:95-130 | every statement that merges a single node without a leading read, whatever detection makes of it, is find-or-create with its ON CREATE or ON MATCH items and then every trailing item |
| `MergeStatement.TrailingOnBoth` | fluree-db-api/src/cypher_write.rs:228-272 | a trailing SET lands on a row's entity, found or created, exactly when the row is no plain edge without a reifier |
| `MergeStatement.TogetherIsInOrderIff` | fluree-db-transact/src/lower_cypher_update.rs:913-998 | one clause that retracts all old values and asserts all new ones equals the items in order exactly when no item sets a value the last setting of its property lacks |
| `MergeStatement.ApplyItemIff` | fluree-db-transact/src/lower_cypher_update.rs:913-998 | one item in order: setting a property leaves just the values given, adding labels adds those, nothing else changes |
| `MergeStatement.SetTwiceKeepsBoth` | fluree-db-transact/src/lower_cypher_update.rs:960-998 | the same property set twice to different values keeps both |
| `MergeStatement.RowStepInOrder` | fluree-db-transact/src/lower_cypher_update.rs:1457-1530 | without clashes each row leaves its entity as the items in order do, and every other entity alone but for the edge of a relationship it creates |
| `FullTextConfig.MergeProperties` | fluree-db-api/src/config_resolver.rs:685-694 | the in-place merge places each per-graph entry in its target's slot or at the end |
| `FullTextConfig.PlaceAllTargets` | fluree-db-api/src/config_resolver.rs:685-694 | the merged targets are those of both lists |
| `FullTextConfig.PlaceAllOneEach` | fluree-db-api/src/config_resolver.rs:685-694 | if each list names a target once, so does the merged one |
| `FullTextConfig.ResolvedGroup` | fluree-db-api/src/config_resolver.rs:200-235 | for a graph whose first matching override is given: the ledger-wide settings if it sets nothing or they forbid overrides, its own if there are no ledger-wide ones, and otherwise the targets of both lists, its language if it names one, and a control that permits an identity exactly when both do |
| `FullTextConfig.UnmatchedGroup` | fluree-db-api/src/config_resolver.rs:200-235 | without a matching override a graph has the ledger-wide settings |
| `FullTextConfig.EmitProperties` | fluree-db-api/src/config_resolver.rs:313-323 | emits exactly the targets that are not ledger-wide, under the scope |
| `FullTextConfig.ConfiguredProperties` | fluree-db-api/src/config_resolver.rs:270-326 | the entries are the ledger-wide targets everywhere and, in the scope of each override that may override, the targets of its own list that are not ledger-wide, nothing else |
| `FullTextConfig.EncodingAgrees` | fluree-db-api/src/config_resolver.rs:200-248 | with at most one matching override, the properties whose scope covers a graph are those of both lists, which are those of its resolved configuration |
| `FullTextConfig.AgreesIff` | fluree-db-api/src/config_resolver.rs:270-326 | for every graph and configuration the two forms agree exactly when the overrides whose scope covers the graph add what the first matching override adds |
| `FullTextConfig.RegularAgreesIff` | fluree-db-api/src/config_resolver.rs:270-326 | for graphs not named like a sentinel or a foreign txn-meta graph: exactly when the first matching override adds whatever any matching one adds |
| `FullTextConfig.ForbiddenOverrides` | fluree-db-api/src/config_resolver.rs:549-570 | under a ledger-wide OverrideNone both forms give every graph the ledger-wide properties |
| `FullTextConfig.IrregularDisagrees` | fluree-db-indexer/src/run_index/resolve/resolver.rs:1350-1392 | for every graph named like a sentinel or a foreign txn-meta graph, one override makes the two forms differ |
| `FullTextConfig.TwoOverridesDisagree` | fluree-db-api/src/config_resolver.rs:200-206 | two overrides for one graph: resolution takes the first, the encoding adds up both |
| `Bm25.RegisterCovers` | fluree-db-api/src/bm25_worker.rs:102-123 | registering keeps every registered dependency in the reverse map |
| `Bm25.UnregisterCovers` | fluree-db-api/src/bm25_worker.rs:126-143 | so does unregistering, and the source is gone |
| `Bm25.RegisterExactIff` | fluree-db-api/src/bm25_worker.rs:102-123 | from exact maps, registering keeps them inverse to each other exactly when no ledger is dropped |
| `Bm25.UnregisterExact` | fluree-db-api/src/bm25_worker.rs:126-143 | unregistering keeps exact maps exact |
| `Bm25.RunExactIff` | fluree-db-api/src/bm25_worker.rs:102-143 | in every run the two maps are inverse to each other at every moment up to any point exactly when no registration before it dropped a ledger |
| `Bm25.RunAloneIff` | fluree-db-api/src/bm25_worker.rs:426-451 | in every run no source ever has two syncs in flight up to any point exactly when no flush before it took a source with one in flight |
| `Bm25.TwoSyncsOfOneSource` | fluree-db-api/src/bm25_worker.rs:426-451 | with room for two, a run with two syncs of one source in flight |
| `Bm25.ShrinkingLeavesAWatcher` | fluree-db-api/src/bm25_worker.rs:102-143 | after a shrinking re-registration and an unregistration the dropped ledger still wakes the source |
| `Bm25.CommitWakes` | fluree-db-api/src/bm25_worker.rs:463-473 | a processed commit makes exactly the sources watching its ledger pending and sets the deadline anew |
| `Bm25.WokenWasRegistered` | fluree-db-api/src/bm25_worker.rs:102-123 | in every run a commit wakes only sources that were registered for its ledger before |
| `Bm25.RetractedIsSilent` | fluree-db-api/src/bm25_worker.rs:126-143 | in every run a retracted source is woken by no commit until it is registered again, if no registration before had dropped a ledger |
| `Bm25.CommitIsServed` | fluree-db-api/src/bm25_worker.rs:402-498 | in every run a source that depends on a ledger when its commit is processed stays pending until a flush starts a sync of it |
| `Bm25.FlushIsDebounced` | fluree-db-api/src/bm25_worker.rs:426-451 | in every run a flush comes no sooner than the debounce time after the last commit that woke a source |
| `Bm25.LeftoversWait` | fluree-db-api/src/bm25_worker.rs:426-451 | and what a flush had no room for waits that time again |
| `Bm25.FlushFills` | fluree-db-api/src/bm25_worker.rs:426-451 | a flush leaves something pending only if the pool is full |
| `Bm25.StepKeeps` | fluree-db-api/src/bm25_worker.rs:418-495 | every step keeps the bound on syncs in flight, a deadline exactly when something is pending, and every dependent of a processed commit pending or synced since |
| `Bm25.RunKeeps` | fluree-db-api/src/bm25_worker.rs:402-498 | the same in every state of every run |
| `Bm25Worker.Worker.constructor` | fluree-db-api/src/bm25_worker.rs:269-286 | an idle worker without sources |
| `Bm25Worker.Worker.RegisterGraphSource` | fluree-db-api/src/bm25_worker.rs:102-123 | the maps after registering |
| `Bm25Worker.Worker.UnregisterGraphSource` | fluree-db-api/src/bm25_worker.rs:126-143 | the maps after unregistering; an entry left empty is dropped |
| `Bm25Worker.Worker.ProcessEvent` | fluree-db-api/src/bm25_worker.rs:299-350 | what each event does to the maps and which sources it asks to sync |
| `Bm25Worker.Worker.FlushPending` | fluree-db-api/src/bm25_worker.rs:426-451 | once the deadline has passed, pending sources start in any order until there is no room or none is left; a new deadline only if some are left |
| `Bm25Worker.Worker.Receive` | fluree-db-api/src/bm25_worker.rs:463-473 | an event is one step of the loop's state machine |
| `Bm25Worker.Worker.CompleteOne` | fluree-db-api/src/bm25_worker.rs:486-490 | some sync in flight finishes and nothing else changes |
| `Bm25Worker.Worker.Run` | fluree-db-api/src/bm25_worker.rs:402-498 | the loop keeps the run invariant for any number of rounds |

## Left out

- Storage, nameservice, HTTP and async details: trusted atomic steps. A ledger has a record from its creation on.
- Hashing, the commit codec, signatures, base64 and graph routing ids. What policy, SHACL and `ns_split_mode` decide about a commit of a push is a parameter, and that `ns_split_mode` can make an import fail after its head move is not modelled.
- `set_commit_head` and `set_index_head` as writers, bulk import, index heads, the default context and the rollback after a failed restore.
- Novelty details: the log of facts is append-only, and re-asserted facts are not collapsed; among operations of one t the first listed counts.
- Multi-page export over merge histories beyond one page and its cursor: the code does not provide it.
- PublicationSafety.RunIsSerial: asks that batches are staged over a cache at the durable head, because without it the property is false; the failing run is `StaleCache.StaleInstallBreaksSerial` and the exact condition is in `Serializability.FreshBatchIff` and `Continuations.ContinuationsSerialIff`.
- ImportOrder.ImportPermutes: asks that created nodes carry their keys and that MATCH … CREATE only links, because anonymous ids number nodes in script order.
- ImportOrder.SkippedAreDangling: asks that too, because a MATCH … CREATE that creates nodes may create one that an earlier statement was skipped for.
- ImportAcceptance.ImportAcceptsIff: asks that too, so that a statement can be read on its own.
- ImportEndpoints.NoEdgeDanglesIff: asks that too; `ImportEndpoints.NoEdgeDangles` does not.
- ImportEndpoints.NoEdgeDangles: excepts matched ids whose hash is taken by a created node, because the dangling check compares hashes.
- Keyed and anonymous ids are not claimed disjoint, nor ids of values of different types: the key text `_anon-1`, and 42 and "42", coincide.
- MergePair.PairIsRowByRowIff: asks that SET items leave alone the properties the pattern names; the lowering refuses them on created nodes, and on a match they would change which rows an entity answers to.
- MergeStatement.StandaloneMerge: is about nodes; a standalone relationship MERGE creates its endpoints with it.
- That a stored reifier comes with its edge is taken as given of the graph before a statement. Staging maintains it: retracting an edge retracts its reifiers (fluree-db-transact/src/stage.rs:142-241), and the pair keeps it (`MergePair.PairKeepsEdges`).
- MERGE of a relationship without a variable, with endpoints that the statement itself creates, SET items on other entities than the row's own, values taken from other rows, and `SET n = {…}`.
- DELETE plans and the RETURN of written rows.
- Setting groups other than full text, request-time merges and the readers of the config graph.
- Bm25.RetractedIsSilent: asks that no registration has dropped a ledger, because otherwise it is false (`Bm25.ShrinkingLeavesAWatcher`).
- PushValidation.RetractionsOkIff: asks that the base log is not newer than the head, as it is in every run.
- Events lost by a lagging event channel: the worker's guarantee is about events it processed.
- Literal rendering, JSON output and CSV record parsing.
