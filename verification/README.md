# DevMap: a verified model of its journal, map, bounded graph and append-only state

DevMap keeps a crash-safe record of what coding agents do in a Git repository and draws the repository as a map.
This project models the logic around its Git and file-system calls and proves what that logic is for.

- **The session journal** (`JournalCodec`, `JournalIndex`, `JournalBatch`, `JournalRecovery`, `JournalStore`).
  The directory is a class whose files change one operation at a time; power may be lost at any operation, which then
  leaves nothing or any prefix of what it was writing. The central predicate is `JournalRecovery.Holds`: the directory
  stands for a history, either because the file is its encoding, or because an intent is durable and the file is the
  base history with a prefix of the batch. Appends, recovery and replay keep it under every crash schedule.
- **Sessions in SQL and task bindings** (`JournalSql`, `Bindings`). The streaming verifier agrees with the full one; the
  binding journal with its watermarks refines a last-writer-wins register.
- **The map** (`Topology`, `Kahn`, `MapValidation`, `Lanes`, `Geometry`, `Routing`, `Layout`, `MapLayout`). Validation,
  ordering and ranks, lanes, packing, channels and tracks, up to the whole `layoutTopology`.
- **Folding, bypass channels and projection** (`Folding`, `RouteMap`).
- **The graph behind the map** (`GraphSearch`, `Collector`, `DockBudget`). What Git reports becomes a graph whose
  structure the map's validator accepts, and cutting it to a byte budget keeps it so.
- **Append-only state** (`Presence`, `RoutePlan`, `AgentSync`), **the adapter file** (`Adapter`) and **summary pages**
  (`Summary`).

`Encoding`, `JournalExample`, `DockExample` and `Assumptions` are no part of DevMap: they show that the assumptions below can be met, and
hold the inputs behind the findings.

Each loop of the source is a method proved against a specification function or predicate; the properties are lemmas
about those specifications. State that the source updates in place is a class.

## Assumptions

- JSON is an encoder with a left inverse whose lines are not empty and hold no newline. SHA-256 is an uninterpreted
  function with results of 64 characters; nothing assumes that it is injective. RFC 3339 texts (section 5.6 of RFC 3339)
  are read by a function that may map several texts to one instant. Random identifiers are parameters: route identifiers
  are fresh; summary tokens are 64 hexadecimal digits and may repeat.
- A record adds less than 1 KiB to the JSON of its event: two hashes, a number and the names of four fields. Events are
  envelopes, whether built or read, so their JSON is at most 64 KiB (`src/events.rs:235-249`).
- Locks give mutual exclusion, so a run is a sequence of calls. In the session journal an I/O error counts as a crash:
  the call ends there. The other stores are modelled without crashes and I/O errors, but for the one between the two
  writes of a binding report.
- Lengths of strings stand for lengths of their UTF-8 bytes; where cuts may split a character, strings hold those bytes.
- Orders that the source fixes only to be deterministic (sorted queues, tree maps, sorted warnings) are left open: the
  results hold for any order.
- Coordinates are real numbers.
- `Collector.GitContract` says what is taken from Git: acyclic history, distinct OIDs and parents, refs that name
  commits, OIDs of 40 or 64 hexadecimal digits, and every tip among the rows unless history was cut off.
- A model's JSON contains its graph's and grows and shrinks with it, each commit, edge and boundary costs at least what its
  names and identifiers do, and a shorter subject never makes it longer (`DockBudget.Lawful`).
- A list of watermarks is as long in any order. A page of items is no shorter than a page of any one of them.
- JSON with its number formats is left to a reader and a printer of adapter documents; valid documents are read back as
  they were printed. Which events and handler types a host supports, and that exactly the command handlers have a
  command, is modelled; the types of a handler's other members are a parameter (`Adapter.Lawful`).
- Index files of well-shaped indexes (4096 filter words, counts within the limits) stay below 256 KiB, and an event's ID
  is no longer than its record.

None of these is contradictory. `JournalExample.LawfulFilesExist`, `Summary.LawfulEnvExists`, `DockExample.SizesLawful`
and the lemmas of `Assumptions` exhibit encodings, file formats, tokens and clocks that meet all of them.

## Findings

- **Repeated IDs inside one batch.** The indexed path does not look for them (`src/journal.rs:1527-1553`), the full path
  does (`src/journal.rs:1555-1587`). For contiguous batches of new IDs the two agree if and only if the batch repeats no
  ID (`JournalBatch.TailFormNeedsDistinctIds`); a batch that does makes the journal unreadable for good
  (`JournalRecovery.RepeatingBatchIsFatal`). The callers supply distinct IDs.
  `JournalExample.RepeatedIdAccepted` and `JournalExample.RepeatedIdIsFatal` are the input.
- **The tail window.** The tail read reaches a record only if it is at least two bytes under the record limit, or the
  whole file fits the window (`JournalIndexing.TailExact`); a longer line is refused although the full parser takes it.
  Only an event far over its own limit could make one, so stored histories never meet it (`JournalIndexing.TailReachable`).
- **Retries in a nearly full session.** The record limit is checked before the retry lookup (`src/journal.rs:1024-1029`),
  so a batch that is already stored is refused exactly when the session could not take it a second time
  (`JournalStorage.RunIsExactlyOnce`, `JournalBatch.RetryAfterAcceptance`). `JournalExample.FullSessionRefusesRetry` is
  the input.
- **Whole-document patches.** A patch with an empty path replaces the source's state but is not looked at
  (`src/agent_sync.rs:405-416`), so an old status survives. `AgentSync.MisleadingExact` says for which shapes of patch
  lists this can happen, and `AgentSync.WholeDocumentMisleads` is the input. A call that fails half way can leave a
  later status under the earlier revision; its caller drops the connection and everything kept with it.
- **Gaps in presence deliveries.** Records are folded in the order of delivery and the cursor jumps over what was not
  delivered (`src/presence.rs:797-822`); what it jumped over is never folded (`Presence.PassedIsNeverFolded`). What was
  folded is the journal up to the cursor if and only if every accepted delivery brought all records between the cursor
  and its own last one (`Presence.Projection.ObserveAll`). `Presence.LateRecordIsLost` is the input.
- **Graphs with many boundaries.** The scan limits commits and references (`src/git_topology.rs:12-13`) and the byte
  budget leaves room for fewer edges than the map admits, but nothing limits boundaries: cutting drops none
  (`src/dock.rs:2137-2187`), and over 4096 of them fit the budget, which the map refuses
  (assets/metro-core.js:96). `DockBudget.BoundAccepted` is the exact condition, and `DockExample.WideMergeRefused` with
  `DockExample.WideExists` the input.
- **Large adapter files.** Every plan refuses a file over 4 MiB (`src/adapter.rs:338-361`), but nothing limits the bytes
  that an installation writes. The ten groups it appends, or pretty-printing alone, can carry a file over the limit, and
  then DevMap can no longer take its own handlers out. After an accepted installation, the next install, verify or
  uninstall is possible if and only if the bytes it planned are within 4 MiB (`Adapter.SecondInstallChangesNoBytes`,
  `Adapter.UninstallAfterInstall`). `Assumptions.InstalledTooLarge` is the input, in the encoding of `Encoding`.
- **Binding reports cut short.** A report replaces the watermarks before it extends the journal (`src/journal.rs:470-477`).
  A crash in between leaves watermarks that make the same report a no-op, so a move it carried stays unrecorded until a
  newer report. `Bindings.HalfReportStays` is the exact condition and `Bindings.FirstReportLost` the input.

## Model

| member | source | states |
|---|---|---|
| `JournalCodec.EncodeRecords` | src/journal.rs:1589-1603 | The loop yields the concatenated lines, and refuses exactly when some record is over the record limit |
| `JournalCodec.ParseCompleteRecords` | src/journal.rs:1605-1663 | The loop over known IDs, previous hash and count computes the same result as judging each line against the whole chain before it |
| `JournalCodec.ParseNextExact` | src/journal.rs:1616-1661 | A line is accepted exactly when it is the canonical form, within the limit, of a record that extends the chain |
| `JournalCodec.ParseExact` | src/journal.rs:1605-1663 | The parser returns (records, length) if and only if they form a valid chain whose encoding is the bytes up to that length, and only an unfinished line follows |
| `JournalCodec.ParseTorn` | src/journal.rs:1605-1663 | An encoding cut anywhere inside the next batch parses back to its whole records and their exact length, and what is left is a prefix of the next record's line |
| `JournalCodec.EncodingDeterminesHistory` | src/journal.rs:1589-1663 | Two valid chains with the same bytes are the same chain |
| `JournalCodec.LastHashDeterminesHistory` | src/journal.rs:1740-1760 | Record count and last hash determine the whole history, unless the two histories hold a hash collision at one place |
| `JournalIndexing.ReplayExact` | src/journal.rs:1221-1247 | Replay returns a history if and only if the bytes are its encoding and it is valid, of this session and within the limits |
| `JournalIndexing.TailExact` | src/journal.rs:1286-1310 | The bounded tail read returns the last record exactly when the file fits the window or the record is at least two bytes under the limit; otherwise it refuses |
| `JournalIndexing.TailReachable` | src/events.rs:235-249 | The limit on events keeps every stored record reachable, so the bounded tail read of a stored history always returns its last record |
| `JournalIndexing.SetBitExact` | src/journal.rs:1502-1506 | Setting a bit of the 64-bit filter words changes that bit and no other |
| `JournalIndexing.BloomExact` | src/journal.rs:1472-1525 | A filter bit is set exactly when some stored event ID hashes to it |
| `JournalIndexing.NoFalseNegatives` | src/journal.rs:1496-1525 | The filter never denies a stored ID |
| `JournalIndexing.PushExtends` | src/journal.rs:1508-1514 | Updating an index by one record gives the index built from the longer replay |
| `JournalIndexing.JournalIndex.FromHistory` | src/journal.rs:1472-1481 | The index built in place equals the one specified over the replay |
| `JournalIndexing.JournalIndex.Query` | src/journal.rs:1496-1500 | The in-place lookup agrees with the filter's specification |
| `JournalIndexing.JournalIndex.Push` | src/journal.rs:1508-1514 | The in-place update changes count, length, last record and filter as specified |
| `JournalBatch.PrepareRecordsFromTail` | src/journal.rs:1527-1553 | The loop over count and last hash computes the short form of preparation |
| `JournalBatch.PrepareRecords` | src/journal.rs:1555-1587 | The loop over the whole history computes the full form |
| `JournalBatch.PrepareCheckedExact` | src/journal.rs:1555-1587 | The full form succeeds exactly on contiguous batches of new and distinct IDs, with the linked records as its result |
| `JournalBatch.TailFormRefinesFullForm` | src/journal.rs:1527-1587 | For new IDs that are distinct inside the batch, the short form agrees with the full form |
| `JournalBatch.TailFormNeedsDistinctIds` | src/journal.rs:1527-1587 | For contiguous batches of new IDs the two forms agree if and only if the batch repeats no ID |
| `JournalBatch.LinkKeepsIdsDistinct` | src/journal.rs:1527-1587 | A linked batch keeps IDs distinct exactly when its IDs are new and distinct |
| `JournalBatch.MatchRetry` | src/journal.rs:1031-1064 | The retry lookup returns the stored records, refuses other content or a partial match, and passes only batches of new IDs |
| `JournalBatch.AcceptNewContent` | src/journal.rs:1008-1084 | For new, distinct IDs the decision over the whole history needs only the record count and the last hash |
| `JournalBatch.AcceptedExtends` | src/journal.rs:1067-1084 | An accepted batch extends the history by exactly its linked records, and the history stays valid and within the limits |
| `JournalBatch.RetryAfterAcceptance` | src/journal.rs:1024-1054 | Sending an accepted batch again, with other sequence numbers and times and after any later appends, returns the stored records; it is refused exactly when the session could not hold the batch a second time |
| `JournalBatch.MixedBatchRefused` | src/journal.rs:1042-1064 | A batch that reuses a stored ID for other content, or is only partly stored, is never accepted |
| `JournalBatch.FilterSeesStoredIds` | src/journal.rs:1031-1034 | If the filter denies every ID of a batch, none of them is stored |
| `JournalBatch.LoadIndexExact` | src/journal.rs:1249-1284 | A saved index of the full replay is always accepted, and read back as it was |
| `JournalBatch.LoadIndexSound` | src/journal.rs:1249-1284 | Any accepted index agrees with the full replay in length, count and last record; only its filter is taken on trust |
| `JournalRecovery.PlanExact` | src/journal.rs:1147-1216 | Recovery accepts a pair of intent and journal if and only if an interrupted append can have left it, up to the limits on the whole history |
| `JournalRecovery.InterruptedPlans` | src/journal.rs:1147-1216 | On what an interrupted append left, truncating and appending as planned gives exactly the base history and the whole batch |
| `JournalRecovery.FreshDirectory` | src/journal.rs:1221-1247 | A new directory stands for the empty history |
| `JournalRecovery.HistoryUnique` | src/journal.rs:1147-1219 | A directory stands for at most one history |
| `JournalRecovery.RepairKeepsPending` | src/journal.rs:1202-1216 | Between the two file operations of a repair the directory still stands for the same history |
| `JournalRecovery.RepeatingBatchIsFatal` | src/journal.rs:1527-1553 | A journal that took in a batch repeating one of its own new IDs is refused by every later replay |
| `JournalStorage.SessionDirectory.WriteAtomicRebuildable` | src/journal.rs:1336-1360 | After power loss the target is absent, as it was, or complete, never torn; nothing but target and temporary changes |
| `JournalStorage.JournalStore.RecoverIntent` | src/journal.rs:1147-1219 | From every directory that stands for a history, recovery ends settled at that history; cut off anywhere, the directory still stands for it |
| `JournalStorage.JournalStore.LoadOrRebuildIndex` | src/journal.rs:1249-1284 | The index in memory equals the index of the full replay, whether it was read or rebuilt |
| `JournalStorage.JournalStore.CommitBatch` | src/journal.rs:1077-1083 | Intent, journal, index, intent: cut off anywhere, the directory stands for the history before or after the batch |
| `JournalStorage.JournalStore.AppendBatch` | src/journal.rs:1008-1084 | Starting from any directory an interrupted run can leave, the answer and the directory are those of the decision over the whole history; what a batch that repeats its own IDs leaves is stated apart |
| `JournalStorage.JournalStore.ReplayJournal` | src/journal.rs:1112-1119 | Replay returns the history and leaves the directory settled |
| `JournalStorage.JournalStore.Run` | src/journal.rs:1008-1219 | In every run of appends and replays with power loss anywhere, recovery included, the directory stays recoverable, every answer is the one of the decision over the whole history, the history grows only by whole accepted batches, and nothing returned is lost |
| `JournalStorage.RunIsExactlyOnce` | src/journal.rs:1031-1064 | With any other calls in between and power lost anywhere, a batch that was answered and is sent again adds nothing and gets the first answer; it is refused exactly when the session could not hold it twice |
| `JournalStorage.KnownStaysKnown` | src/journal.rs:1031-1064 | Content that is stored answers every later delivery of it, however much was appended since |
| `JournalStorage.JournalStore.Deliver` | src/journal.rs:1031-1064 | A batch retried until a call returns ends up in the journal exactly once under any crash schedule, and some attempt returns as soon as one is not cut short |
| `JournalSql.ReadRowExact` | src/journal.rs:2080-2106 | A row is read as a record exactly when it is that record's row |
| `JournalSql.AdvanceExact` | src/journal.rs:1990-2050 | One streamed row is accepted exactly when it extends the history within the limits |
| `JournalSql.NextBatch` | src/journal/summary_batch.rs:126-160 | Every batch is a non-empty run of readable rows, or ends at a row that cannot be read |
| `JournalSql.SqlRecords` | src/journal.rs:2072-2120 | The full reader succeeds exactly on a well-kept session, registered or without rows and extent, and returns its history |
| `JournalSql.SqlSummary` | src/journal.rs:1973-2070 | The streaming reader succeeds exactly when the session is well kept, with that history's count and last hash, for any row and byte limits of a batch |
| `Bindings.ParseBindingRecords` | src/journal.rs:198-245 | The loop with a map of latest records computes the line-by-line specification |
| `Bindings.ParseEncoded` | src/journal.rs:198-245 | Every valid binding journal within the limits is read back unchanged |
| `Bindings.ParseSound` | src/journal.rs:198-245 | Whatever is read is a valid journal |
| `Bindings.ParseSaved` | src/journal.rs:94-166 | Saved watermarks are read back unchanged beside the journal they belong to |
| `Bindings.ObserveRefinesPut` | src/journal.rs:579-650 | One association acts on journal and watermarks as one write acts on a last-writer-wins register |
| `Bindings.ObserveAllRefinesPutAll` | src/journal.rs:579-650 | So does a whole list of associations |
| `Bindings.ObserveAllConsistent` | src/journal.rs:579-650 | Updating keeps every record covered by a watermark and the journal readable |
| `Bindings.PutAllIsNewest` | src/journal.rs:579-650 | What remains of a task is the first of its newest reports, or the start if nothing newer came |
| `Bindings.ArrivalOrderIrrelevant` | src/journal.rs:579-650 | When the instants of a task differ, the final register does not depend on the order of arrival |
| `Bindings.UpdateBindings` | src/journal.rs:579-651 | The loops compute the updated state, its new lines and its list of watermarks, and refuse exactly when records, watermarks or the bytes of either exceed their limits |
| `Bindings.BindingStore.Report` | src/journal.rs:426-479 | Without a crash, a report is refused exactly when it is malformed or the updated files would exceed a limit; an accepted one leaves files that stand for the updated state, a refused one changes nothing |
| `Bindings.HalfReportStays` | src/journal.rs:470-477 | Cut short between the two writes, a report leaves readable files, and repeating it changes nothing, so its register comes about if and only if it had no move to record |
| `Bindings.FirstReportLost` | src/journal.rs:470-477 | The first report of a repository, cut short there, leaves its task without a worktree however often it is repeated |
| `Bindings.BindingStore.ReportAll` | src/journal.rs:426-479 | After any run of reports without crashes the files stand for the register that the accepted reports write, one association after the other; only malformed reports and those over a limit are refused, and they leave no trace |
| `Topology.StuckMeansCycle` | assets/metro-core.js:183-195 | A non-empty set in which everybody has a parent contains a cycle, which is why an incomplete count shows one |
| `MapValidation.FindsCycle` | assets/metro-core.js:173-195 | The counting loop reports a cycle exactly when the parent relation among commits has one |
| `MapValidation.ValidateTopology` | assets/metro-core.js:89-198 | The validator accepts exactly the well-formed graphs within its size limits |
| `Kahn.Order` | assets/metro-core.js:588-605 | The queue visits nodes parents first, and settles every rank it visits |
| `Kahn.CompleteIffAcyclic` | assets/metro-core.js:588-605 | The order is complete if and only if the arcs have no cycle |
| `Kahn.RankIsLongestPath` | assets/metro-core.js:597-605 | A rank is the length of the longest path that ends there |
| `Lanes.AssignChain` | assets/metro-core.js:611-627 | A walk from a tip follows first parents and stops at the first assigned commit |
| `Lanes.AssignLanes` | assets/metro-core.js:608-630 | Lanes partition the endpoints and each follows first parents |
| `Lanes.LaneSuccessorUnique` | assets/metro-core.js:617-627 | No two commits follow the same first parent on its lane |
| `Lanes.SameLaneSameRank` | assets/metro-core.js:611-630 | Two endpoints of one lane never share a rank |
| `Geometry.PackCell` | assets/metro-core.js:661-674 | Shelf packing leaves the labels of a cell apart from each other, inside its width and height, below the rail |
| `Geometry.PlaceLanes` | assets/metro-core.js:706-712 | Lanes are stacked with room for their tracks, their tallest cell and the gap |
| `Geometry.CellsApart` | assets/metro-core.js:697-733 | Rectangles of different cells do not overlap |
| `Geometry.HorizontalClears` | assets/metro-core.js:738-744 | A horizontal rail segment at a lawful height meets no label |
| `Geometry.VerticalClears` | assets/metro-core.js:738-744 | A vertical rail segment in a channel meets no label |
| `Routing.FillGap` | assets/metro-core.js:700-704 | Every routed edge of a gap gets a channel of its own, departures before arrivals |
| `Routing.PlaceColumns` | assets/metro-core.js:697-705 | Columns stand in order with room for their widest cell and every channel of the gap |
| `Routing.LeftToRight` | assets/metro-core.js:700-704 | A routed edge departs and arrives strictly between its stations, in that order |
| `Routing.ChannelsDiffer` | assets/metro-core.js:700-704 | No two routed edges share a vertical channel |
| `Routing.TracksDiffer` | assets/metro-core.js:683-696 | No two routed edges of a lane share a track |
| `Layout.RouteEdges` | assets/metro-core.js:685-696 | Edges are direct exactly on one lane with nothing in between, and the others are numbered track by track |
| `Layout.RailLawful` | assets/metro-core.js:738-744 | Every segment of a rail is horizontal at a lawful height or vertical in a channel |
| `Layout.LabelsApart` | assets/metro-core.js:660-733 | Any two labels of the map are apart |
| `Layout.CheckAttachments` | assets/metro-core.js:579-587 | Attachments are accepted exactly when within the limits, attached to endpoints and of distinct workspaces |
| `MapLayout.MakePlan` | assets/metro-core.js:588-630 | Every endpoint gets a rank and a lane, no two the same pair, and lanes follow first parents |
| `MapLayout.AssembledRectangles` | assets/metro-core.js:713-755 | No two rectangles of the map overlap |
| `MapLayout.AssembledRails` | assets/metro-core.js:738-755 | No rail segment meets a label or a workspace rectangle |
| `MapLayout.AssembledSeparate` | assets/metro-core.js:685-744 | Routed edges share neither a vertical channel nor a track height |
| `MapLayout.LayoutTopology` | assets/metro-core.js:560-760 | For exactly the valid inputs there is a map; every endpoint has a station with exactly its labels, every unborn workspace a rectangle, every edge a rail; no rectangles overlap, no rail meets a rectangle, every rail runs forward, and routed rails share no channel and no track |
| `MapLayout.WorkspacesShown` | assets/metro-core.js:636-665 | Different workspaces are shown by different labels, each at its commit and of its size, and the labels are apart |
| `Folding.WalkChain` | assets/metro-core.js:823-825 | The walk ends, at a kept station, having passed only stations with one way in and one way out |
| `Folding.Fold` | assets/metro-core.js:815-832 | The nested loops find exactly the chains with four or more members from kept stations, and hide what they say |
| `Folding.HiddenExact` | assets/metro-core.js:821-831 | A station is hidden exactly when it is not kept and its whole chain is long enough and not asked for in full |
| `Folding.HidesOnlyFoldable` | assets/metro-core.js:818-831 | No kept station, revealed commit or expanded commit is hidden |
| `Folding.RangesDisjoint` | assets/metro-core.js:823-831 | Ranges share no station and no edge |
| `Folding.RangeIdsUnique` | assets/metro-core.js:827 | When lanes follow first parents, no two ranges start at one station or share an identifier |
| `Folding.StationsConserved` | assets/metro-core.js:832 | Stations shown and stations hidden are together exactly the stations of the map |
| `Folding.EdgesConserved` | assets/metro-core.js:831-832 | The edges left in place and the chains behind the summaries are together exactly the edges of the map |
| `Folding.ExpandAll` | assets/metro-core.js:828-832 | Asking for every range in full gives back the map, in its order |
| `Folding.ReachabilityKept` | assets/metro-core.js:815-832 | Folding changes no ancestry between stations that are shown |
| `Folding.FoldedEdgesJoinShown` | assets/metro-core.js:831-832 | Every edge shown joins stations that are shown |
| `RouteMap.FoldLayout` | assets/metro-core.js:812-833 | On a laid-out graph heads, refs, boundaries and asked-for commits are kept |
| `RouteMap.LayoutRangeIdsUnique` | assets/metro-core.js:611-630 | On a checked graph with its layout, range identifiers never collide |
| `RouteMap.AssignChannels` | assets/metro-core.js:867-871 | Bypass edges that share a channel have disjoint rank intervals, whatever the order of the edges |
| `RouteMap.ProjectX` | assets/metro-core.js:788-798 | The bisection finds the pair of anchors around the value and interpolates between their marks |
| `RouteMap.ProjectionKeepsOrder` | assets/metro-core.js:788-798 | The projection is strictly order-preserving |
| `RouteMap.ProjectionStaysInside` | assets/metro-core.js:788-798 | Positions of the map land inside the margins, the outermost ones on them |
| `RouteMap.PlainAxisKeepsOrder` | assets/metro-core.js:780-789 | With fewer than three anchors the plain axis is order-preserving and stays inside the margins |
| `GraphSearch.RefReachesHead` | src/dock.rs:1786-1809 | The depth-first search ends, and finds the head exactly when it is a commit reached from the ref by parent links |
| `GraphSearch.Explore` | src/git_topology.rs:466-476 | The breadth-first search ends with exactly the component of its start |
| `GraphSearch.FindComponents` | src/git_topology.rs:461-478 | The components found partition the commits |
| `GraphSearch.CountSeparates` | src/git_topology.rs:479-481 | Two or more components mean two commits that nothing links, and conversely |
| `Collector.MarkUnrelated` | src/git_topology.rs:435-495 | With two or more components exactly the commits without a retained parent are marked, and none otherwise |
| `Collector.EveryPartIsMarked` | src/git_topology.rs:483-494 | In a whole acyclic history with unlinked parts, every part has a commit marked unrelated |
| `Collector.BuildEdges` | src/git_topology.rs:120-137 | One edge per parent link, and a boundary for every parent that is not retained |
| `Collector.Scan` | src/git_topology.rs:58-178 | The graph has exactly the boundaries its inputs call for, one edge per link, and is complete exactly when nothing is cut off, omitted, shallow or missing |
| `Collector.ScanWellFormed` | src/git_topology.rs:58-178 | Whatever Git reports within its contract, the graph is one the map's validator accepts in structure, and every head has a place in it |
| `Collector.ScanNamed` | src/git_topology.rs:58-178 | A scanned graph holds object identifiers where they belong, and edge and boundary identifiers are made from them |
| `DockBudget.UnattendedExact` | src/dock.rs:1739-1784 | A workspace reads unattended exactly when a recent, complete observation shows the last report of every known thread archived or deleted |
| `DockBudget.CutPoint` | src/dock.rs:2095-2103 | The longest cut within the limit that splits no character |
| `DockBudget.DockModel.RebuildBoundaries` | src/dock.rs:2137-2187 | After commits were dropped, edges, refs and heads that lost their commit get a boundary, and nothing else does |
| `DockBudget.CutKeepsSound` | src/dock.rs:2083-2187 | A cut keeps the graph well formed: endpoints, parent edges, unique identifiers, acyclicity, and a place for every head |
| `DockBudget.DockModel.RetainTopology` | src/dock.rs:2083-2136 | The loop ends; the graph stays sound, is a trimmed form of the old one, fits the budget on success, and fails only with no commit left |
| `DockBudget.DockModel.GiveBack` | src/dock.rs:2030-2048 | Chats return in order while the budget lasts; a lane that lost one is named in a warning, and the observation stops claiming completeness |
| `DockBudget.DockModel.Bound` | src/dock.rs:1951-2082 | On success the model fits, the graph is sound, no lane and no boundary is dropped, losses are marked, and passengers say what lanes and observation show; it fails only if what is left without route plans, bindings, commits and, where that helps, chats and duplicates is still over the ceiling, or the final check of a cut model fails |
| `DockBudget.BoundAccepted` | src/dock.rs:1951-2082 | What comes out of bounding a scanned graph, the map's validator accepts if and only if it has at most 4096 boundaries |
| `DockExample.WideMergeRefused` | src/dock.rs:2083-2187 | A merge of 4097 to 5000 parents that the repository does not have is within what Git may report, bounding its model succeeds, and the map refuses the graph |
| `DockExample.WideExists` | src/git_topology.rs:119-137 | 4097 numbered parents of a numbered merge are such identifiers |
| `DockExample.SizesLawful` | src/dock.rs:1951-2136 | Lengths counted as canonical JSON has them meet what bounding assumes |
| `DockBudget.CutNeverUnattended` | src/dock.rs:2040-2074 | Once a chat was left out, no workspace with a lane reads unattended or fit for cleaning up |
| `DockBudget.LanesStayAttached` | src/dock.rs:1993-2048 | Every lane is still there with its head, and the head is a commit or boundary |
| `DockBudget.ScannedIsSound` | src/dock.rs:985-1013 | A scanned graph meets what bounding asks of its caller |
| `Presence.ProjectRecords` | src/presence.rs:339-428 | The loop computes the fold of the records onto the previous presence |
| `Presence.BatchIndependent` | src/presence.rs:339-428 | Projecting one batch and then another equals projecting both at the later time |
| `Presence.ProjectionStored` | src/presence.rs:385-428 | Every projected record is observed, explicit exactly while waiting, and leased unless completed |
| `Presence.StoredMeetsRules` | src/presence.rs:614-640 | Every stored record meets the status rules, as written and as it reads at any time |
| `Presence.LeaseExact` | src/presence.rs:496-511 | A record reads as written until its lease ends and as stale from then on, unless completed, for times that RFC 3339 can write |
| `Presence.Projection.Observe` | src/presence.rs:772-830 | Exactly the accepted records past the cursor are folded, in sequence order and each once; any failure changes nothing |
| `Presence.Projection.Wait` | src/presence.rs:832-838 | An explicit wait replaces status, lease and activity, and needs a presence |
| `Presence.SaveKeepsConsistent` | src/presence.rs:772-830 | Saving keeps the presence equal to the fold of what reached it, and the cursor on the last folded record |
| `Presence.CaptureOnly` | src/presence.rs:339-428 | Without explicit waits the saved fields are one fold over the folded records |
| `Presence.DeliveryIsWhole` | src/presence.rs:797-822 | A delivery folds everything up to its last record exactly when it brought everything the cursor had not passed |
| `Presence.DeliveryExact` | src/presence.rs:797-822 | What was folded is up to date after a delivery if and only if it was so before and the delivery brought every record between the cursor and its own last one |
| `Presence.Projection.ObserveAll` | src/presence.rs:772-838 | After any run of deliveries and waits, what was folded is the journal up to the cursor if and only if it was so before and every accepted delivery was whole; then, without waits, the saved fields are one fold over the journal |
| `Presence.LateRecordIsLost` | src/presence.rs:797-822 | Of two records delivered in the wrong order the first is never folded, and the saved fields differ from the journal's |
| `Presence.PassedIsNeverFolded` | src/presence.rs:810-815 | Once the cursor has passed a record, no delivery folds it any more |
| `RoutePlans.ParseRecords` | src/route_plan.rs:368-422 | The parser accepts exactly the lines of a consistent log |
| `RoutePlans.ReadsBack` | src/route_plan.rs:314-422 | The bytes of a log are read back as that log |
| `RoutePlans.BuildFollows` | src/route_plan.rs:211-301 | The record decided on keeps the log consistent |
| `RoutePlans.CompareAndSwap` | src/route_plan.rs:234-246 | An edit of a route lands exactly when it names the revision the route is at; otherwise it is told the current one |
| `RoutePlans.RevisionsCount` | src/route_plan.rs:407-416 | The revisions of a route are 1, 2, ... in the order of its records |
| `RoutePlans.OneWinner` | src/route_plan.rs:234-246 | Of two edits that name the same revision of a route, at most one is in the log |
| `RoutePlans.StartFixedRequestsUnique` | src/route_plan.rs:399-414 | A route keeps its start commit, and no request is used twice |
| `RoutePlans.RepeatAnswersFirst` | src/route_plan.rs:216-224 | A repeated request is answered with its own result, however many edits came after it |
| `RoutePlans.ReuseRefused` | src/route_plan.rs:216-226 | A request identifier with other content is refused |
| `RoutePlans.RoutePlanStore.Set` | src/route_plan.rs:136-201 | One locked call appends at most its own record, keeps the log consistent, and answers as decided |
| `RoutePlans.RoutePlanStore.ListWithStarts` | src/route_plan.rs:119-134 | The latest plan and the first record of every route, the latest with as many revisions as the route has records |
| `AgentSync.RuntimeStates.ApplyChange` | src/agent_sync.rs:378-421 | Under loss, repetition and reordering, honest changes leave every kept status unknown or the source's at the revision kept with it |
| `AgentSync.MisleadingExact` | src/agent_sync.rs:399-418 | Patches of a given shape can leave a wrong status if and only if the last word on a status known so far is a replacement of the whole document |
| `AgentSync.WholeDocumentMisleads` | src/agent_sync.rs:405-416 | A concrete whole-document patch after which the kept status is wrong |
| `AgentSync.Merge` | src/agent_sync.rs:166-200 | The loops compute the merged query |
| `AgentSync.MergeDecidesTasks` | src/agent_sync.rs:166-200 | A complete inventory decides which tasks there are, a partial one only adds, an older one changes nothing |
| `AgentSync.ReportsSurvive` | src/agent_sync.rs:173-182 | The client's reports about a task survive every merge that keeps the task |
| `AgentSync.ObservationMovesForward` | src/agent_sync.rs:167-172 | The observation time never moves back |
| `Adapter.CommandNamesBinding` | src/adapter.rs:1540-1554 | The command of an installed binding is read back as that binding |
| `Adapter.StandardBindingsOk` | src/adapter.rs:253-269 | The bindings of both hosts can be told apart, are each found again, and are for events their host supports |
| `Adapter.RemovedValid` | src/adapter.rs:965-1150 | Taking bindings out of a valid document leaves one that passes validation again |
| `Adapter.InstalledValid` | src/adapter.rs:965-1150 | So does installing them |
| `Adapter.RemovalKeepsForeign` | src/adapter.rs:1556-1621 | What remains of an event are the handlers of others, in order, with their groups' matchers and members |
| `Adapter.ForeignGroupStays` | src/adapter.rs:1573-1616 | A group without owned handlers is not touched |
| `Adapter.CheckExact` | src/adapter.rs:395-402 | The check holds exactly when every binding stands in one place, its own, in its exact form |
| `Adapter.InstallIsExact` | src/adapter.rs:393-409 | After an installation every binding stands in exactly one place, in its exact form |
| `Adapter.InstallKeepsForeign` | src/adapter.rs:393-409 | Installing moves no handler of others and touches no other member of the file |
| `Adapter.RoundTrip` | src/adapter.rs:380-422 | Installing and then uninstalling leaves exactly the handlers of others, event by event and in order |
| `Adapter.Configuration.RemoveOwned` | src/adapter.rs:1556-1621 | The in-place edit computes the removal as specified, event by event |
| `Adapter.Configuration.AppendBinding` | src/adapter.rs:1454-1472 | The in-place edit adds one group to the binding's event |
| `Adapter.Configuration.InstallBindings` | src/adapter.rs:393-409 | The in-place edit computes the installation as specified |
| `Adapter.DesiredResult` | src/adapter.rs:338-422 | The bytes planned are those of the specified edit; files over 4 MiB and documents that fail validation are refused |
| `Adapter.WrittenIsRead` | src/adapter.rs:338-471 | What an edit wrote is read back as the edited document if and only if it is within 4 MiB |
| `Adapter.SecondInstallChangesNoBytes` | src/adapter.rs:338-422 | After an accepted installation a second one writes the bytes that are already there if they are within 4 MiB, and is refused otherwise |
| `Adapter.UninstallAfterInstall` | src/adapter.rs:338-422 | After an accepted installation uninstalling leaves exactly the handlers of others if the installed file is within 4 MiB, and is refused otherwise |
| `Assumptions.InstalledTooLarge` | src/adapter.rs:338-422 | A configuration one byte below the limit takes the installation, and can then be neither installed over nor uninstalled from |
| `Summary.ChunkEnd` | src/summary.rs:116-119 | A chunk is not empty, at most 4096 bytes, and ends at the last place between characters |
| `Summary.Builder.Retain` | src/summary.rs:93-109 | A result is kept exactly when the session has room and the token is unused |
| `Summary.Builder.KeepDetail` | src/summary.rs:110-133 | A text becomes a chain of pages, each at its offset, cut only between characters; it fails only when the text is empty, one of its pages does not fit, the session has no room for all of them, or a token was drawn twice |
| `Summary.Builder.KeepCollection` | src/summary.rs:134-178 | Items become a chain of pages that all fit; it fails only when the session has no room for the pages and their tokens, an item is too large for a page of its own, or a token was drawn twice |
| `Summary.TakeRows` | src/summary.rs:149-157 | A page takes as many of the next items as fit, at most eight |
| `Summary.FollowVisits` | src/summary.rs:166-176 | Following the cursors visits exactly the pages of a chain, each once, in order, and then stops |
| `Summary.ReadingRestoresText` | src/summary.rs:110-133 | Reading a detail from its cursor restores the text |
| `Summary.ReadingVisitsItems` | src/summary.rs:134-178 | Reading a collection from its cursor visits every item once, in order |
| `Summary.Build` | src/summary.rs:180-254 | From the pages shown first, the cursors lead to every item of every collection once and in order, every detail cursor gives back its text, and everything kept fits; as long as no token repeats it succeeds exactly when no limit is exceeded |
| `Summary.SummaryState.GetPage` | src/summary.rs:57-73 | Within the lifetime of a snapshot a cursor always gives the same page; after that the whole snapshot is gone |
| `JournalExample.SampleIsHistory` | src/journal.rs:1221-1247 | A session journal may hold any number of records up to its limit |
| `JournalExample.RepeatedIdAccepted` | src/journal.rs:1527-1587 | On a batch of two events with one new ID the short form succeeds and the full form refuses |
| `JournalExample.RepeatedIdIsFatal` | src/journal.rs:1527-1553 | The journal that such a batch leaves is refused by replay |
| `JournalExample.FullSessionRefusesRetry` | src/journal.rs:1024-1029 | In a session of 100000 records the delivery of its own first event is refused; with one record fewer it is answered with the stored record |

## Left out

- Git processes, supervision, pipes, operating-system locks, file identity and permission checks: foreign calls.
- SQLite schema, migrations, origin admission and the IPC runtime: rows are sequences and a transaction is atomic.
- The HTTP viewer, MCP dispatch, the command line and HTML rendering: plumbing around the modelled logic.
- Validators of single fields (lengths, hexadecimal digits, blank strings), which are parameters where they matter.
- Card and range placement in `layoutRouteMap` (assets/metro-core.js:895 and 904): one pass that does not promise that
  cards never overlap.
- Rail crossings with their floating-point tolerances, label stems, colors and CSS dimensions.
- The shared relationship facts of `src/git_relationship.rs`: the module that decides them is not part of this model.
- The descriptor file of the generic MCP host (`src/adapter.rs:424-446`), which is written or removed as a whole, and the
  steps that replace a file on disk.
- Columns of a presence record that are constant for a workspace, and the byte limits of its strings.
- The scan that decides the worktree of a task and the polling loop of the desktop adapter.
- Crashes of the route plan log and of the watermark file: a torn append leaves a plan log that every later read refuses
  (`src/route_plan.rs`, "incomplete plan journal"), and a leftover `task-binding-watermarks.pending` makes every later
  report fail (`src/journal.rs:76-82`).
- JournalStorage.JournalStore.Run: takes batches without repeated IDs, because with them the property is false; the
  findings above say what happens then.
- JournalRecovery.PlanExact: leaves the limits on the whole recovered history aside, because recovery checks them only
  in the replay that follows.
- DockBudget.DockModel.Bound: does not say by how much the result stays under the limit, because JSON sizes are
  parameters; the final size check is modelled.
- DockBudget.CutNeverUnattended: speaks of workspaces that have a lane; the source builds its facts from the lanes.
- Summary.Build: covers details and collections and not the other fields of the envelope, which are opaque data.
- Presence.Projection.Observe: models the cursor of one session; the origin check of a session is a foreign lookup.
- Adapter.DesiredResult: leaves the types of a handler's members besides its type and command to a parameter.
