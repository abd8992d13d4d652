# Replay, reduction, journal and analytics: a verified model

This project models the stateful cores of the Hyperliquid copy trader in Dafny and proves what they keep over whole
runs.

- **Replay** (`ReplayEvents`, `ReplayContents`, `KeyOrder`, `ReplayOrder`, `Sorting`, `StableMerge`, `ReplayEngine`).
  Recorded lines become numbered events; events are sorted in chunks, merged through a heap and emitted with
  checkpoints. The order is told in event fields, the merge is the one stable sort of the whole input, and interrupted
  replays lose and repeat nothing exactly when sort keys are distinct.
- **Account stream** (`FillDedupe`, `FillChain`, `OpenOrders`, `AccountStream`, `StreamFacts`, `StreamReducer`,
  `StreamRuns`, `PositionRuns`, `OrderRuns`, `SnapshotOrder`). A class with the reducer's fields applies frames in
  place; each method is proved against a pure step function, and runs of steps are reasoned about on that function:
  the bounded fill memory, position chains, exchange clocks, the order list. What each frame does, and when it is
  refused, is also said field by field.
- **Action journal** (`ActionJournal`, `JournalStore`, `VenueReports`). The SQLite tables are two maps of a class; a
  raised error leaves both as they were. Nonces, attempt numbers, the send boundary, cumulative fills and the row
  invariant hold in every run, which calls are accepted is said in states and numbers, and it is stated exactly when
  the order of venue reports decides how an action ends.
- **Follower revisions and fences** (`FollowerState`, `StateBook`). In-flight cumulative fills project positions
  without double counting; a fence detects exactly the publishes since it was taken.
- **Address analytics** (`Compaction`, `DayWalk`, `TradeChart`, `AccountChart`, `PnlChart`). Grouping conserves
  totals, days partition the window, each point of the daily chart is a statement about the kept fills, account-value
  deltas telescope, the size-limited chart agrees with the exact one.
- **Shadow sizing and recovery windows** (`ShadowSizing`, `RecoveryWindows`). Conservation of sized notional through
  dust buckets; numbering and counting of recovery windows.

Money, sizes and prices (`Decimal` in the program) are exact reals. Addresses, hashes, client ids and market symbols are
opaque, already normalised values. Frames, lines and rows arrive parsed; a part that failed to parse is an explicit case
(`None`, `Malformed`, `BadMarketRow`), so the refusal paths are modelled. Times that the program reads from a clock are
parameters.

## What the code does not keep

Five properties one would expect hold only under a condition.

1. An address filter is stripped of repeats, but the addresses of a manifest are not
   (`scripts/replay_live_recording.py:1202-1213`), nor are those of a directory scan, which lower-cases file stems, so two
   files that differ only in case list one address twice (`scripts/replay_live_recording.py:1215-1218`). An address listed
   twice gives two events the same sort key, and a replay stopped between them never emits the second
   (`ReplayEngine.RepeatedManifestAddressLosesAnEvent`). Replays are lossless exactly when no address that contributes
   events is listed twice (`ReplayEngine.RecordingReplaysLosslesslyIff`).
2. The first fill snapshot of a connection replaces the fill list whether or not its fills are known; the second adds only
   fills the memory does not hold by then (`src/hyperliquid_copytrader/account_stream.py:729-741`). So the listed fills can
   depend on which feed's snapshot comes first. What is listed is stated for every state, with a full or an empty memory
   (`SnapshotOrder.SecondSnapshot`). Where the two snapshots together fit the capacity, the order is irrelevant exactly when
   no identity of one snapshot only is still in the memory after the other (`SnapshotOrder.SnapshotOrderIff`). Where no
   fill is in both and none is remembered, it is irrelevant exactly when they fit or one is empty
   (`SnapshotOrder.UnrelatedSnapshotsIff`). Two runs from the start show each kind of failure
   (`SnapshotOrder.SnapshotOrderCanMatter`, `SnapshotOrder.OverfullSnapshotsDiffer`).
3. A reconnect time of zero reads as "not reconnected" when the next reconnect looks for an open window
   (`scripts/track_replay_state.py:812-814`), so two reconnects can share one window. The counts agree exactly when no
   reconnect at time zero is followed by another one without a degraded row in between
   (`RecoveryWindows.ReconnectsCountedByRowsIff`), always so for positive times.
4. A retired book can be published again under an old number, and then a stale fence matches
   (`src/hyperliquid_copytrader/account_state.py:455-464`, `StateBook.RetiredBookCanMatchAgain`). A stale match needs such a
   re-issue at or below the captured number (`StateBook.StaleMatchNeedsReissue`). After any run, a stale fence can no longer
   match, short of a further retirement, exactly when the source or follower moved, or the book is published above the
   captured number, or nothing was published at all (`StateBook.FenceIsSafeIff`).
5. A venue response and a user fill of one action can race: when the fill is recorded first, a response that reports less
   (a rejection, say) is refused and the action stays unresolved, while in the other order it ends
   (`src/hyperliquid_copytrader/action_journal.py:465-557`). When exactly the order decides is stated for every outcome and
   quantity (`VenueReports.OrderMattersIff`), and for one response among any fill reports (`VenueReports.ArrivalMattersIff`).

## Model

| member | source | states |
|---|---|---|
| KeyOrder.KeysAreTotallyOrdered | scripts/replay_live_recording.py:1168-1174 | tuple comparison of sort keys, with integers and text, is a total order, so "sorted" and "after the checkpoint" are well defined |
| KeyOrder.NumbersDecide | scripts/replay_live_recording.py:1168-1174 | where two keys first differ in a number, the key with the smaller number comes first |
| KeyOrder.ComparesAsText | scripts/replay_live_recording.py:1168-1174 | text compares by its first differing character, a proper beginning first |
| ReplayOrder.KeysTellTheOrder | scripts/replay_live_recording.py:52-64 | one event is replayed before another if and only if its sort time is smaller, or at equal times it has an exchange time and the other has not, or then it was received earlier, or then by address, event file before snapshot file, line, item, and real before synthetic: all said in event fields |
| ReplayEvents.EmitGroup | scripts/replay_live_recording.py:457-563 | one group of a user message is appended after the earlier groups with the message-wide item counter running on |
| ReplayEvents.UserChannelEvents | scripts/replay_live_recording.py:457-563 | fills, funding, liquidation, cancels, TWAP history and TWAP slices come in this order, each emitted entry numbered by how many were emitted before it in the message |
| ReplayEvents.IterEventFile | scripts/replay_live_recording.py:168-257 | reading a file with its pending-disconnect variable gives the recursive reading of the lines: same events, same first error, blank lines skipped, stop after the record limit |
| ReplayEvents.IterSnapshotFile | scripts/replay_live_recording.py:566-616 | one numbered snapshot event per record up to the limit, or the first record error |
| ReplayEvents.LineGivesItsEvents | scripts/replay_live_recording.py:168-257 | in a readable file line n contributes exactly its own record's events, and a reconnect is reported recovered precisely when the latest earlier stream error is still open, with the gap since that error |
| ReplayEvents.AddressKeysDistinct | scripts/replay_live_recording.py:52-64 | all events of one address, from both of its files, have pairwise distinct sort keys |
| ReplayEvents.RecordingKeysDistinctIff | scripts/replay_live_recording.py:143-165 | the sort keys of a whole recording are pairwise distinct if and only if no address with events is listed twice |
| ReplayContents.ListedReport | scripts/replay_live_recording.py:260-454 | an entry list gives one event per parsed entry, with the entry's own exchange time or the time of receipt, kind, subtype, line and item number |
| ReplayContents.UserChannelReports | scripts/replay_live_recording.py:457-563 | a user message gives exactly its parsed entries, each numbered by how many parsed ones came before it, and each event reports its entry's fields |
| ReplayContents.OtherMessagesReport | scripts/replay_live_recording.py:260-454 | every other message gives its one entry, its listed entries, or nothing |
| ReplayContents.ControlReports | scripts/replay_live_recording.py:186-256 | a control line gives its own event and, with gaps injected, a loss at an error and a recovery with its gap at a reconnect |
| ReplayContents.ShownIsDecimal | scripts/replay_live_recording.py:904-930 | the numbers in event ids are their decimal digits |
| ReplayContents.OpenErrorIff | scripts/replay_live_recording.py:186-256 | an error is open at a line if and only if some earlier line reports one and no error or connect lies between; it is then that line's |
| ReplayContents.FileGivesItsEvents | scripts/replay_live_recording.py:168-257 | read from its start, a readable file gives at every line that line's own events, given the error open there |
| ReplayContents.JoinedByColons | scripts/replay_live_recording.py:904-930 | the parts of an event id are joined with one colon between neighbours |
| ReplayContents.EventFileVerdict | scripts/replay_live_recording.py:168-257 | an event file is readable if and only if every line read names its address and has the file's kind, and otherwise fails with the first such line's error |
| ReplayContents.SnapshotFileVerdict | scripts/replay_live_recording.py:566-616 | the same for a snapshot file |
| ReplayContents.SnapshotFileReports | scripts/replay_live_recording.py:566-616 | a readable snapshot file gives exactly one event for each line read, seen at its time of receipt |
| ReplayContents.AddressContributes | scripts/replay_live_recording.py:143-165 | an address gives the events of its event file, and then those of its snapshot file if they are asked for |
| ReplayContents.RecordingVerdict | scripts/replay_live_recording.py:143-165 | a recording is readable if and only if each of its addresses is, and otherwise fails as its first unreadable address does |
| StableMerge.StableSortIsUnique | scripts/replay_live_recording.py:983-990 | two sorted sequences that keep, per key, the same rows in the same order are equal, so the stable sort is one well-defined sequence |
| StableMerge.StableSortSorts | scripts/replay_live_recording.py:983-990 | sorting a chunk gives a sorted sequence in which rows of equal key keep their arrival order |
| StableMerge.StableIsPermutation | scripts/replay_live_recording.py:983-990 | keeping the rows of every key in order loses and invents no row |
| StableMerge.WriteSortedChunks | scripts/replay_live_recording.py:963-980 | the buffered loop writes the sorted pieces of the input cut at the chunk size, the last one possibly shorter, and counts every row |
| StableMerge.PopLeast | scripts/replay_live_recording.py:1088-1104 | popping the heap takes out an entry no greater than any other in key, then chunk index |
| StableMerge.TakingNextIsStable | scripts/replay_live_recording.py:1088-1104 | taking the least head, ties to the earlier chunk, leaves for every key the remaining rows in their original order |
| StableMerge.MergeStep | scripts/replay_live_recording.py:1088-1104 | one pop keeps the output sorted, ahead of everything unread, and complete together with what is unread |
| StableMerge.MergeChunks | scripts/replay_live_recording.py:1088-1104 | the k-way merge of sorted chunks is the stable sort of their concatenation |
| StableMerge.MergedChunksAreSorted | scripts/replay_live_recording.py:963-1104 | for every positive chunk size, sorting the chunks and then the concatenation of chunks gives the stable sort of the whole input, so the result does not depend on the chunk size |
| ReplayEngine.ConsumeReplay | scripts/replay_live_recording.py:993-1085 | emits the rows after the checkpoint up to the limit, counts exactly the skipped ones, and writes exactly the due checkpoints in row order, followed by the cursor of the last emitted row |
| ReplayEngine.DueWritesMean | scripts/replay_live_recording.py:1050-1055 | the periodic checkpoints are the cursors of exactly the rows whose number is a multiple of the period, each once and in ascending order |
| ReplayEngine.CheckpointsWritten | scripts/replay_live_recording.py:1019-1085 | with a checkpoint path and some row emitted, there is one checkpoint for each multiple of the period and a last one for all emitted rows; each names the row it follows |
| ReplayEngine.ResumeEmitsTheRestIff | scripts/replay_live_recording.py:1019-1057 | resuming from the cursor of row n emits exactly the rows after it if and only if the next row has another sort key |
| ReplayEngine.ResumeIsLosslessIff | scripts/replay_live_recording.py:1019-1057 | every chain of runs, each stopped at any limit or surviving checkpoint and resumed, emits together the uninterrupted sequence, if and only if all sort keys differ |
| ReplayEngine.SortRecording | scripts/replay_live_recording.py:963-1104 | chunks, sorts and merges a recording into its stable sort, in replay order as told by event fields, and counts every event |
| ReplayEngine.ReplayRecording | scripts/replay_live_recording.py:86-140 | bad chunk size and negative limit are refused in this order; otherwise the emitted rows, in replay order as told by event fields, the skipped count and the checkpoints written are those of the sorted recording |
| ReplayEngine.SortedRecordingIsInOrder | scripts/replay_live_recording.py:963-1104 | in the merged recording no event stands after one that it precedes in time, kind of time, receipt, address, file, line or item |
| ReplayEngine.ResumeEmitsLaterEvents | scripts/replay_live_recording.py:1019-1057 | a run resumed after an event emits exactly the events that come after it in replay order |
| ReplayEngine.DiscoveredAddresses | scripts/replay_live_recording.py:1194-1218 | addresses are listed in text order: a filter's each once, a manifest's as often as it names them |
| ReplayEngine.RecordingReplaysLosslesslyIff | scripts/replay_live_recording.py:86-165 | all chains of interrupted replays of a recording are lossless if and only if no address with events is listed twice |
| ReplayEngine.FilteredReplayIsLossless | scripts/replay_live_recording.py:1194-1206 | with an address filter every chain of interrupted replays is lossless |
| ReplayEngine.RepeatedManifestAddressLosesAnEvent | scripts/replay_live_recording.py:1207-1218 | a manifest naming one address twice keeps both, and some interrupted replay of it does not emit every event |
| FillDedupe.NewThenAll | src/hyperliquid_copytrader/account_stream.py:680-712 | remembering the new identities and then refreshing the whole frame leaves the memory in frame order, as touching the frame once would |
| FillDedupe.FrameExtendsHistory | src/hyperliquid_copytrader/account_stream.py:706-712 | touching a frame and evicting the oldest turns the most recent identities of the history into those of the longer history, whatever was evicted before |
| FillDedupe.RecencyPosition | src/hyperliquid_copytrader/account_stream.py:706-712 | exactly the identities touched after one stand behind it in the recency order |
| FillDedupe.NewIff | src/hyperliquid_copytrader/account_stream.py:690-712 | an identity counts as new if and only if it never occurred or at least `capacity` distinct other identities were touched since |
| FillDedupe.DeliveredAtMostOnce | src/hyperliquid_copytrader/account_stream.py:680-712 | while at most `capacity` distinct identities occur, no fill is delivered twice over any sequence of frames |
| FillChain.ValidatedFillPositions | src/hyperliquid_copytrader/account_stream.py:791-827 | the copy-and-loop gives the chain's positions or its first error |
| FillChain.ChainMeaning | src/hyperliquid_copytrader/account_stream.py:791-827 | after a validated chain a market whose last fill is a buy stands at that fill's start plus its size, after a sell at start minus size; other markets are untouched, and the change is the sum of the buys less the sells not yet reflected |
| FillChain.FillMoves | src/hyperliquid_copytrader/account_stream.py:791-827 | a fill without start position is refused; one already reflected changes nothing; one that starts elsewhere is refused; any other raises the size by a buy or lowers it by a sell, and no other market, entry price or leverage changes |
| FillChain.ContinuousIsAccepted | src/hyperliquid_copytrader/account_stream.py:791-827 | fills that continue every market from its current size are accepted and all of them are applied |
| OpenOrders.ParseOrderRows | src/hyperliquid_copytrader/account_stream.py:867-884 | a snapshot is accepted exactly when its rows are well formed and no two share an id, and is kept in its order |
| OpenOrders.ApplyUpdates | src/hyperliquid_copytrader/account_stream.py:554-616 | the in-place edit gives the fold of single edits, or its first error with nothing changed, and the frame's latest status time |
| OpenOrders.EditMeaning | src/hyperliquid_copytrader/account_stream.py:575-607 | an accepted update removes exactly the orders sharing its oid or cloid and adds itself if it is open |
| OpenOrders.EditInWords | src/hyperliquid_copytrader/account_stream.py:554-616 | an update is refused exactly when it is foreign, has no positive time, no id, an unknown status, or names two held orders; else the orders with its oid or cloid go and an open one comes last |
| OpenOrders.UpdatesKeepIdsApart | src/hyperliquid_copytrader/account_stream.py:887-892 | after any accepted updates no two held orders share an oid or a cloid |
| OpenOrders.EditsCompose | src/hyperliquid_copytrader/account_stream.py:554-616 | editing by one frame and then another is editing by both in one, refusals included |
| OpenOrders.EditsAreFold | src/hyperliquid_copytrader/account_stream.py:554-616 | for streams that pair each oid with one cloid, the list edit is accepted and agrees with a map fold |
| OpenOrders.FoldIsLatest | src/hyperliquid_copytrader/account_stream.py:575-607 | the map holds an oid by its latest update, or as it was if it has none |
| OpenOrders.HeldIff | src/hyperliquid_copytrader/account_stream.py:531-616 | for one snapshot and the updates after it: an order is held if and only if it is its oid's latest update and open, or it was in the snapshot and was not updated |
| AccountStream.ReadRows | src/hyperliquid_copytrader/account_stream.py:640-679 | a frame is refused exactly when a row in scope is malformed; otherwise its in-scope rows become records in order |
| AccountStream.UniqueRecords | src/hyperliquid_copytrader/account_stream.py:680-687 | refused exactly when two records of one identity differ in contents, otherwise the first record of each identity |
| AccountStream.UniqueMeans | src/hyperliquid_copytrader/account_stream.py:680-687 | the identity table lists every identity of the frame once and nothing else |
| AccountStream.SplitNew | src/hyperliquid_copytrader/account_stream.py:690-699 | refused exactly when a remembered identity returns with other contents, otherwise the records not remembered |
| AccountStream.TouchMemory | src/hyperliquid_copytrader/account_stream.py:705-712 | the memory becomes the newest identities within capacity, with the fingerprints of exactly those |
| AccountStream.MemoryStaysOk | src/hyperliquid_copytrader/account_stream.py:705-712 | the memory keeps no repeats, stays within capacity and knows exactly the identities it lists |
| AccountStream.MovePositions | src/hyperliquid_copytrader/account_stream.py:701-727 | a snapshot moves nothing; live fills move positions, per-DEX clocks and times together, or the whole frame is refused |
| AccountStream.MergeDexes | src/hyperliquid_copytrader/account_stream.py:367-398 | per-DEX positions are merged exactly when DEX names are distinct, times are positive, markets do not overlap and the default DEX is present |
| AccountStream.MergedKeeps | src/hyperliquid_copytrader/account_stream.py:367-398 | merging loses no DEX's positions |
| StreamFacts.GateInWords | src/hyperliquid_copytrader/account_stream.py:271-315 | a frame counts only on the current connection at a positive time, and moves the activity time only forward |
| StreamFacts.AcceptDescribes | src/hyperliquid_copytrader/account_stream.py:346-365 | the update names role, epoch and new fills, and reports the baseline ready exactly when both accounts have every component of the account mode |
| StreamFacts.SpotInWords | src/hyperliquid_copytrader/account_stream.py:467-529 | a spot frame is accepted exactly with 0 <= hold <= total, a positive time and no step back; the collateral is then the frame's total and hold, with their difference available, and nothing else of the account changes |
| StreamFacts.OpenOrdersInWords | src/hyperliquid_copytrader/account_stream.py:531-552 | an order snapshot counts exactly for the follower and without a shared id; the list is then the frame's |
| StreamFacts.OrderUpdatesInWords | src/hyperliquid_copytrader/account_stream.py:554-616 | an update frame sets the list to the edited one and the component's time to the latest status time |
| StreamFacts.PositionsAcceptedIff | src/hyperliquid_copytrader/account_stream.py:367-465 | a position frame is accepted exactly when the account is known, the DEXes are distinct, timed and include the default one, none goes back or disagrees at its own time with what is held, and a standard source has usable equity on each DEX of its scope |
| StreamFacts.PositionsInWords | src/hyperliquid_copytrader/account_stream.py:376-465 | an accepted position frame leaves exactly the listed positions, each DEX's clock, the latest DEX time, and for a standard source exactly the reported equity of each DEX in scope as of the earliest of them |
| StreamFacts.RowsInWords | src/hyperliquid_copytrader/account_stream.py:640-679 | a row counts exactly when it is a perpetual fill of a listed market, or of any for a source that takes outside markets; it refuses the frame exactly when its market is unreadable or it counts and is malformed |
| StreamFacts.RecordsInWords | src/hyperliquid_copytrader/account_stream.py:640-679 | the records are those of the rows that count, in their order and with their fields |
| StreamFacts.SelfConflictIff | src/hyperliquid_copytrader/account_stream.py:680-687 | a frame contradicts itself exactly when two of its records of one account, hash and trade id differ in market, time, side, size, price, start or order id |
| StreamFacts.FillFrameInWords | src/hyperliquid_copytrader/account_stream.py:618-757 | a fill frame is accepted exactly when its account is known, it is a snapshot or follows one on its feed, no row refuses it, its records agree with each other and with memory, and a live one's new fills chain |
| StreamFacts.FillsInWords | src/hyperliquid_copytrader/account_stream.py:701-757 | what an accepted fill frame leaves: positions, clocks, the feed's times, and the fill list as the newest within capacity |
| StreamFacts.BeginInWords | src/hyperliquid_copytrader/account_stream.py:252-259 | a connection starts at the next epoch with both accounts empty, and forgets no fill |
| StreamFacts.NoteInWords | src/hyperliquid_copytrader/account_stream.py:261-263 | noted activity moves only the activity time, only forward, and only for the current connection at a positive time |
| StreamFacts.RescopeInWords | src/hyperliquid_copytrader/account_stream.py:207-233 | a standard source without markets is refused; its equity and the equity times are dropped exactly when some DEX enters or leaves the scope, and nothing else is |
| StreamReducer.Reducer.constructor | src/hyperliquid_copytrader/account_stream.py:169-205 | a new reducer has no connection, empty accounts and an empty memory |
| StreamReducer.Reducer.BeginConnection | src/hyperliquid_copytrader/account_stream.py:252-259 | a connection advances the epoch and empties both accounts but keeps the fill memory |
| StreamReducer.Reducer.NoteConnectionActivity | src/hyperliquid_copytrader/account_stream.py:261-263 | only the current connection can advance the activity time, and it never goes back |
| StreamReducer.Reducer.SetMarketScope | src/hyperliquid_copytrader/account_stream.py:207-233 | a standard source's equity is dropped exactly when the set of its DEXes changes |
| StreamReducer.Reducer.ApplyFills | src/hyperliquid_copytrader/account_stream.py:618-789 | a fill frame of either channel gives the specified next state and update, or is refused with no field changed |
| StreamReducer.Reducer.CommitRecords | src/hyperliquid_copytrader/account_stream.py:705-757 | the memory, the fill list, clocks and positions of a checked frame change together and the new fills are handed over only if the frame is live |
| StreamReducer.Reducer.ApplyPositions | src/hyperliquid_copytrader/account_stream.py:367-465 | a position frame replaces positions, clocks and equity as specified, or is refused with no field changed |
| StreamReducer.Reducer.ApplySpot | src/hyperliquid_copytrader/account_stream.py:467-529 | collateral is replaced unless it is malformed or goes back in time |
| StreamReducer.Reducer.ApplyOpenOrders | src/hyperliquid_copytrader/account_stream.py:531-552 | the follower's order list is replaced, or the frame is refused with no field changed |
| StreamReducer.Reducer.ApplyOrderUpdates | src/hyperliquid_copytrader/account_stream.py:554-616 | the follower's order list is edited by all updates or by none |
| StreamReducer.Reducer.Apply | src/hyperliquid_copytrader/account_stream.py:271-315 | a frame of another epoch or without a connection is refused; otherwise it follows its channel's step, and a refused frame leaves every field as it was |
| StreamRuns.MemoryIsMostRecent | src/hyperliquid_copytrader/account_stream.py:680-712 | over every run the memory is exactly the `capacity` most recently touched distinct identities of all accepted fill frames, across channels and reconnects |
| StreamRuns.FillsAreHandedOverOnce | src/hyperliquid_copytrader/account_stream.py:750-789 | in a run touching at most `capacity` distinct identities no fill is handed to the caller twice |
| StreamRuns.HandedOverAgainIff | src/hyperliquid_copytrader/account_stream.py:690-757 | a live fill is handed over if and only if it never occurred before or at least `capacity` other identities were touched since |
| StreamRuns.OtherFramesAreQuiet | src/hyperliquid_copytrader/account_stream.py:367-616 | frames that carry no fills hand nothing over, leave the memory alone and move no clock back |
| StreamRuns.LiveFillsMovePositions | src/hyperliquid_copytrader/account_stream.py:701-757 | after an accepted live frame each touched market stands at its last new fill's start plus the size of a buy or minus that of a sell; the others and the other account are unchanged, and the change is the buys less the sells not yet reflected |
| StreamRuns.GoodLiveFrameIsAccepted | src/hyperliquid_copytrader/account_stream.py:618-757 | after its feed's snapshot a live frame of distinct, unseen fills that continue the positions is never refused, and every fill is handed over and applied |
| StreamRuns.RunKeepsClocks | src/hyperliquid_copytrader/account_stream.py:399-419 | within one connection per-DEX clocks never go back, through every mix of frames and scope changes |
| StreamRuns.SnapshotsNeverPredateFills | src/hyperliquid_copytrader/account_stream.py:399-419 | within a connection no accepted position snapshot is older than a fill already applied on its DEX |
| StreamRuns.SnapshotSetsPositions | src/hyperliquid_copytrader/account_stream.py:376-465 | after a snapshot the account holds exactly the positions its DEXes list |
| StreamRuns.EquityAlwaysFitsScope | src/hyperliquid_copytrader/account_stream.py:207-233 | in every run equity that counts as received covers exactly the DEXes of the current scope, no value is negative and the total is positive |
| PositionRuns.ChainsCompose | src/hyperliquid_copytrader/account_stream.py:791-827 | moving by the fills of one frame and then of another is moving by both, refusals included |
| PositionRuns.PositionsFollowLog | src/hyperliquid_copytrader/account_stream.py:376-465 | in every run, among frames of all channels, refusals, scope changes and reconnects, an account's positions are the connection's latest accepted snapshot moved by exactly the live fills handed over since, which form one valid chain |
| PositionRuns.PositionSinceSnapshot | src/hyperliquid_copytrader/account_stream.py:376-757 | so each market stands at its last fill since the snapshot, start plus size for a buy and start minus size for a sell, or as the snapshot has it, having moved by the buys less the sells not already reflected |
| SnapshotOrder.SecondSnapshot | src/hyperliquid_copytrader/account_stream.py:729-741 | in every state, after both first frames of a connection the list is the first snapshot followed by those of the second that the memory, after eviction, does not hold, cut to the newest within capacity |
| SnapshotOrder.SnapshotOrderIff | src/hyperliquid_copytrader/account_stream.py:729-741 | for snapshots that fit the capacity together, however full the memory is, both orders list the same fills if and only if no identity of one snapshot only is still remembered after the other |
| SnapshotOrder.UnrelatedSnapshotsIff | src/hyperliquid_copytrader/account_stream.py:729-741 | for snapshots with nothing in common and nothing remembered, both orders list the same fills if and only if they fit the capacity together or one is empty |
| SnapshotOrder.AgreeingSnapshotsAccepted | src/hyperliquid_copytrader/account_stream.py:680-699 | well-formed snapshots that agree in contents with memory and with each other are accepted in either order |
| SnapshotOrder.SnapshotOrderCanMatter | src/hyperliquid_copytrader/account_stream.py:729-741 | a run from the start, with one fill on a first connection and a reconnect, after which the order of an empty and a one-fill snapshot changes the list |
| SnapshotOrder.OverfullSnapshotsDiffer | src/hyperliquid_copytrader/account_stream.py:729-741 | a run from the start in which, at capacity one, two one-fill snapshots of a first connection list different fills in the two orders |
| OrderRuns.HeldFollowsLog | src/hyperliquid_copytrader/account_stream.py:531-616 | in every run, among frames of all channels, refusals, scope changes and reconnects, the held list is the connection's latest accepted snapshot edited by exactly the updates accepted since |
| OrderRuns.HeldSinceSnapshotIff | src/hyperliquid_copytrader/account_stream.py:531-616 | in every run whose updates pair oids with cloids, an order is held if and only if it is the latest accepted update of its oid since the last snapshot and open, or it was in that snapshot and not updated since |
| ActionJournal.UpdateAdvances | src/hyperliquid_copytrader/action_journal.py:351-557 | an accepted update keeps the row well formed, never leaves a terminal state for a non-terminal one, never lowers the fill, and never changes identity, nonce, attempt or a set send time |
| ActionJournal.PreparedComesLast | src/hyperliquid_copytrader/action_journal.py:244-302 | a newly prepared action has a larger nonce than every earlier action of its lane and a later attempt than every one of its group |
| ActionJournal.StepKeepsOk | src/hyperliquid_copytrader/action_journal.py:209-557 | every public call, accepted or refused, keeps all rows well formed, nonces unique and attempts dense |
| ActionJournal.RunIsOk | src/hyperliquid_copytrader/action_journal.py:611-663 | over any run every row satisfies the state, cumulative and terminal-time rules, and earlier rows only advance |
| ActionJournal.NoncesIncrease | src/hyperliquid_copytrader/action_journal.py:133-169 | in every run, under any clock, a lane's reserved nonces strictly increase and every journaled nonce of the lane is one of them |
| ActionJournal.SentAtMostOnce | src/hyperliquid_copytrader/action_journal.py:351-393 | each action crosses the send boundary at most once, and did so exactly when its row has a send time |
| ActionJournal.SendCountGrows | src/hyperliquid_copytrader/action_journal.py:585-609 | for a fixed cutoff the counted sends never shrink, and grow by at most one and only through a send |
| ActionJournal.ResponseAndFillCommute | src/hyperliquid_copytrader/action_journal.py:465-557 | a fill-bearing response and a smaller or equal fill report end in the same state and cumulative in either order, a stale one being a no-op |
| ActionJournal.ResponseAcceptedIff | src/hyperliquid_copytrader/action_journal.py:684-741 | such a response is accepted if and only if its quantity is not below the known fill and fits its state |
| ActionJournal.LateFillWins | src/hyperliquid_copytrader/action_journal.py:522-557 | a fill after a rejection or cancel is accepted and ends in (partially) filled with the terminal time kept |
| ActionJournal.FillsEndAtLargest | src/hyperliquid_copytrader/action_journal.py:501-557 | fill reports in any order, with repeats and stale ones, end at the largest one that fits the order |
| ActionJournal.RecoveryIsNotTerminal | src/hyperliquid_copytrader/action_journal.py:32-49 | the recovery states are exactly the non-terminal ones |
| VenueReports.OrderMattersIff | src/hyperliquid_copytrader/action_journal.py:433-557 | for an unresolved action, every venue outcome and every reported or missing quantity: response then fill and fill then response end alike if and only if the two do not race, a condition on the row and the two reports |
| VenueReports.ReportsComeToLargest | src/hyperliquid_copytrader/action_journal.py:501-557 | any number of fill reports leaves the state and quantity that the largest fitting one alone would |
| VenueReports.ArrivalMattersIff | src/hyperliquid_copytrader/action_journal.py:433-557 | one response among any fill reports, repeated or stale: where it arrives makes no difference if and only if it does not race with the largest report that fits |
| JournalStore.Store.ReserveNonce | src/hyperliquid_copytrader/action_journal.py:133-169 | hands out the larger of the clock and one above the lane's last nonce, and no other lane's counter moves; a bad clock is refused without change |
| JournalStore.Store.LastNonce | src/hyperliquid_copytrader/action_journal.py:171-183 | in every run from an empty journal, the last nonce is what the lane's latest successful reservation handed out, and none if there was none |
| JournalStore.Store.NextAttemptNo | src/hyperliquid_copytrader/action_journal.py:185-207 | one more than the largest attempt of the group |
| JournalStore.AttemptsAreOneToN | src/hyperliquid_copytrader/action_journal.py:185-207 | the attempts of a group are exactly 1 to its largest |
| JournalStore.Store.PrepareAction | src/hyperliquid_copytrader/action_journal.py:209-302 | inserts exactly one prepared row with the request's fields and nothing filled, or refuses with no change, and says exactly when |
| JournalStore.MayPrepareIff | src/hyperliquid_copytrader/action_journal.py:209-302 | an action may be prepared exactly when its id is new, its nonce is the lane's latest and no action of the lane has it, its size and times are positive with a later expiry, and its attempt is one above the group's last |
| JournalStore.Store.MarkSendAttempted | src/hyperliquid_copytrader/action_journal.py:351-393 | accepted exactly from a prepared action at a positive time; the row then has the payload and the send time and is otherwise as it was |
| JournalStore.Store.MarkNotSent | src/hyperliquid_copytrader/action_journal.py:395-417 | accepted exactly from prepared, or again without effect; the row ends at the time given |
| JournalStore.Store.MarkUnknown | src/hyperliquid_copytrader/action_journal.py:419-431 | accepted exactly at a positive time from a sent, unknown or resting action; the row becomes unknown with its fill kept |
| JournalStore.Store.RecordOutcome | src/hyperliquid_copytrader/action_journal.py:433-499 | accepted exactly when the time is positive, the state may become the outcome (any from sent or unknown; all but a rejection from resting; a final state only again) and the total fits it; the row then has that state and total, the detail, and the first final time; all other rows stay |
| JournalStore.OutcomeAccepted | src/hyperliquid_copytrader/action_journal.py:684-741 | the same for the update alone, in states and numbers, for every sound row, outcome and reported or missing total |
| JournalStore.Store.RecordCumulativeFill | src/hyperliquid_copytrader/action_journal.py:501-557 | accepted exactly when the total neither shrinks nor exceeds the order and, if it grows, the action was sent; the row is then filled or partially filled as the total says, all others stay |
| JournalStore.FillAccepted | src/hyperliquid_copytrader/action_journal.py:501-557 | the same for the update alone, with every field of the resulting row |
| JournalStore.Store.RecoveryActions | src/hyperliquid_copytrader/action_journal.py:559-583 | every non-terminal action of the lane exactly once in creation order; over all lanes empty if and only if all are terminal |
| JournalStore.Store.RecentSendAttempts | src/hyperliquid_copytrader/action_journal.py:585-609 | the send times after the cutoff, one entry per sent action of the lane, in order |
| FollowerState.ObservationConservesExposure | src/hyperliquid_copytrader/account_state.py:304-359 | projected plus remaining quantity of every market is unchanged by a non-terminal observation, and drops by exactly the unfilled remainder of its own market by a terminal one |
| FollowerState.SplitReportsAgree | src/hyperliquid_copytrader/account_state.py:304-359 | reporting a total in two steps projects the same as at once, and repeating a report projects nothing |
| FollowerState.RunMirrors | src/hyperliquid_copytrader/account_state.py:202-372 | throughout a run each action in flight mirrors its registration and its last accepted total |
| FollowerState.ProjectedIsInitialPlusFills | src/hyperliquid_copytrader/account_state.py:202-372 | over any run with fresh client ids, from any state, projected size is the initial one plus the signed quantity each action filled since |
| FollowerState.StepAdvancesByOne | src/hyperliquid_copytrader/account_state.py:202-372 | each accepted call raises the revision by exactly one, a refused one changes nothing |
| FollowerState.CallInWords | src/hyperliquid_copytrader/account_state.py:202-372 | for each call, exactly when it is accepted and which fields of which action and market it sets, leverage observations included |
| StateBook.AccountStateBook.PublishSource | src/hyperliquid_copytrader/account_state.py:439-445 | replaces one slot's source if it is the first or its number is exactly the next, otherwise changes nothing |
| StateBook.AccountStateBook.PublishFollower | src/hyperliquid_copytrader/account_state.py:447-453 | replaces one follower if it is the first or its number is exactly the next, otherwise changes nothing |
| StateBook.AccountStateBook.PublishBook | src/hyperliquid_copytrader/account_state.py:455-460 | replaces one market's book if it is the first or its number is exactly the next, otherwise changes nothing |
| StateBook.AccountStateBook.TakeFence | src/hyperliquid_copytrader/account_state.py:478-490 | a fence of the three current revisions, or none when one is missing |
| StateBook.RevisionsCountPublishes | src/hyperliquid_copytrader/account_state.py:439-464 | without retirement the three numbers move by exactly the accepted publishes of their keys |
| StateBook.FenceMatchesIff | src/hyperliquid_copytrader/account_state.py:408-427 | while the book is not retired, a fence still matches if and only if none of its three keys was published since |
| StateBook.FenceMatchesCatalogIff | src/hyperliquid_copytrader/account_state.py:408-427 | the same against any catalog: the fence matches if and only if none of its keys was published since and the catalog is the one it was taken under |
| StateBook.AgreesIff | src/hyperliquid_copytrader/account_state.py:408-427 | in every run, retirements included, a fence matches if and only if neither account was published since and the book's number is the captured one |
| StateBook.StaleMatchNeedsReissue | src/hyperliquid_copytrader/account_state.py:455-464 | in every run a stale fence matches only after the book came back from a retirement at or below the captured number |
| StateBook.FenceIsSafeIff | src/hyperliquid_copytrader/account_state.py:408-464 | after any run, no further run without retirement makes a stale fence match if and only if an account moved, or the book is published above the captured number, or nothing was published at all |
| StateBook.RetiredBookCanMatchAgain | src/hyperliquid_copytrader/account_state.py:462-464 | after a retirement a republished book can make a stale fence match |
| Compaction.GroupFills | src/hyperliquid_copytrader/address_analysis.py:432-476 | one pass collects, per group of kept fills, exactly that group's totals, in first-seen order; fills with no positive time or no coin are passed over |
| Compaction.CompactFills | src/hyperliquid_copytrader/address_analysis.py:432-496 | two fills with a positive time and a coin are in one trade if and only if they agree in time, coin, order id, hash, direction and side; each trade has its fills' fields and totals, and trades stand by time, then order id, then coin |
| Compaction.CompactedTrades | src/hyperliquid_copytrader/address_analysis.py:432-496 | the same of any compacted and sorted trades, in the fields of fills and trades |
| Compaction.SortTradesSorts | src/hyperliquid_copytrader/address_analysis.py:496 | ordering the trades loses none and keeps their totals |
| Compaction.AveragePrice | src/hyperliquid_copytrader/address_analysis.py:472-495 | average price times size is the notional |
| DayWalk.DaysPartitionTheWindow | src/hyperliquid_copytrader/address_analysis.py:952-964 | every time of the window, both ends included, lies in exactly one day, and no other time in any |
| DayWalk.DaysInHours | src/hyperliquid_copytrader/address_analysis.py:952-964 | day i starts i times 24 hours after the window and lasts 24 hours; the last one ends with the window |
| DayWalk.DaysAddUp | src/hyperliquid_copytrader/address_analysis.py:699-742 | day counts sum to the trades of the window and day profits to the window's profit |
| DayWalk.TakeDay | src/hyperliquid_copytrader/address_analysis.py:699-742 | advancing one index through the sorted trades collects exactly the trades of the day |
| DayWalk.DailyTradePoints | src/hyperliquid_copytrader/address_analysis.py:699-742 | each day's point has exactly that day's trades, their volume and profit, and the running profit; the last one is the profit of all trades of the window |
| DayWalk.AdvanceTo | src/hyperliquid_copytrader/address_analysis.py:858-949 | the history pointer passes exactly the values up to a time, and reports whether it saw any |
| DayWalk.DailyAccountValuePoints | src/hyperliquid_copytrader/address_analysis.py:858-949 | the pointer walk gives, day by day, the attribution defined by the last known value at the end of each day |
| DayWalk.LatestValue | src/hyperliquid_copytrader/address_analysis.py:858-949 | the value known at a time is that of the last observation not after it |
| DayWalk.RowInWords | src/hyperliquid_copytrader/address_analysis.py:858-949 | a day has a row once a value is known; its deltas are those since the last observed day, and zero unless the day has its own observation and there was one before |
| DayWalk.DeltasTelescope | src/hyperliquid_copytrader/address_analysis.py:858-949 | account deltas sum to last value minus anchor, trade deltas to the matching profit difference, residuals to the difference of the two |
| DayWalk.CarriedDaysAreZero | src/hyperliquid_copytrader/address_analysis.py:858-949 | carried-forward days contribute zero |
| DayWalk.CarryIsLastValue | src/hyperliquid_copytrader/address_analysis.py:858-949 | what is carried is the account value known at the end of the walked days |
| TradeChart.CompactsConserves | src/hyperliquid_copytrader/address_analysis.py:432-496 | trades that compact some fills add up to exactly the kept fills in size, notional, closed PnL, fees and count |
| TradeChart.SpanConserves | src/hyperliquid_copytrader/address_analysis.py:699-742 | the trades of any window or day carry exactly the totals, including the fill count, of the kept fills of that window or day |
| TradeChart.DayCovers | src/hyperliquid_copytrader/address_analysis.py:699-742 | a day covers the times after its start up to its end; the first also its start |
| TradeChart.TradesOfDay | src/hyperliquid_copytrader/address_analysis.py:699-742 | the trades of a day are those of the list whose time it covers |
| TradeChart.TradePnlChart | src/hyperliquid_copytrader/address_analysis.py:432-742 | compaction followed by the daily walk: every point's profit, volume and order count are those of its day's kept fills and trades, one trade per order as told by fill fields; its running profit is that of all kept fills so far, and the last one is closed PnL minus fees of the kept fills of the window |
| AccountChart.CarryIsLastDay | src/hyperliquid_copytrader/address_analysis.py:858-949 | what the walk carries is the account value and the chart profit at the end of the last observed day |
| AccountChart.Charts | src/hyperliquid_copytrader/address_analysis.py:663-696 | both charts of one window: the trade points state their fills, and the account rows attribute the change from the anchor to the value known at the end with the closed PnL minus fees of exactly the kept fills in between; residuals sum to the difference |
| PnlChart.CumulativeTradePointsExact | src/hyperliquid_copytrader/address_analysis.py:1025-1040 | one point per trade with the profit of all trades up to it |
| PnlChart.CumulativeTradePoints | src/hyperliquid_copytrader/address_analysis.py:989-1022 | without need for a limit it is the exact chart; with one, trades are charted in buckets of the least size that gives at most `limit` points, each the exact chart's time and profit at its bucket's last trade, and bucket nets sum to the total |
| PnlChart.BucketSizeIsLeast | src/hyperliquid_copytrader/address_analysis.py:1001-1010 | the bucket size is the least that lets all trades fit in `limit` buckets |
| ShadowSizing.DustBucket.Add | scripts/compare_shadow_policies.py:65-76 | the bucket's new state and the amount it releases |
| ShadowSizing.AddKeepsDust | scripts/compare_shadow_policies.py:65-76 | pending stays in [0, min), what was collected is pending plus executed, and a release lies in [min, 2 min) |
| ShadowSizing.TargetInNumbers | scripts/compare_shadow_policies.py:335-365 | a row is sized to the notional that keeps target : equity used = source notional : source account value, where the equity used is the current one or, for fixed risk, at most the budget; each refusal is named with the input that causes it |
| ShadowSizing.EvaluatedInNumbers | scripts/compare_shadow_policies.py:311-420 | for every copyable row: its decision, the amount sent, the realized profit in the same proportion when something was sent, and the one dust bucket it may change |
| ShadowSizing.ContextInWords | scripts/compare_shadow_policies.py:429-535 | what each kind of row does to confidence, account value and pending recovery |
| ShadowSizing.SentAmounts | scripts/compare_shadow_policies.py:335-386 | a row sends nothing or at least the minimum, and below twice the minimum when it came through dust |
| ShadowSizing.RowConservesNotional | scripts/compare_shadow_policies.py:311-420 | a row's sized notional is what was sent plus the growth of pending dust |
| ShadowSizing.SizedIsSentPlusPending | scripts/compare_shadow_policies.py:311-420 | over any rows the sum of sized targets is the notional sent plus all pending dust, and equity is initial plus realized |
| ShadowSizing.RecoveryBlocksForGood | scripts/compare_shadow_policies.py:454-535 | with the analysis flag off, once recovery is pending it stays so and nothing is sent whatever follows |
| ShadowSizing.AfterRecoveryNothingMoves | scripts/compare_shadow_policies.py:511-535 | with the flag off sent notional, equity and pending dust stay as they were before a recovery row |
| ShadowSizing.PolicyState.Evaluate | scripts/compare_shadow_policies.py:311-420 | the in-place evaluation of a row follows the policy step and has the row's effect in numbers |
| ShadowSizing.Comparator.ObserveAll | scripts/compare_shadow_policies.py:236-309 | observing rows one by one brings context and every policy to the specified states |
| RecoveryWindows.RunKeepsWindows | scripts/track_replay_state.py:733-852 | windows are numbered 1 to n; n is degraded events plus implicit starts; reconnects are reconnected windows plus overwritten ones; window refresh counts sum to at most the refreshes after reconnect |
| RecoveryWindows.ReconnectsCountedIff | scripts/track_replay_state.py:811-833 | reconnected windows number exactly the reconnect events if and only if no reconnect landed on a window reconnected at time zero |
| RecoveryWindows.ReconnectsCountedByRowsIff | scripts/track_replay_state.py:733-833 | the same counts agree if and only if, in the rows, no reconnect at time zero is followed by another reconnect with no degraded row in between |
| RecoveryWindows.PositiveTimesOverwriteNothing | scripts/track_replay_state.py:811-833 | with positive reconnect times the counts are equal |
| RecoveryWindows.ZeroTimeOverwrites | scripts/track_replay_state.py:811-814 | rows exist, with reconnects at time zero, for which the counts differ |
| RecoveryWindows.OnlyTheLastChanges | scripts/track_replay_state.py:782-852 | a row adds one window or changes the last one, never an earlier one |
| RecoveryWindows.NextInWords | scripts/track_replay_state.py:733-852 | for each row: whether a window starts, which of the last one's fields change, and which counters move |
| RecoveryWindows.RefreshesCountedExactly | scripts/track_replay_state.py:835-852 | over any rows the windows' refresh counts sum to exactly the refreshes seen while the last window was reconnected |
| RecoveryWindows.Tracker.ObserveRecovery | scripts/track_replay_state.py:733-780 | a recovery row starts, reconnects or leaves windows, counts itself and stops the hints |
| RecoveryWindows.Tracker.RecordFollowup | scripts/track_replay_state.py:835-852 | later rows are counted in the current window only once it is reconnected |
| RecoveryWindows.Tracker.Observe | scripts/track_replay_state.py:237-311 | updating the records in place follows the step on their values; no record is shared, replaced or removed |

## Left out

- Decimal rounding and context precision: `Decimal` is an exact real.
- Files, SQLite, sockets and locks: files are sequences of parsed lines, tables are maps, a transaction that raises leaves both maps unchanged, and concurrent callers are not modelled.
- JSON shape checks, text cleaning, address and cloid patterns and hashing: parsed values, with the failed parse as its own case.
- `heapq`'s array layout: the heap is a set from which the least (key, chunk index) is taken; chunk indices are distinct, so rows are never compared.
- Lazy reading: the merge and the event readers produce whole sequences; an error in a later file therefore appears before, not after, the first event is emitted.
- `list.sort` and `sorted`: a stable insertion sort stands for Python's sort.
- Counters, samples, the recovery decision and the file output of `consume_replay`; the directory scan of `discover_addresses`.
- The reducer's account records are values held in fields of the class, so aliasing between a snapshot and the live record is not captured.
- `AccountSnapshot`, freshness helpers and subscription lists of the account stream; the search for token 0 in a spot frame.
- Journal look-ups by owner (`get_action`, `get_owned_action`, `owns_cloid`) and clock defaults: times are parameters.
- `with_committed_fill`, which does not reduce the remaining quantity, and registering a client id that is already in the run.
- FollowerState.ProjectedIsInitialPlusFills: needs fresh client ids, because registering a live id again discards its fill total.
- StateBook.FenceMatchesIff: assumes that the market's book is not retired in between; `AgreesIff` and `FenceIsSafeIff` cover the other runs.
- OpenOrders.HeldIff: assumes each oid keeps one cloid in the stream, as does OrderRuns.HeldSinceSnapshotIff; `EditMeaning`, `UpdatesKeepIdsApart` and `HeldFollowsLog` need no such pairing.
- SnapshotOrder.SnapshotOrderIff: assumes that both snapshots fit the capacity together; for larger ones with common or remembered fills the two lists are given by `SecondSnapshot` without a shorter condition.
- Follower freshness, ledger and account-value fields; source revisions carry only what the fence reads.
- Labels, moves, loss and asset drivers, asset statistics, drawdown and portfolio windows of the address analysis.
- Action counts, facts, confidence and reports of the policy comparison; order and TWAP maps, snapshots and facts of the state tracker.
