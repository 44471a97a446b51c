# Verified model of the duplicate merges, the play queue, the relay, the connector and the EPUB reader

This project models five parts of the system and proves what each of them promises.

* **Merging duplicates** (`src/database.js`). The music migration folds tracks and then albums
  whose normalised paths collide, re-points everything that refers to a loser, deletes the loser
  and finally collects orphan artists; the reading migration does the same for books and their
  bookmarks. Tables are maps keyed by their primary keys. `MusicStore` and `ReadingStore` are
  classes whose methods run the statements in the source's loops, each proved equal to a function
  of the table contents (`MusicTracks`, `MusicAlbumMerge`, `MusicMigration`, `ReadingLibrary`,
  `ReadingMerge`). `MusicKeeping` says what "no user data is lost" means as one relation that
  composes over steps; the theorems are in `MusicGuarantees`, `MusicUserData`, `MusicRerun` and
  `ReadingGuarantees`. Which duplicate stays, with which rows, artists, dates and bookmarks, is
  stated on the tables alone in `MusicSurvivors`, `MusicRows`, `MusicArtistPositions` and
  `ReadingOutcome`.
* **The play queue** (`public/js/music-player-state.js`). `PlayerState` is the object with its
  variables, `PlayQueue` its operations as functions, `PlayList` the plain list with a cursor that
  it refines, `PlayRuns` what holds over whole runs, `FisherYates` the shuffle, `PlayShuffle` which
  orders entering shuffle can give.
* **The relay** (`host-connector/src/relay_transport.rs`, `access_grant.rs`). `RelayFrames` is the
  binary codec, `RelayStreams` the multiplexer as a state machine over the steps of the reading
  loop and of every stream task, `RelayGuarantees` its invariants, `RelayHalfClose` when a stream is
  open; `Base64Url`, `AccessGrant` and `SignedMessages` are the grant and the texts that are signed.
* **The front door** (`host-connector/src/main.rs`). `HttpHead` reads a request head from a
  connection cut into arbitrary pieces (`Bytes.ByteSource`), `HttpHeaders` parses its lines,
  `ConnectionLimiter` counts connections.
* **EPUB positions** (`public/js/reading-library.js`, `reading-reader-utils.js`). `EpubPosition`
  turns pages and `EpubLocator` writes and reads bookmarks, over exact reals.

A method that changes state is proved against a function of the old state; the properties are then
lemmas about that function, for every input and every run.

Code outside these files enters as parameters with no more assumed than stated: the path
normalisers, the case folding and `Date.parse` (`MusicMigration.Rules`), the UTF-8 decoder
(`HttpHead.Utf8`), hashing and signatures (`AccessGrant.Crypto`, of which only "verify accepts what
sign produced" and the output sizes are assumed), the UUID parser, the random source and the clock.

Six properties hold only under a condition, and the exact condition is proved:

* The music migration commits if and only if every path can be normalised and no group's new path
  is stored by a row that is still to be handled, all of it read off the tables before the
  migration (`MusicRerun.MigrationSucceedsIff`); otherwise it rolls back, as it does when a track is
  about to get the path that another one still stores (`MusicRerun.StoredPathBlocksTheMigration`).
* The reading merge keeps the latest bookmark if and only if the survivor's own bookmark is not
  older by parsed time while comparing greater or equal as text (`ReadingMerge.KeptIsLatestIff`).
  The code picks by parsed time and overwrites by text comparison. The server writes ISO time
  stamps; a row stored with the default of its column carries the other format, and the two compare
  differently as text and as times (`ReadingMerge.ColumnDefaultContradictsIso`).
* The unique index on reading paths that is built afterwards can be built if and only if at most
  one item has an empty path (`ReadingGuarantees.UniqueIndexCanBeBuiltIff`).
* Entering shuffle can give every order of the other tracks if and only if there are at most 10^9 of
  them, the limit that the clamp of the drawn number sets (`PlayShuffle.EveryOrderCanBeDrawnIff`).
* Six decimals bring every page of a section back if and only if it has at most 1,000,001 pages
  (`EpubLocator.EveryPageReturnsIff`).
* A resize notes the progression at once and loads it 180 ms later. The reader stays on the page if
  and only if that page is the one nearest to the noted progression
  (`EpubPosition.ResizeKeepsThePlaceIff`); a page turned in between is undone
  (`EpubPosition.ResizeUndoesAPageTurn`).

## Model

| member | source | states |
|---|---|---|
| MusicTracks.EveryStatementIsAccepted | src/database.js:789-803 | from tables that satisfy all constraints, each of the statements run for one losing track is accepted (the playlist UPDATE meets no key or position clash) and leaves primary keys, `UNIQUE` positions and foreign keys true |
| MusicTracks.UpsertKeepsConstraints | src/database.js:792-796 | every single history upsert leaves the constraints true |
| MusicTracks.StatementsAddUp | src/database.js:716-758 | the statements for one loser together are one renaming of loser to survivor; the cascades of the final DELETE reach nothing that was not taken over |
| MusicKeeping.KeepsTransitive | src/database.js:789-803 | "no user data is lost" composes: what two successive merges each keep, both together keep |
| MusicTrackTheorems.MergeLosersKeeps | src/database.js:789-803 | folding any list of losers keeps the constraints and all user data and removes exactly the losers |
| MusicTrackTheorems.MergeGroupsKeeps | src/database.js:782-805 | the whole track half keeps the constraints and all user data |
| MusicTrackTheorems.WinnersStay | src/database.js:782-805 | a track remains exactly if it loses in no group, and the best track of a group then carries its normalised path |
| MusicTrackTheorems.MergeSucceedsIff | src/database.js:782-805 | the path updates of all groups succeed if and only if no new path is stored by a track outside the groups handled so far |
| PathClash.AcceptedIffFree | src/database.js:804-804 | checking each group against the rows as they are at that moment is the same as one condition on the rows before the loop |
| Ranking.SortedIsUnique | src/database.js:783-785 | the comparator chain orders every group in exactly one way |
| Ranking.SurvivorIsTheBest | src/database.js:783-786 | the survivor outranks every other row of its group, whatever order the rows came in |
| Grouping.GroupByPartitions | src/database.js:700-714 | collecting rows in a Map of arrays partitions them by folded path |
| MusicAlbumMerge.EveryAlbumStatementIsAccepted | src/database.js:815-823 | appending artists, moving tracks and deleting the album are accepted at every point; the `RESTRICT` on `album_id` never blocks the delete |
| MusicAlbumMerge.CleanupKeepsConstraints | src/database.js:827-832 | clearing the covers and collecting artists keep all constraints |
| MusicAlbums.AddArtistsAppends | src/database.js:816-820 | the artist loop appends, in order, the artists that the survivor does not list yet |
| MusicAlbumTheorems.MergeGroupArtists | src/database.js:807-825 | the survivor lists its own artists followed by the losers' in group order, each at its first occurrence; other albums keep their lists |
| MusicAlbumTheorems.EveryGroupOutcome | src/database.js:807-825 | every group ends as its own merge from the original rows leaves it, whatever the other groups did |
| MusicAlbumTheorems.MergeSucceedsIff | src/database.js:807-825 | the album path updates succeed if and only if no new path is stored by an album outside the groups handled so far |
| MusicGuarantees.MigrationKeeps | src/database.js:688-838 | the committed migration satisfies all constraints and keeps all user data |
| MusicGuarantees.FinalTrack | src/database.js:804-804 | both path columns of a remaining track hold its normalised path |
| MusicGuarantees.FinalAlbum | src/database.js:824-824 | both path columns of a remaining album hold its normalised path, and its cover is cleared |
| MusicGuarantees.FoldedPathsAreDistinct | src/database.js:782-825 | afterwards no two tracks and no two albums share a folded path |
| MusicGuarantees.UniqueIndexesCanBeBuilt | src/database.js:911-918 | the `NOCASE` unique indexes built afterwards cannot fail when the folding is coarser than `NOCASE` |
| MusicUserData.FavoritesSurvive | src/database.js:716-719 | per profile the set of favourited folded paths is unchanged |
| MusicUserData.PlaylistsSurvive | src/database.js:747-753 | per playlist the set of folded paths is unchanged, with one row per path, each at a position that the same path had before |
| MusicUserData.SessionsSurvive | src/database.js:754-754 | every playback session survives and plays a remaining track with the same folded path |
| MusicUserData.AvailabilitySurvives | src/database.js:782-805 | a path available in any duplicate stays available |
| MusicUserData.HistoryIsSummarised | src/database.js:727-745 | exactly one history row per (folded path, profile): both counts, `updated_at` and `last_played_at` are the maxima, position and duration come from a row with the greatest `updated_at` |
| MusicUserData.SummaryIsDetermined | src/database.js:727-745 | such a summary is determined by the old rows, up to ties on `updated_at` and an empty beside a null `last_played_at` |
| MusicUserData.LoserOrderIsIrrelevant | src/database.js:789-797 | folding the losers in another order gives the same history, up to those ties |
| MusicRerun.MigrationSucceedsIff | src/database.js:780-838 | the migration commits exactly under a condition on the tables before it: normalisable paths, and new paths not stored by rows still to be handled |
| MusicRerun.StayingTracksRemain | src/database.js:782-809 | the tracks by whose number album survivors are chosen are those that lose in no group, known beforehand |
| MusicRerun.StoredPathBlocksTheMigration | src/database.js:804-804 | tables that satisfy all constraints and whose migration rolls back |
| MusicRerun.AlbumsAreMerged | src/database.js:807-825 | of every album group one album remains, with the artist list of first occurrences and every remaining track of the group; which one is read off the tables before the migration |
| MusicRerun.ArtistsAreCollected | src/database.js:827-832 | an artist remains exactly when some album or track refers to it |
| MusicRerun.SecondRunChangesNothing | src/database.js:688-838 | a second run commits and changes nothing when the normalisers are idempotent |
| MusicSurvivors.TheNewestTrackStays | src/database.js:782-805 | of the tracks whose normalised paths fold alike exactly one remains; it is available if any is, of those the one with the latest parsed `updated_at`, of those the one with the largest id; it takes its own normalised path and keeps its other columns |
| MusicSurvivors.PreferredRowsAreKept | src/database.js:789-803 | a favourite, or a place in a playlist, is kept from the first duplicate, in that order, that has one |
| MusicSurvivors.LatestHistoryIsKept | src/database.js:727-745 | position and duration come from the history row with the greatest `updated_at`, `last_played_at` from the greatest one; of equal ones the last duplicate in that order decides |
| MusicSurvivors.TheFullestAlbumStays | src/database.js:807-825 | of the albums whose normalised paths fold alike the one with the most remaining tracks stays, then the latest, then the largest id; under its own normalised path, without a cover, with all remaining tracks of the duplicates, and with their artists at their first occurrences, its own at their positions and the others behind them without a gap |
| MusicSurvivors.FirstOccurrencesAre | src/database.js:816-820 | first occurrences: every element once, in the order of the first places |
| MusicRows.EveryGroupJoins | src/database.js:782-803 | the best track of every group ends with the group's rows joined as they were before the migration, whatever the other groups did |
| MusicArtistPositions.EveryGroupFollows | src/database.js:816-820 | the survivor's own artists stay at their positions and each one taken over stands right behind the one before it |
| MusicStore.MusicStore.MoveHistory | src/database.js:791-797 | the inner loop of upserts leaves exactly the folded history rows |
| MusicStore.MusicStore.MergeLoser | src/database.js:790-802 | the statements in the source's order turn the tables into the merged ones |
| MusicStore.MusicStore.MergeTrackGroup | src/database.js:782-805 | sorting, the loop over losers and the path update make the merged group, or report the refused update |
| MusicStore.MusicStore.SelectArtists | src/database.js:760-763 | returns the artists of an album by position |
| MusicStore.MusicStore.AppendArtists | src/database.js:816-820 | the loop over relations, skipping known artists, appends the others |
| MusicStore.MusicStore.MergeAlbumGroup | src/database.js:807-825 | sorting, the loop over losers and the path update make the merged album group, or report the refused update |
| MusicStore.MusicStore.MigratePaths | src/database.js:688-838 | commits the migrated tables (which rows those are: `MusicSurvivors`), or rolls back and leaves every table as it was |
| ReadingMerge.PickIsLatest | src/database.js:650-658 | the picked bookmark of a profile is one of the group's and none is later by parsed time |
| ReadingMerge.OwnBookmarkWinsTies | src/database.js:650-658 | among equally late bookmarks the survivor's own is picked |
| ReadingMerge.KeptIsLatestIff | src/database.js:614-621 | the kept bookmark is the latest if and only if the text comparison of the upsert does not overrule the parsed times; otherwise it is the survivor's own |
| ReadingMerge.AgreeingOrdersKeepTheLatest | src/database.js:614-621 | it is the latest whenever text order and parsed order agree on the group's time stamps |
| ReadingMerge.ContradictingOrdersKeepTheOlder | src/database.js:614-621 | for every pair of time stamps on which the orders contradict each other there are tables whose newer bookmark is lost |
| ReadingMerge.ColumnDefaultContradictsIso | src/database.js:183-190 | an ISO time and a later one in the format of the column default, on the same day, are such a pair |
| ReadingLibrary.EarliestIsMinimum | src/database.js:668-671 | the smallest non-empty text of a list, or the fallback |
| ReadingLibrary.LatestIsMaximum | src/database.js:672-676 | the greatest non-empty text of a list, or the fallback |
| ReadingGuarantees.EveryGroupIsMerged | src/database.js:628-678 | every listed group ends as its own merge from the original rows leaves it, whatever the other groups did (dates and bookmarks in explicit terms: `ReadingOutcome`) |
| ReadingGuarantees.DuplicatesAreMerged | src/database.js:638-678 | every duplicated item's group is merged into the item that outranks all others |
| ReadingGuarantees.UniqueItemsAreUntouched | src/database.js:594-601 | items with an unshared or empty path keep row and bookmarks |
| ReadingGuarantees.OneItemPerPath | src/database.js:628-678 | one item per case-folded non-empty path remains |
| ReadingGuarantees.UniqueIndexCanBeBuiltIff | src/database.js:903-904 | the unique index on the path, up to case, can be built exactly when at most one item has an empty path |
| ReadingGuarantees.LinksAreKept | src/database.js:660-666 | no bookmark is left without its item |
| ReadingGuarantees.SecondRunChangesNothing | src/database.js:590-684 | a second run finds no group and changes nothing |
| ReadingOutcome.TheFirstCopyStays | src/database.js:638-649 | of a book with several copies exactly one stays: an available one before a missing one, then the one with the later bookmark, the later update, the later scan, the larger id |
| ReadingOutcome.TheDatesSpanAllCopies | src/database.js:668-677 | the copy that stays has the least non-empty `added_at` and the greatest non-empty `updated_at` of all copies, its own where all are empty, and keeps every other column |
| ReadingOutcome.TheBookmarkThatIsKept | src/database.js:650-666 | a reader has a bookmark afterwards exactly when some copy had one: the latest by parsed time, of several the one on the first copy, unless the copy that stays had its own and the time of the latest is not the greater text |
| ReadingOutcome.PickIsTheFirstLatest | src/database.js:650-658 | the picked bookmark is the first of the latest ones in the sorted order |
| ReadingOutcome.NoCaseIff | src/database.js:594-608 | `NOCASE` identifies exactly the texts that differ at most in the case of the 26 letters |
| Text.LeIff | src/database.js:614-621 | the text order of the upsert: a text is not greater than another one when it begins it or has the smaller character where the two first differ |
| ReadingStore.ReadingStore.SelectDuplicatedPaths | src/database.js:594-600 | lists each shared non-empty path once, up to case, and no other |
| ReadingStore.ReadingStore.SortGroup | src/database.js:631-646 | sorts the items of a path by availability, newest bookmark, dates and id |
| ReadingStore.ReadingStore.PickBookmarks | src/database.js:650-658 | the nested loop picks for every profile the first of its latest bookmarks |
| ReadingStore.ReadingStore.UpsertBookmarks | src/database.js:660-662 | the upserts leave the kept bookmarks on the survivor |
| ReadingStore.ReadingStore.Deduplicate | src/database.js:628-679 | the whole run equals merging the duplicated paths, for whatever order the query lists them in; what that leaves is stated in `ReadingOutcome` |
| FisherYates.ShuffledPermutes | public/js/music-player-state.js:41-50 | any choice of swap targets gives a permutation |
| FisherYates.ShuffledIsInjective | public/js/music-player-state.js:41-50 | different choices give different permutations |
| FisherYates.ShuffledIsSurjective | public/js/music-player-state.js:41-50 | every permutation is given by some choice |
| FisherYates.EveryTargetCanBeDrawn | public/js/music-player-state.js:44-46 | every index from 0 to `index` can be drawn if and only if there are at most 10^9 of them, the limit that the clamp sets |
| FisherYates.TargetIs | public/js/music-player-state.js:44-46 | each index is drawn by its own share of the unit interval; no number, or one below 0, draws the first, one above the clamp draws as the clamp does |
| FisherYates.Shuffle | public/js/music-player-state.js:41-50 | the in-place swap loop computes that permutation from the source's numbers, finite or not |
| PlayShuffle.EveryOrderCanBeDrawnIff | public/js/music-player-state.js:72-98 | entering shuffle can give every order of the other tracks behind the current one, over all random sources, if and only if there are at most 10^9 of them |
| PlayShuffle.NewQueueIsShuffledIff | public/js/music-player-state.js:105-127 | the same for a new queue in shuffle mode, behind the requested track or the first one |
| PlayShuffle.LastIsTheDrawnOne | public/js/music-player-state.js:41-50 | the track played last is the one whose share of the unit interval the first draw hit |
| PlayQueue.FreshAccepts | public/js/music-player-state.js:105-114 | a value is accepted exactly if it is valid and its id is neither among the known ones nor that of an earlier value; the accepted ones keep their order |
| PlayList.AppendRefines | public/js/music-player-state.js:141-161 | append adds the new tracks at the end of both orders and keeps the cursor |
| PlayList.RemoveRefines | public/js/music-player-state.js:184-209 | remove takes one element out of the list seen through the order and moves the cursor as a list with a cursor does |
| PlayList.SelectRefines | public/js/music-player-state.js:129-139 | select moves the cursor and nothing else |
| PlayList.MoveRefines | public/js/music-player-state.js:163-182 | move takes one element to another place of the seen list, the current track stays current, the mode becomes normal |
| PlayList.MoveTakesOneOut | public/js/music-player-state.js:170-172 | the two splices put one element at the target and leave the others in their order |
| PlayList.ModeRefines | public/js/music-player-state.js:72-98 | a mode change keeps tracks and current track; shuffle puts the current track first and asks the source once per swap; other modes show the order of entry (which orders shuffle can give: `PlayShuffle`) |
| PlayList.SetQueueRefines | public/js/music-player-state.js:105-127 | the new queue holds the valid tracks with distinct ids and starts at the requested one, or the first; in shuffle mode that one comes first, in the others the order of entry is shown |
| PlayRuns.Run | public/js/music-player-state.js:52-248 | every operation keeps the state valid, over whole runs |
| PlayRuns.EveryReachableStateIsSound | public/js/music-player-state.js:52-248 | in every state reached from the empty queue the order is a permutation, ids are distinct, the position is -1 exactly when the queue is empty, and the order is the identity outside shuffle |
| PlayRuns.LeavingShuffleRestoresEntryOrder | public/js/music-player-state.js:72-98 | after any appends, removals, selections, steps and mode changes, leaving shuffle shows the order of entry minus the removed tracks and keeps the current track |
| PlayRuns.PlaysTheRestOnce | public/js/music-player-state.js:220-234 | automatic play in normal or shuffle mode plays each remaining entry once, in order, and then stops |
| PlayRuns.ShufflePlaysEverythingOnce | public/js/music-player-state.js:80-86 | turning shuffle on and letting it run plays every track exactly once |
| PlayRuns.RepeatReturns | public/js/music-player-state.js:220-234 | in repeat mode as many steps as there are tracks play all of them and return to the start |
| PlayRuns.PreviousUndoesNext | public/js/music-player-state.js:236-248 | `previous` undoes every `next` that moved, and reports a change unless there is a single track |
| PlayRuns.PreviousAtTheStart | public/js/music-player-state.js:236-248 | on the first track `previous` starts it again, unless repeat leads to the last one |
| PlayRuns.RepeatOneReplays | public/js/music-player-state.js:220-224 | in repeat-one mode automatic play replays the current track any number of times |
| PlayRuns.ManualNextMoves | public/js/music-player-state.js:220-234 | a `next` that is asked for moves in repeat-one mode as in normal mode, and otherwise as an automatic one |
| PlayerState.PlayerState.RebuildOrder | public/js/music-player-state.js:72-90 | the imperative rebuild computes the specified order and position; the orders it can give are stated in `PlayShuffle` |
| PlayerState.PlayerState.CycleMode | public/js/music-player-state.js:92-103 | goes from normal to shuffle to repeat to repeat-one and back, and rebuilds the order |
| PlayerState.PlayerState.ReplaceQueue | public/js/music-player-state.js:105-127 | fills the queue with the valid tracks of distinct ids and returns the current track |
| PlayerState.PlayerState.SelectTrack | public/js/music-player-state.js:129-139 | finds a track exactly when the queue holds its id, makes it current and reports whether the position changed |
| PlayerState.PlayerState.AppendTracks | public/js/music-player-state.js:141-161 | the push loop appends exactly the valid tracks with new ids and reports them |
| PlayerState.PlayerState.MoveTrack | public/js/music-player-state.js:163-182 | the two splices and the assignments are the specified move; the report says exactly when the track was found, moved, and the mode changed |
| PlayerState.PlayerState.RemoveTrack | public/js/music-player-state.js:184-209 | the splice, filter and map are the specified removal; the report says which track went, whether it was current and whether one follows |
| PlayerState.PlayerState.ClearQueue | public/js/music-player-state.js:211-218 | empties queue and order, takes the position away, keeps the mode and reports how many tracks went |
| PlayerState.PlayerState.PlayNext | public/js/music-player-state.js:220-234 | `next` moves the position and returns the track as specified |
| PlayerState.PlayerState.PlayPrevious | public/js/music-player-state.js:236-248 | `previous` moves the position and returns the track as specified |
| RelayFrames.ReadWritten | host-connector/src/relay_transport.rs:108-166 | reading what was written gives the frame back and leaves what follows it |
| RelayFrames.WriteRead | host-connector/src/relay_transport.rs:108-166 | writing what was read gives the same bytes |
| RelayFrames.WriterMatchesReader | host-connector/src/relay_transport.rs:141-166 | the writer accepts exactly the frames that the reader can produce |
| RelayFrames.PrefixFree | host-connector/src/relay_transport.rs:108-166 | no encoding is the beginning of another one |
| RelayFrames.WireFormat | host-connector/src/relay_transport.rs:54-166 | the bytes of a frame (version 1, type code, two zeros, stream id and length with the most significant byte first, payload) and exactly which frames are written: 65,536 bytes for DATA, 16,384 otherwise, a stream id exactly for the five stream types |
| Bytes.BigEndianByte | host-connector/src/relay_transport.rs:153-154 | byte i of an integer counts its multiples of the corresponding power of 256 |
| RelayFrames.SequencesRoundTrip | host-connector/src/relay_transport.rs:108-166 | a written sequence of frames decodes to itself |
| RelayFrames.StreamsRoundTrip | host-connector/src/relay_transport.rs:108-166 | bytes that decode completely are the encoding of what they decode to |
| RelayFrames.ReadFrame | host-connector/src/relay_transport.rs:108-139 | the outcome depends on the bytes alone, not on the pieces in which they arrive |
| RelayFrames.ReadFrames | host-connector/src/relay_transport.rs:508-511 | reading frame after frame gives the same frames, and the same first error, however the bytes are cut |
| RelayFrames.WriteFrame | host-connector/src/relay_transport.rs:141-166 | writes the encoding, or nothing when the frame is refused |
| RelayGuarantees.StepKeepsSafe | host-connector/src/relay_transport.rs:502-651 | every step of the loop and of every task keeps the invariant of the session |
| RelayGuarantees.EveryRunIsSafe | host-connector/src/relay_transport.rs:502-651 | the invariant holds under every interleaving |
| RelayGuarantees.TableHoldsTheUnfinished | host-connector/src/relay_transport.rs:525-545 | the table's ids are those of the tasks not yet removed, each once, at most 64 |
| RelayGuarantees.OpenTouchesNoOtherStream | host-connector/src/relay_transport.rs:520-546 | an OPEN is refused exactly for a payload, a live id or a full table; a refusal answers RESET and changes no stream |
| RelayGuarantees.LocalServiceGetsThePayloads | host-connector/src/relay_transport.rs:627-643 | the bytes written locally are a prefix of the DATA payloads before the stream's first other frame, and all of them once FIN was handled |
| RelayGuarantees.RelayGetsTheLocalBytes | host-connector/src/relay_transport.rs:574-613 | OPEN_OK comes first, the DATA payloads are a prefix of the bytes read locally, and a FIN comes behind all of them |
| RelayHalfClose.ServedExactlyWhileOpen | host-connector/src/relay_transport.rs:615-651 | in every run a started stream is served exactly while either only DATA came, all of it was written and the local side is open or ended in good order; or DATA and one FIN came and the local side is open; its reader is not aborted while it is served |
| RelayHalfClose.StepKeepsHalfClose | host-connector/src/relay_transport.rs:560-651 | every step keeps that, whatever the other streams do |
| RelayHalfClose.LocalBytesAreSent | host-connector/src/relay_transport.rs:584-602 | bytes read from the local socket become one DATA frame and the reader goes on |
| RelayHalfClose.LocalEofIsSent | host-connector/src/relay_transport.rs:587-593 | the end of the local stream becomes a FIN and ends the reader in good order |
| RelayHalfClose.LocalErrorIsSent | host-connector/src/relay_transport.rs:603-609 | a local read error becomes a RESET and ends the reader without grace |
| RelayHalfClose.ConnectIsAnswered | host-connector/src/relay_transport.rs:566-580 | a failed connection is answered with RESET and the stream is over; a good one with OPEN_OK and it is served |
| RelayHalfClose.FailedWriteIsAnswered | host-connector/src/relay_transport.rs:630-635 | a payload that the local socket takes only in part is answered with RESET and ends the stream |
| RelayHalfClose.LoopAnswers | host-connector/src/relay_transport.rs:508-557 | PING is answered with PONG, a frame for an unknown stream with RESET, PONG with nothing; a frame of another type ends the session |
| RelayHalfClose.ClosedWriterEndsThem | host-connector/src/relay_transport.rs:512-613 | once the writer is gone nothing is sent, a reader ends without grace, a stream about to open is over, an unanswered PING ends the session |
| Base64Url.DecodeEncoded | host-connector/src/access_grant.rs:57-60 | every byte string decodes back from its encoding (section 5 of RFC 4648) |
| Base64Url.EncodedBits | host-connector/src/access_grant.rs:57-60 | symbol k stands for bits 6k to 6k + 5 of the bytes, missing ones zero (section 4 of RFC 4648) |
| Base64Url.SymbolsFollowTheAlphabet | host-connector/src/access_grant.rs:57-60 | the 64 symbols are those of table 2 of RFC 4648 in their order |
| Base64Url.EncodeDecoded | host-connector/src/access_grant.rs:57-60 | every accepted text is the encoding of its value (canonical bits of section 3.5 of RFC 4648) |
| Base64Url.CanonicalIff | host-connector/src/access_grant.rs:48-64 | after trimming, the accepted texts are exactly the encodings of the byte strings of the expected length |
| Base64Url.ReencodingNeverRejects | host-connector/src/access_grant.rs:60-60 | the comparison with the re-encoded text refuses nothing that the strict decoder accepts |
| AccessGrant.BoundToItsDevice | host-connector/src/access_grant.rs:149-155 | a verified grant is bound to exactly those spellings of a device id that name the device it was issued for |
| AccessGrant.ServerIdTextIsInjective | host-connector/src/relay_transport.rs:287-289 | different servers have different texts |
| AccessGrant.IssuedGrantVerifies | host-connector/src/relay_transport.rs:310-361 | an issued grant verifies to the same device, key and time exactly when its time is not zero and not more than 300 seconds ahead |
| AccessGrant.VerdictOnSigned | host-connector/src/access_grant.rs:66-136 | the encoding of any fields and signature is judged by server, time stamp and signature alone, in this order; the saturating sum behaves as an exact one |
| AccessGrant.GrantInBytes | host-connector/src/relay_transport.rs:310-361 | the server id is the hash of its domain and the public key, the grant the encoding of the fields and of their signature under the grant domain, byte for byte |
| AccessGrant.UnsignedFields | host-connector/src/access_grant.rs:74-113 | at which offsets the verifier finds version, server, device, key, grant id, time and protocol |
| AccessGrant.DomainsAreSeparate | host-connector/src/relay_transport.rs:40-42 | no hashed text is ever a signed one |
| AccessGrant.AcceptedGrantIsSigned | host-connector/src/access_grant.rs:66-136 | an accepted grant is the encoding of fields for this server, with a time stamp that is not zero and at most 300 seconds ahead, carrying its signature |
| AccessGrant.UuidTextIsInjective | host-connector/src/access_grant.rs:94-94 | different device ids have different texts |
| AccessGrant.UuidTextLayout | host-connector/src/access_grant.rs:94-94 | the text of a device id is 36 characters with hyphens at four places and the two lower-case hexadecimal digits of each byte in order (section 4 of RFC 9562) |
| AccessGrant.IssueAccessGrant | host-connector/src/relay_transport.rs:310-361 | the texts are parsed, the buffer filled at a moving offset is the unsigned grant, and the result is the server's text and the signed encoding, or the first error |
| AccessGrant.VerifyAccessGrant | host-connector/src/access_grant.rs:66-136 | the checks at a moving offset give the specified verdict, error by error |
| SignedMessages.RequestMessageIsInjective | host-connector/src/access_grant.rs:171-195 | equal request texts mean equal validated fields, although the nonce may carry line breaks of its own |
| SignedMessages.MediaMessageIsInjective | host-connector/src/access_grant.rs:197-215 | equal media texts mean equal validated fields |
| SignedMessages.RequestIsNeverMedia | host-connector/src/access_grant.rs:191-213 | a request text is never a media text |
| SignedMessages.RequestInWords | host-connector/src/access_grant.rs:191-193 | an example of the signed request text, character by character |
| SignedMessages.MediaInWords | host-connector/src/access_grant.rs:213-213 | an example of the signed media text, character by character |
| Text.DecimalIsDecimal | host-connector/src/access_grant.rs:191-193 | a number is written in decimal digits without a superfluous zero |
| HttpHead.ReadLine | host-connector/src/main.rs:1690-1713 | the next line, or the error, depends on the bytes alone, not on how `fill_buf` cuts them |
| HttpHead.ReadHttpHead | host-connector/src/main.rs:1715-1738 | the outcome is a function of the bytes, and on success exactly the bytes behind the blank line are left |
| HttpHead.HeadIsRead | host-connector/src/main.rs:1715-1738 | lines within all limits, a blank line and any body are read as those lines, each decoded and without the returns and newlines at its end, and leave the body |
| HttpHead.ReadHeadShape | host-connector/src/main.rs:1715-1738 | conversely every head that is read has that shape: at most 65 lines of at most 8 KiB, 32 KiB in all, up to the first blank line, each read as its decoded text without the returns and newlines at its end |
| HttpHead.LineTextIsUnique | host-connector/src/main.rs:1731-1735 | that says which text a line is: there is only one |
| HttpHead.FaultIsReported | host-connector/src/main.rs:1690-1738 | behind good lines a line that does not end within 8 KiB, a broken connection and a closed one are reported as such |
| HttpHead.LineIsRefused | host-connector/src/main.rs:1715-1738 | behind good lines one that exceeds 32 KiB in all, a 66th one and one that is no UTF-8 are reported as such, and so is a connection that ends within a line |
| HttpHeaders.ParseHeaderLines | host-connector/src/main.rs:1768-1794 | the loop with the insertions computes the specified result, first error first |
| HttpHeaders.AcceptedIff | host-connector/src/main.rs:1768-1794 | lines are accepted exactly when there are at most 64, each is a field and no name comes twice; the map holds exactly what they say; more lines are refused as too many |
| HttpHeaders.RenderedParsesBack | host-connector/src/main.rs:1768-1794 | the headers of a map, each written once in any case and with any white space around, parse back to the map |
| HttpHeaders.RepeatedNameIsRefused | host-connector/src/main.rs:1789-1791 | a name repeated in whatever case is refused as a duplicate |
| HttpHeaders.WrittenLineParses | host-connector/src/main.rs:1773-1788 | a token, a colon and a value without control characters, with any white space around each that does not start the line with ASCII white space, is read as the lower-case name and the trimmed value |
| HttpHeaders.FieldIsWritten | host-connector/src/main.rs:1773-1788 | conversely every line that is read as a field is written that way |
| HttpHeaders.FirstErrorIsReported | host-connector/src/main.rs:1772-1791 | the first bad line is the one reported: as folded exactly if it starts with ASCII white space, as invalid if it is not written as above, as a duplicate if its name was there |
| HttpHeaders.TokenCharsAre | host-connector/src/main.rs:1760-1766 | the characters of a header name, one by one |
| Text.LowerMapsLetters | host-connector/src/main.rs:1779-1779 | each of the 26 letters becomes its own small form and nothing else changes |
| HttpHeaders.ParsedFieldsAreClean | host-connector/src/main.rs:1760-1766 | a parsed map consists of lower-case tokens of section 5.6.2 of RFC 9110 and trimmed values without control characters |
| ConnectionLimiter.Limiter.Acquire | host-connector/src/main.rs:158-179 | the counters and the answer are the specified ones |
| ConnectionLimiter.Limiter.Drop | host-connector/src/main.rs:181-192 | releasing changes the counters as specified and removes an address at zero |
| ConnectionLimiter.EveryRunIsSound | host-connector/src/main.rs:146-204 | over every run the total is the number of live permits and at most 128, every stored per-address count is that address's live permits, from 1 to 16, and the counted starts are the connections that asked in the window, up to 256 |
| ConnectionLimiter.TotalIsTheSum | host-connector/src/main.rs:173-174 | the total is the sum of the per-address counts |
| ConnectionLimiter.ReleaseIsExact | host-connector/src/main.rs:181-192 | the saturating subtractions never saturate for a live permit |
| ConnectionLimiter.ReleaseUndoesAcquire | host-connector/src/main.rs:158-192 | dropping a permit undoes its admission on all counts |
| ConnectionLimiter.AdmittedIff | host-connector/src/main.rs:158-179 | a permit is given exactly when fewer than 256 connections asked in the window before, admitted or not, fewer than 128 are alive and fewer than 16 from this address |
| ConnectionLimiter.RefusalTakesNothing | host-connector/src/main.rs:164-172 | a refusal changes neither the total nor the address's count |
| ConnectionLimiter.RateIsBounded | host-connector/src/main.rs:160-167 | over every run no 10 seconds see more than 512 admissions |
| ConnectionLimiter.RateBoundIsReached | host-connector/src/main.rs:160-167 | 512 is reached: two windows' budgets fit into one nanosecond around a window's end |
| EpubPosition.EpubRenderer.LoadSpine | public/js/reading-library.js:1111-1148 | shows the page nearest to the progression in the clamped section; a load that fails leaves the old place, or the first page of the new section; nothing happens while busy |
| EpubPosition.EpubRenderer.TurnForward | public/js/reading-library.js:1191-1199 | goes to the next place of the book, as measured, unless busy or a load fails |
| EpubPosition.EpubRenderer.TurnBack | public/js/reading-library.js:1181-1189 | goes to the previous place of the book, as measured, unless busy or a load fails |
| EpubPosition.EpubRenderer.Zoom | public/js/reading-library.js:1205-1222 | loads the section again in the new layout at the progression just read |
| EpubPosition.EpubRenderer.Resize | public/js/reading-library.js:1233-1237 | notes the progression of the moment, replacing one that was noted before, and moves nothing |
| EpubPosition.EpubRenderer.ResizeTimer | public/js/reading-library.js:1236-1236 | loads the section shown by then at the noted progression; is dropped when a load is going on |
| EpubPosition.EpubRenderer.MakeBookmark | public/js/reading-library.js:1227-1231 | writes the locator of the current place |
| EpubPosition.NextAdvances | public/js/reading-library.js:1191-1202 | `next` goes to the very next page of the book; `canNext` is false exactly on the last one |
| EpubPosition.FlatIsLexicographic | public/js/reading-library.js:1201-1202 | the row of pages is ordered by section, then page |
| EpubPosition.PrevUndoesNext | public/js/reading-library.js:1181-1199 | `prev` and `next` undo each other everywhere, across section boundaries too |
| EpubPosition.EveryPageOnce | public/js/reading-library.js:1191-1202 | repeated `next` from the first page shows every page exactly once and stops where `canNext` is false |
| EpubPosition.OverallIsAFraction | public/js/reading-library.js:1227-1231 | the overall progression lies between 0 and 1 |
| EpubPosition.OverallGrows | public/js/reading-library.js:1227-1231 | along `next` it never falls, and it stands still exactly at the end of a section of several pages |
| EpubPosition.OverallIs | public/js/reading-library.js:1227-1231 | every section counts alike: the overall progression times their number is the section plus the share of its pages; 0 on the first page, 1 on the last unless it is alone in its section |
| EpubPosition.OpenedWhere | public/js/reading-library.js:863-868 | without a readable bookmark a book opens on its first page, otherwise in the bookmarked section, or the last, on the page nearest to the progression |
| EpubPosition.PagesAreLeast | public/js/reading-library.js:1130-1136 | every section gets the least number of pages that leaves at most half a pixel of it and of the viewport uncovered |
| EpubPosition.BookmarkReopens | public/js/reading-library.js:863-868 | a bookmark of any page reopens its section, and the page itself when the section has at most 1,000,001 pages |
| EpubPosition.EveryBookmarkReopensIff | public/js/reading-library.js:1136-1140 | every page of a book comes back exactly when no section has more pages than that |
| EpubPosition.RelayoutKeepsThePlace | public/js/reading-library.js:1205-1222 | after a zoom the same page is shown if the page count is the same, the nearest page otherwise |
| EpubPosition.ResizeKeepsThePlaceIff | public/js/reading-library.js:1233-1237 | noted at one place and carried out at another, a resize keeps the reader exactly on the page nearest to the noted progression; within one section and layout it returns to the place where it was noted |
| EpubPosition.ResizeUndoesAPageTurn | public/js/reading-library.js:1233-1237 | a page turned within the section before the timer fires is always undone |
| EpubPosition.ResizeCarriesTheProgressionOver | public/js/reading-library.js:1233-1237 | after a turn from the end of a section of several pages the reader lands on the last page of the next section instead of the first |
| EpubLocator.ParsedIffMatches | public/js/reading-reader-utils.js:52-61 | a locator is read exactly when its text matches the grammar, and section and progression are what the text says |
| EpubLocator.FractionIsDenoted | public/js/reading-reader-utils.js:54-58 | the fraction is read as exactly the number that its text stands for |
| EpubLocator.LocatorRoundTrip | public/js/reading-reader-utils.js:40-61 | a locator just made reads back to the same section and to the progression rounded to a millionth |
| EpubLocator.LocatorInWords | public/js/reading-reader-utils.js:40-50 | an example of a locator, character by character |
| EpubLocator.SixDecimalsShape | public/js/reading-reader-utils.js:45-45 | a progression is written as eight characters: 0 or 1, a point, six digits |
| EpubLocator.PageReturns | public/js/reading-reader-utils.js:40-61 | rounding to six decimals and back to a page is the identity up to 1,000,001 pages |
| EpubLocator.EveryPageReturnsIff | public/js/reading-reader-utils.js:40-61 | and for no larger section |
| EpubLocator.PageCountIsLeast | public/js/reading-reader-utils.js:83-89 | the page count is the least number of pages that leaves at most half a pixel uncovered |

## Left out

- SQLite itself: a statement is a change of the table maps that is accepted or refused by the constraints; a transaction takes effect as a whole or not at all.
- The `user_version` guards, the backup before migrating and indexes left by older versions.
- Columns that the merges neither read nor change are one field `other`.
- Text is compared by character code; SQLite compares UTF-8 bytes and JavaScript UTF-16 units, which order some characters beyond U+FFFF differently.
- The path normalisers, the locale case folding and `Date.parse`: parameters. `MusicRerun.SecondRunChangesNothing` assumes idempotent normalisers, `MusicGuarantees.UniqueIndexesCanBeBuilt` a folding coarser than `NOCASE`.
- `migrateReadingPathsToRelative`: it compares files on disk.
- `normalizeTrack`: a track is an id and the rest of its fields; a value that it refuses is `None`. The queue's context object is not part of this model.
- The random source is a function of how often it was called, over exact reals.
- RelayStreams.Step: works on values, one step at a time, so that every interleaving of the loop and the tasks is a run; authentication, heartbeats, timeouts, reconnection and the capacity of the outgoing channel are not part of this model, and nothing is said about frames sent after a reader was aborted.
- Failures of writing frames, and of writing to the local socket beyond "a prefix was written".
- Ed25519, SHA-256 and UUID parsing: parameters. In the signed texts a device id is any text without a line break.
- `from_utf8`: a parameter. The request line parser, proxying, response writers, TLS and the health endpoint.
- A poisoned mutex of the limiter: each call is one step.
- EpubPosition.EpubRenderer.LoadSpine: the load takes effect as one step, which may fail at two points; between its awaits `busy` keeps every other operation out except making a bookmark and noting a resize, which would see the half-loaded place. Layout measurement, document preparation and the zoom factors are not part of this model.
- JavaScript numbers in the EPUB arithmetic are exact reals; infinite or missing values do not occur.
- `contentPageOffsets`, `pageLocator` and the archive path helpers: they would only add easy members.
