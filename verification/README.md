# Dalston: verified models of the timeline algebra, task delivery, allocators and registry

Dalston is a speech-recognition pipeline. Its engines transcribe and diarize audio, its orchestrator assembles the
results into one transcript, and the two talk over Redis streams. This project models the parts of it where a result
is built up by index bookkeeping or where a guarantee is about whole runs, and proves them in Dafny:

- **Diarization timeline** (`dalston/common/transcript.py`, `dalston/engine_sdk/diarize_chunking.py`,
  `dalston/common/utils.py`): smoothing of micro-turns, coalescing, speaker windows, the split of segments by words or
  by text, absorption of short parts, missed speech, chunk boundaries, merging of chunks at seams, the overlap sweep
  and the interval union. Each loop is proved against a pointwise meaning: who speaks at an instant, how many turns
  cover it, which chunk owns it.
- **Task delivery** (`streams.py`, `streams_sync.py`, `runner.py`, `durable_events.py`): one consumer group with any
  number of runners. Every Redis command is one atomic step; producers, runners, crashes, heartbeats and expiring
  idempotency keys interleave freely, and the guarantees hold in every reachable state.
- **Allocators and caches** (`admission.py`, `model_manager.py`, `disk_cache.py`, `vad.py`, `base_transcribe.py`):
  realtime reservation, the reference-counted model cache, the two-pass disk evictor, the VAD chunker, the
  out-of-memory backoff that resumes from it, and the merge of the chunks' transcripts.
- **Engine registry** (`registry.py`): index sets that must agree with a full scan through expiry and re-creation, first with
  whole operations as steps, then with single Redis commands.

Code that updates state is written as methods with loops, or as classes whose methods are tied to a function of the old
state; the lemmas are about those functions, and say what they yield without them. Each module begins with a line that says what it models.

`dafny verify dfyconfig.toml` checks everything.

## Numbers

Times in `transcript.py`, `vad.py` and `base_transcribe.py` are exact `real` seconds; where `base_transcribe.py` rounds
merged times to three decimals the model rounds to whole milliseconds, half to even. Times in `diarize_chunking.py` are
whole milliseconds, which is what its rounding to three decimals produces; a seam, the only value there that is halved,
is rounded half to even. `compute_interval_union_ms` works on whole microseconds, the resolution of its timestamps, and
truncates the sum to milliseconds. Measures are counts of unit intervals, taken in any range `[lo, hi)` that holds the
input; the range is a ghost argument.

## Results that come with a condition

Each condition is exact; for most a lemma also exhibits an input that does not meet it.

- Splitting by words conserves the words **if and only if** no maximal run of one speaker consists of blank words
  (`WordSplit.SplitConservesWords`, `WordSplit.BlankRunIsLost`). The tokens are conserved always
  (`WordPath.WordSplitKeepsTokens`).
- The sweep's running count is the number of turns covering an instant **if and only if** no turn ends before it starts
  (`OverlapSweep.SweepCountsCoverIffProper`). Its ratio is within [0, 1] either way.
- The chunking loop ends **if and only if** the overlap is less than the chunk length or it ends in the first round
  (`ChunkBoundaries.FinishesIff`).
- A loaded model is safe from disk eviction **if and only if** its id has no `--` and no `-/`, because only then does its
  directory name decode to it (`ModelPaths.RoundTripIffClean`, `DiskCache.SafeOnDiskIffClean`).
- The backoff transcribes all detected speech on every normal return **if and only if** no pass it can make finds a group
  that ends within 1 ms after the boundary it resumes from (`VadBackoff.LosslessIffNeverDrops`). Speech whose segments
  start at 0 or later, are longer than 1 ms and no longer than both the cap and a minute meets this
  (`VadBackoff.OrdinarySpeechIsLossless`); half a millisecond at the start of the audio does not and is lost
  (`VadBackoff.ShortOpeningIsLost`). What is lost is never more than 1 ms after a boundary
  (`OomBackoff.FinishedIsComplete`).
- In a run of the task stream no message ever has two holders **if and only if** no claim takes a message that another
  runner still holds (`Delivery.ExclusiveIffNoSteal`). Looking at the pending list and claiming are separate commands, and
  a holder can miss its heartbeats, so such a claim can happen: `Delivery.TwoHoldersAreReachable` is a run from the empty
  stream in which it does, and `Delivery.TwoRunnersCanHoldOneTask` one where two runners race for a dead engine's task.
  The pending list still has one owner per message. It cannot happen if no consumer name is used again after its process
  stopped, a consumer that is up has a fresh heartbeat when a scan inspects a message of its own, and nobody claims a message
  that another runner's pending page names (`Delivery.CarefulRunsAreExclusive`).
- The full registry listing is the full scan throughout a run **if and only if** every heartbeat comes between
  registration and deregistration (`Registry.ListingIsExactIffDisciplined`). A later heartbeat brings back a record that
  the full listing misses; the listings by engine and stage find it exactly if an index entry was left behind
  (`Registry.LateHeartbeatHidesARecord`).
- Merging keeps, of a chunk's turns, those whose midpoint lies in the chunk's own range. Coverage at an instant is exactly
  that of the owner's centered turns (`ChunkMerge.MergedCoverIsTheOwners`), which is all of the owner's coverage **if and
  only if** its turns there are centered (`ChunkMerge.OwnerIsHeardIffCentered`, `ChunkMerge.OffCenterTurnIsDropped`).
- The missed speech reported for a region is exactly its long gaps **if and only if** no segment that, widened by the
  tolerance, still ends before it starts lies in one of them, save one that starts where the gap ends and ends within a
  quarter of a second of it (`MissedSpeech.RegionIsExactIff`, `MissedSpeech.InvertedSegmentSplitsAGap`).

## Model

| member | source | states |
|---|---|---|
| `Coalescing.MergeAdjacentTurns` | dalston/common/transcript.py:826-845 | The loop computes the fold whose properties the next rows prove. |
| `Coalescing.MergeSortsAndCoalesces` | dalston/common/transcript.py:826-845 | On a sorted list the result is sorted, non-empty if the input is, and no two neighbours of one speaker still touch. |
| `Coalescing.MergeCovers` | dalston/common/transcript.py:826-845 | Every input turn lies inside an output turn of its speaker. |
| `Coalescing.MergeSplices` | dalston/common/transcript.py:826-845 | Every output turn starts as one input turn and ends where one of the same speaker ends. |
| `Coalescing.MergeOfCoalesced` | dalston/common/transcript.py:826-845 | A list with nothing to merge is a fixed point. |
| `Coalescing.MergeKeepsSpeech` | dalston/common/transcript.py:826-845 | On sorted turns coalescing neither adds nor loses an instant of any speaker. |
| `Coalescing.MergeLeavesApart` | dalston/common/transcript.py:826-845 | On sorted turns no two neighbours of one speaker touch afterwards: the first ends before the second starts. |
| `Smoothing.SmoothDiarizationTurns` | dalston/common/transcript.py:716-823 | The whole method, with its flags, index map and in-place extension of `kept`, computes `Smooth`, which is stated over the sorted turns without any of them. |
| `Smoothing.LongestTurn` | dalston/common/transcript.py:755-760 | When all turns are short, the one spared is the first of the longest. |
| `Smoothing.Partition` | dalston/common/transcript.py:739-760 | Flags and kept list agree, and something is always kept. |
| `Smoothing.FindNeighbours` | dalston/common/transcript.py:777-787 | The two searches find the nearest kept slots on either side, or none. |
| `Smoothing.IndexKept` | dalston/common/transcript.py:762-768 | The map takes each kept slot to its position in the compact list. |
| `Smoothing.AbsorbAll` | dalston/common/transcript.py:773-820 | Updating the compact list through the index map is absorbing on the full list: slot `i` stays an extension of sorted turn `i`. |
| `Smoothing.TargetIsBest` | dalston/common/transcript.py:792-811 | The absorbing slot overlaps the short turn at least as much as the other kept neighbour, and is the longer one, then the earlier one, on ties. |
| `SpeakerTurns.OverlapIsShared` | dalston/common/transcript.py:770-771 | The overlap is the length of the stretch that two turns share. |
| `Smoothing.SmoothIsAbsorption` | dalston/common/transcript.py:739-823 | The output is the kept slots of the last of a series of states, sorted and coalesced. The first state is the sorted turns; from the state before a short turn to the state after it exactly one slot changes, that of the kept neighbour which, as the neighbours stand in that state, shares the most time with the short turn, then is the longer, then the earlier; it then spans the short turn too. |
| `Smoothing.AbsorptionIsUnique` | dalston/common/transcript.py:773-820 | There is only one such series of states. |
| `Smoothing.AbsorbExtends` | dalston/common/transcript.py:773-820 | A kept slot always extends its own turn: same speaker and metadata, bounds taken from input turns. |
| `Smoothing.AbsorbCovers` | dalston/common/transcript.py:773-820 | A short turn, once handled, lies inside some kept slot from then on. |
| `Smoothing.SmoothIsSortedAndCoalesced` | dalston/common/transcript.py:716-823 | For a positive threshold the output is sorted by (start, end) and coalesced. |
| `Smoothing.SmoothLosesNoTime` | dalston/common/transcript.py:716-823 | Every input turn's span lies inside an output turn, and inside one of its own speaker if it reaches the threshold, for every input and threshold. |
| `Smoothing.SmoothInventsNothing` | dalston/common/transcript.py:716-823 | Every output turn extends an input turn (so no new speaker), and starts and ends where input turns do. |
| `Smoothing.SmoothDurations` | dalston/common/transcript.py:716-823 | No output turn is shorter than the threshold, unless every input turn was: then exactly one is left and it spans them all. |
| `Smoothing.SmoothIsIdempotent` | dalston/common/transcript.py:716-823 | Smoothing its own output changes nothing, for every list of turns and every threshold. |
| `SpeakerWindows.FindSpeakerByOverlap` | dalston/common/transcript.py:848-874 | Returns the speaker of the first turn with the largest positive overlap, or none if there is no overlap. |
| `SpeakerWindows.OverlapWithIsShared` | dalston/common/transcript.py:848-874 | The overlap compared is the length of the stretch that the turn shares with the window. |
| `SpeakerWindows.OverlapSearchIsPointwise` | dalston/common/transcript.py:848-874 | On a window no turn begins or ends in, the search finds the first listed turn covering any of its instants. |
| `SpeakerWindows.FindNearestTurnSpeaker` | dalston/common/transcript.py:951-967 | Returns the speaker of the first turn at the least distance from the instant; none only without turns. |
| `SpeakerWindows.DistanceIsToTheClosest` | dalston/common/transcript.py:951-967 | The distance compared is that to the closest instant of the turn. |
| `SpeakerWindows.Boundaries` | dalston/common/transcript.py:927-932 | The cut points hold the segment's ends and the clipped ends of every turn that overlaps it, and lie inside it. |
| `SpeakerWindows.BuildSpeakerWindows` | dalston/common/transcript.py:918-948 | For `lo < hi` the windows tile the segment, neighbours differ, and at every instant the window names the first listed turn covering it, or nobody: the run-length encoding of who speaks. |
| `SpeakerWindows.SpeakerWindowsAreUnique` | dalston/common/transcript.py:918-948 | There is only one such list of windows. |
| `WordSplit.FindStartTurnSpeaker` | dalston/common/transcript.py:976-981 | First turn whose closed span holds the start of the word. |
| `WordSplit.AssignSpeakerToWord` | dalston/common/transcript.py:984-1016 | The early returns are the five rules in order. |
| `WordSplit.EveryWordIsAssigned` | dalston/common/transcript.py:984-1016 | With turns present every word that does not end before it starts gets the speaker of one of them. |
| `WordSplit.UnambiguousWord` | dalston/common/transcript.py:984-1016 | If only turns of one speaker touch a word, that is its speaker, whichever rule decides. |
| `WordRules.SentenceEndIsLastMark` | dalston/common/transcript.py:970-973 | A word ends a sentence if and only if its last character that is not white space is a full stop, an exclamation mark or a question mark. |
| `WordRules.WordGoesByOverlap` | dalston/common/transcript.py:984-1016 | A word of positive length that does not end a sentence, or starts in no turn, gets the speaker of the first turn with the largest overlap, if that is positive. |
| `WordRules.SentenceEndGoesByStart` | dalston/common/transcript.py:1003-1009 | One that ends a sentence gets the speaker of the first turn whose closed span holds its start. |
| `WordRules.WordGoesByNearest` | dalston/common/transcript.py:1011-1016 | Without such a turn and without overlap it gets the first turn nearest to its middle. |
| `WordRules.PointWordGoesByNearest` | dalston/common/transcript.py:993-998 | A word of no length gets the first turn nearest to it; one that ends before it starts gets none. |
| `WordSplit.SplitWordsBySpeaker` | dalston/common/transcript.py:1019-1066 | The loop emits one part per maximal run of one speaker over the sorted valid words, leaving out runs without text. |
| `WordRules.PartSpeaksForItsWords` | dalston/common/transcript.py:1034-1064 | A part speaks for every one of its words, starts with the first and ends with the last, and its text has their tokens. |
| `WordSplit.RunsKeepWords` | dalston/common/transcript.py:1027-1066 | The runs, end to end, are the sorted valid words. |
| `WordSplit.RunsAreMaximal` | dalston/common/transcript.py:1027-1066 | Each run has one speaker and neighbouring runs differ. |
| `WordSplit.SplitConservesWords` | dalston/common/transcript.py:1019-1066 | The parts' words are the sorted valid words if and only if no run is all blank; in particular when no word is blank. |
| `WordSplit.BlankRunIsLost` | dalston/common/transcript.py:1038-1041 | A single blank word is valid and lost, whatever the turns. |
| `ShortSplits.AbsorbOneShort` | dalston/common/transcript.py:1086-1134 | One scan absorbs the first part with too few words into its neighbour by replacing and popping, and reports whether it did. |
| `ShortSplits.Taker` | dalston/common/transcript.py:1093-1105 | The neighbour that takes the part is adjacent, has at least as many words as the other, and is the earlier one on a tie. |
| `ShortSplits.MergeShortSplits` | dalston/common/transcript.py:1069-1136 | Repeats until nothing changes; terminates because the number of parts falls. |
| `ShortSplits.MergeShortEnds` | dalston/common/transcript.py:1069-1136 | Ends with at most one part or with every part long enough, and never with none out of some. |
| `ShortSplits.MergeShortKeeps` | dalston/common/transcript.py:1110-1134 | The words, and the tokens of the texts, are the same and in the same order. |
| `ShortSplits.MergeShortSpeakers` | dalston/common/transcript.py:1110-1134 | Every surviving part speaks for one of the original speakers. |
| `PartGroups.MergeShortStep` | dalston/common/transcript.py:1086-1134 | While some part is too short and not alone, the first such part is taken in by the neighbour with more words, the earlier on a tie: the neighbour keeps its speaker, has the words and tokens of both in order and the times of both, and the other parts stay. |
| `PartGroups.OutputsAreGroups` | dalston/common/transcript.py:1069-1136 | Each output part is a contiguous group of input parts with all their words, and speaks for one member of it; if all parts have words, as those of the word split do, a member with enough of them is always that one. |
| `PartGroups.LongPartKeepsItsSpeaker` | dalston/common/transcript.py:1069-1136 | A part with enough words keeps its speaker: its words stay together inside an output part of that speaker. |
| `ShortSplits.MergeShortKeepsTimes` | dalston/common/transcript.py:1110-1134 | Parts timed by their words and in time order stay so; the split by words makes such parts (`WordPath.WordSplitIsTimed`). |
| `WordPath.WordSplitIsTimed` | dalston/common/transcript.py:1027-1066 | The parts of the split by words start and end as their words do and come in order of their starts, for all words and turns. |
| `WordPath.WordSplitKeepsTokens` | dalston/common/transcript.py:1019-1066 | The tokens of the parts are those of the sorted valid words, blank runs or not. |
| `SegmentText.SplitTextAcrossWindows` | dalston/common/transcript.py:1139-1169 | The tokens are dealt out in order, one share per window; with several tiling windows each token goes to the one containing its proportional midpoint. |
| `SegmentText.DealtTokens` | dalston/common/transcript.py:1139-1169 | Splitting the shares again gives all tokens in order. |
| `SegmentText.MidpointIsProportional` | dalston/common/transcript.py:1161-1164 | The position used for token `i` of `n` is (2i + 1) / 2n of the way through the segment. |
| `Text.SplitJoin` | dalston/common/transcript.py:1149-1169 | Splitting undoes joining with single spaces. |
| `Text.SplitOfJoin` | dalston/engine_sdk/base_transcribe.py:347-402 | The tokens of a joined text are those of its pieces, blank or not. |
| `Text.SplitAround` | dalston/common/transcript.py:1113-1123 | A space between two texts separates their tokens. |
| `Text.SplitStrip` | dalston/common/transcript.py:1113-1123 | Stripping loses no token. |
| `Text.StripTrims` | dalston/common/transcript.py:1113-1123 | Stripping cuts white space off both ends, all of it and nothing else. |
| `Text.BlankHasNoTokens` | dalston/common/transcript.py:1038-1041 | Text strips to nothing exactly when it has no tokens. |
| `SegmentSplit.ResolveWindows` | dalston/common/transcript.py:1223-1235 | Windows without a speaker take the nearest turn's and neighbours of one speaker are joined: a tiling of the segment, all speakers named, neighbours different. |
| `SegmentSplit.SplitWithoutWords` | dalston/common/transcript.py:1223-1257 | One part per resolved window, with its share of the text. |
| `SegmentSplit.SplitSegmentByDiarization` | dalston/common/transcript.py:1172-1265 | Each early return, the word split with absorption and the text split give what `IsSplit` says for that case. |
| `SegmentSplit.UndividedSegmentStaysWhole` | dalston/common/transcript.py:1185-1215 | A segment throughout which the same speaker is heard first, or nobody is, stays whole, with its words and that speaker. |
| `SegmentSplit.DividedSegmentIsSplit` | dalston/common/transcript.py:1205-1265 | One in which that changes is split by its words if they yield a part, and by its text otherwise. |
| `SegmentSplit.TextSplitIsLossless` | dalston/common/transcript.py:1223-1265 | The parts tile the segment, name speakers, alternate, and their tokens are the segment's in order. |
| `SegmentSplit.TextSplitSpeaksAsTurns` | dalston/common/transcript.py:1223-1265 | At every instant covered by a turn the part there speaks for the first listed turn covering it. |
| `SegmentSplit.TextSplitFillsByNearest` | dalston/common/transcript.py:1223-1235 | In a window that no turn covers the part speaks for the first turn nearest to the middle of the window. |
| `SegmentSplit.UnfilledWindowIsAGap` | dalston/common/transcript.py:918-948 | Such a window is a longest stretch of the segment that no turn covers. |
| `SegmentSplit.TokensGoByPosition` | dalston/common/transcript.py:1139-1169 | With several parts, token `i` of `n` is in the part that holds the point (2i + 1) / 2n of the way through the segment. |
| `SegmentSplit.WordSplitIsLossless` | dalston/common/transcript.py:1217-1221 | Word split and absorption together: the words are the sorted valid words if and only if no run of one speaker is blank, the tokens always; the parts are timed by their words, in order, and long enough or only one. |
| `SegmentSplit.TwoWordsKeepTheirSpeaker` | dalston/common/transcript.py:1217-1221 | A run of at least two words keeps its speaker through the absorption. |
| `MissedSpeech.MergeSpans` | dalston/common/transcript.py:482-487 | The loop computes the fold `MergedSpans`. |
| `MissedSpeech.MergedSpansCover` | dalston/common/transcript.py:482-487 | For all spans, sorted, the merged ones are separated and cover the same instants; a span that ends before it starts covers nothing and is kept, unless it starts inside another. |
| `MissedSpeech.MissedInRegion` | dalston/common/transcript.py:496-508 | The cursor loop, with its two exits, reports what `MissedFrom` says. |
| `MissedSpeech.ScanReportsTheGapsIff` | dalston/common/transcript.py:490-508 | For every region, also an empty one, the scan reports exactly the maximal uncovered gaps that are long enough, in order, if and only if no inverted span harms a long gap. |
| `MissedSpeech.ComputeMissedSpeech` | dalston/common/transcript.py:473-509 | The loop computes `MissedSpans` for every input: region by region what `MissedIn` says, nothing for a region that does not parse; if no region is harmed, exactly the long maximal gaps between the widened segments. |
| `MissedSpeech.RegionIsExactIff` | dalston/common/transcript.py:473-509 | For every region and all segments: what is reported is exactly the long gaps between the widened segments, if and only if no widened segment that ends before it starts lies in a long gap, other than one that starts where the gap ends and ends too near there for a second report. |
| `MissedSpeech.InvertedSegmentSplitsAGap` | dalston/common/transcript.py:479-508 | It can fail: with a segment from 10 s back to 0 s the two reported spans overlap and neither is a gap. |
| `MissedSpeech.WidenedCover` | dalston/common/transcript.py:479-481 | An instant is covered if and only if it is within the tolerance of a segment and not negative. |
| `MissedSpeech.EveryInstantIsAccountedFor` | dalston/common/transcript.py:490-508 | Where the result is exact, every instant inside a region is covered, in a reported span, or in a maximal gap too short to report. |
| `IntervalUnion.UnionLength` | dalston/common/utils.py:52-68 | The running merge of sorted pairs sums to the measure of their union. |
| `IntervalUnion.ComputeIntervalUnionMs` | dalston/common/utils.py:27-71 | None if and only if no interval is valid and positive; otherwise the measure of the union in whole milliseconds. |
| `Measure.LengthCounts` | dalston/engine_sdk/diarize_chunking.py:506-540 | The measure is the number of unit intervals in the set, an independent reference for both sweeps. |
| `OverlapSweep.Sweep` | dalston/engine_sdk/diarize_chunking.py:524-537 | The loop over sorted events measures the instants with running count at least two and at least one. |
| `OverlapSweep.LevelIsCover` | dalston/engine_sdk/diarize_chunking.py:517-537 | The running count at an instant is the number of turns covering it, zero-length turns included. |
| `OverlapSweep.OverlapStats` | dalston/engine_sdk/diarize_chunking.py:506-540 | The duration is the measure of the instants two turns cover, the ratio is its share of those at least one covers, and it is within [0, 1]. |
| `OverlapSweep.SweepCountsCoverIffProper` | dalston/engine_sdk/diarize_chunking.py:506-540 | The count is the cover at all instants if and only if no turn ends before it starts. |
| `OverlapSweep.UnionIsTotalSpeech` | dalston/common/utils.py:27-71 | The interval union of the same turns has the measure of the ratio's denominator. |
| `ChunkBoundaries.ComputeChunkBoundaries` | dalston/engine_sdk/diarize_chunking.py:83-123 | Whenever the loop can end it does, for all parameters, and yields full chunks a stride apart with a last one that takes the rest. Unless the overlap or the chunk length is negative that is a chunking: each chunk but the last overlaps its successor by exactly the overlap, and the last ends at the duration. |
| `ChunkBoundaries.FinishesIff` | dalston/engine_sdk/diarize_chunking.py:94-123 | Some round ends the loop if and only if the overlap is less than the chunk length or the first round ends it. |
| `ChunkBoundaries.ChunkListIsChunking` | dalston/engine_sdk/diarize_chunking.py:94-123 | With no negative overlap or chunk length, what the loop yields covers the whole audio as a chunking. |
| `ChunkBoundaries.ChunkingIsUnique` | dalston/engine_sdk/diarize_chunking.py:94-123 | There is only one chunking for given parameters. |
| `ChunkBoundaries.ChunkLengths` | dalston/engine_sdk/diarize_chunking.py:94-123 | No chunk exceeds the larger of the maximum and maximum plus minimum minus overlap; with several chunks none is below the smaller of minimum and maximum. |
| `ChunkBoundaries.ChunksAdvance` | dalston/engine_sdk/diarize_chunking.py:94-123 | Starts and ends strictly advance. |
| `ChunkBoundaries.ChunksCover` | dalston/engine_sdk/diarize_chunking.py:94-123 | Every instant of the audio is in some chunk. |
| `ChunkBoundaries.ExtensionCapIsRedundant` | dalston/engine_sdk/diarize_chunking.py:104-116 | The limit on the extended last chunk never decides anything. |
| `ChunkMerge.ResolveOverlaps` | dalston/engine_sdk/diarize_chunking.py:436-498 | Seams, range map and filter loop keep exactly the trimmed centered turns. |
| `ChunkMerge.MergeChunks` | dalston/engine_sdk/diarize_chunking.py:387-433 | The merged timeline is the sorted, resolved turns; the speakers are those that occur in it, each once and sorted. |
| `ChunkMerge.SpeakersAreUnique` | dalston/engine_sdk/diarize_chunking.py:429-433 | There is only one such list of speakers. |
| `Sorting.SortedOnceIsUnique` | dalston/engine_sdk/diarize_chunking.py:431 | A sorted list without repetition is determined by the order and its members, so sorting a set does not depend on how it is enumerated. |
| `ChunkMerge.SurvivorsAreInOrder` | dalston/engine_sdk/diarize_chunking.py:83-123 | Whatever chunks fail, the survivors of a chunking meet what merging needs of its input. |
| `ChunkMerge.SeamsAdvance` | dalston/engine_sdk/diarize_chunking.py:448-473 | Each range is well-formed and begins where the previous one ends. |
| `ChunkMerge.RangesTile` | dalston/engine_sdk/diarize_chunking.py:463-473 | Ranges of different chunks do not overlap and come in chunk order. |
| `ChunkMerge.OwnerExists` | dalston/engine_sdk/diarize_chunking.py:463-473 | Every instant between the first start and the last end has a chunk that owns it. |
| `ChunkMerge.OneOwner` | dalston/engine_sdk/diarize_chunking.py:463-473 | And only one. |
| `ChunkMerge.MergedTurnHasOneOwner` | dalston/engine_sdk/diarize_chunking.py:475-498 | A merged turn is a turn of one chunk, trimmed, and lies inside the range that chunk owns. |
| `ChunkVoices.MergedTurnComesFrom` | dalston/engine_sdk/diarize_chunking.py:387-498 | Every merged turn comes from a turn of a chunk: it has the name which that chunk's map gives the speaker, or the speaker's own if it is not in the map, the turn's confidence, and the turn's span moved by the chunk's start and trimmed to the chunk's range, in which its midpoint lies. |
| `ChunkVoices.SeamIsTheMiddle` | dalston/engine_sdk/diarize_chunking.py:448-460 | A seam is the middle of the overlap of two chunks, to half a millisecond, an odd one on the even side; one range ends and the next begins there. |
| `ChunkMerge.TurnsSurvive` | dalston/engine_sdk/diarize_chunking.py:475-498 | A turn that trimming keeps is merged; a non-empty turn inside its chunk's range survives unchanged. |
| `ChunkMerge.MergedCoverIsTheOwners` | dalston/engine_sdk/diarize_chunking.py:387-498 | At every instant the merged timeline is covered exactly as often as the owning chunk covers it with its centered turns, and not at all without an owner. |
| `ChunkVoices.SpeakerCoverIsTheOwners` | dalston/engine_sdk/diarize_chunking.py:387-498 | At every instant each speaker is covered exactly as often as the owning chunk's centered turns of those its map gives to that speaker cover it. |
| `ChunkVoices.SpeakersMergeApart` | dalston/engine_sdk/diarize_chunking.py:387-498 | The merged turns of one speaker are the merge of just the turns that the chunks' maps give to that speaker. |
| `ChunkMerge.OwnerIsHeardIffCentered` | dalston/engine_sdk/diarize_chunking.py:475-498 | The merged coverage at an instant is all of the owner's own if and only if the owner's turns there are centered in its range. |
| `ChunkMerge.OffCenterTurnIsDropped` | dalston/engine_sdk/diarize_chunking.py:475-498 | It can be less: a turn that begins in its chunk's range but lies mostly past the seam leaves nothing. |
| `ChunkMerge.ExclusiveChunksMergeWithoutOverlap` | dalston/engine_sdk/diarize_chunking.py:387-498 | If no chunk's own turns overlap, no instant of the merged timeline is covered twice. |
| `ChunkMerge.MergedIsProper` | dalston/engine_sdk/diarize_chunking.py:387-498 | Merging proper turns gives proper turns. |
| `ChunkMerge.ExclusiveMergeMeasuresNoOverlap` | dalston/engine_sdk/diarize_chunking.py:387-540 | In exclusive mode the overlap statistics of the merged timeline are zero. |
| `Admission.AdmissionController.CanAcceptBatchUnlocked` | dalston/engine_sdk/admission.py:224-244 | A batch task is acceptable if it fits under its cap and the capacity and leaves the unfilled reservation free. |
| `Admission.AdmissionController.CanAcceptRtUnlocked` | dalston/engine_sdk/admission.py:246-248 | A session is acceptable if there is capacity. |
| `Admission.AdmissionController.AdmitBatchTask` | dalston/engine_sdk/admission.py:136-147 | Admits exactly when acceptable and then counts it. |
| `Admission.AdmissionController.AdmitRtSession` | dalston/engine_sdk/admission.py:149-160 | Admits exactly when acceptable and then counts it. |
| `Admission.AdmissionController.ReleaseBatchTask` | dalston/engine_sdk/admission.py:162-170 | Takes one off, never below zero. |
| `Admission.AdmissionController.ReleaseRtSession` | dalston/engine_sdk/admission.py:172-182 | Takes one off, never below zero. |
| `Admission.AdmissionController.ReconfigureLimits` | dalston/engine_sdk/admission.py:184-204 | Replaces the limits and leaves the counts. |
| `Admission.RunsStayWithinLimits` | dalston/engine_sdk/admission.py:59-95 | Under a fixed configuration every reachable state is within capacity, batch cap and reservation. |
| `Admission.RealtimeIsNeverStarved` | dalston/engine_sdk/admission.py:59-95 | In every reachable state a session below the reservation is admitted. |
| `Admission.BatchTakesTheHeadroom` | dalston/engine_sdk/admission.py:136-244 | From every state, `n` requests for batch tasks in a row admit `n` or the headroom, whichever is less; the headroom is what the batch cap and the capacity leave beside the sessions or the reservation, whichever is more. So a filled reservation frees all the rest, and an unfilled one holds its own back. |
| `Admission.SessionsTakeTheCapacity` | dalston/engine_sdk/admission.py:149-160 | From every state sessions are admitted until the capacity is used up, also beyond the reservation, and no further. |
| `Admission.ReleasesGiveBack` | dalston/engine_sdk/admission.py:162-182 | `n` releases in a row give back `n` places, or as many as are taken. |
| `Admission.ExcessNeverGrows` | dalston/engine_sdk/admission.py:136-204 | Right after a reconfiguration or in any other state, no operation takes a total further over a limit. |
| `Admission.LimitsAreRegained` | dalston/engine_sdk/admission.py:136-204 | Once no limit is exceeded, they hold for the rest of the run. |
| `Admission.AdmissionsRespectCurrentLimits` | dalston/engine_sdk/admission.py:136-160 | Whatever the configuration was before, an admission is within the limits of that moment. |
| `ModelCache.ModelManager.AcquireModel` | dalston/engine_sdk/model_manager.py:146-245 | A loaded model is shared; otherwise room is made, the model loaded and held once, or the failure reported with the cache as the eviction left it. |
| `ModelCache.ModelManager.ReleaseModel` | dalston/engine_sdk/model_manager.py:202-220 | Gives back one hold; releasing an unknown model does nothing. |
| `ModelCache.ModelManager.MaybeEvictForCapacity` | dalston/engine_sdk/model_manager.py:247-269 | Succeeds with room for one more, having removed at most the least recently used idle model; fails exactly when full with none idle, changing nothing. |
| `ModelCache.ModelManager.EvictExpiredModels` | dalston/engine_sdk/model_manager.py:313-329 | Removes exactly the idle models unused for longer than the lifetime. |
| `ModelCache.ModelManager.Shutdown` | dalston/engine_sdk/model_manager.py:331-348 | Unloads everything. |
| `ModelCache.NeverOverCapacity` | dalston/engine_sdk/model_manager.py:146-269 | In every run the number of loaded models stays within the limit, failed loads and unmatched releases included. |
| `ModelCache.RefCountsAreHolds` | dalston/engine_sdk/model_manager.py:146-220 | With matched releases each reference count is the number of outstanding holds. |
| `ModelCache.HeldModelsStay` | dalston/engine_sdk/model_manager.py:146-329 | While a model is held it stays loaded as the same object, and acquisitions return that object. |
| `ModelCache.CapacityErrorMeansAllHeld` | dalston/engine_sdk/model_manager.py:247-269 | Acquiring fails for capacity if and only if the model is not loaded, the cache is full and every loaded model is held. |
| `ModelCache.OnlyTheOldestIdleModelGoes` | dalston/engine_sdk/model_manager.py:247-329 | What disappears was idle; an acquisition removes one model, the least recently used; the timer only expired ones. |
| `ModelCache.LastUsedIsLatestUse` | dalston/engine_sdk/model_manager.py:169-200 | In every run, for every loaded model, the time of last use is that of its latest successful acquisition, and its object the one that acquisition returned. |
| `ModelCache.EvictedWasUsedFirst` | dalston/engine_sdk/model_manager.py:247-269 | What an acquisition evicts was last acquired no later than any other idle model. |
| `ModelCache.TimerEvictsTheUnused` | dalston/engine_sdk/model_manager.py:313-329 | The timer evicts a model if and only if it is idle and its latest acquisition is more than a lifetime ago. |
| `ModelCache.AcquisitionReturns` | dalston/engine_sdk/model_manager.py:146-245 | An acquisition returns what the loader returned if the model was not loaded, and otherwise what its latest acquisition returned. |
| `ModelPaths.RoundTripIffClean` | dalston/engine_sdk/disk_cache.py:308-316 | Decoding the directory name gives the id back if and only if the id is clean, for both cache layouts. |
| `ModelPaths.EncodeHasNoSlash` | dalston/engine_sdk/model_storage.py:166-170 | A directory name has no slash. |
| `DiskCache.DiskCacheEvictor.SkipLoaded` | dalston/engine_sdk/disk_cache.py:185-191 | Leaves out exactly the loaded entries and counts them. |
| `DiskCache.DiskCacheEvictor.TtlPass` | dalston/engine_sdk/disk_cache.py:195-219 | Removes exactly the entries that are too old and keeps the order of the others. |
| `DiskCache.DiskCacheEvictor.BudgetPass` | dalston/engine_sdk/disk_cache.py:228-250 | Removes the shortest prefix of the least-recently-used order that reaches the budget, or all of it. |
| `DiskCache.DiskCacheEvictor.SumSizes` | dalston/engine_sdk/disk_cache.py:253-257 | The recomputed total is the size of what was not evicted. |
| `DiskCache.DiskCacheEvictor.ScanAndEvict` | dalston/engine_sdk/disk_cache.py:174-268 | The two passes evict what `Evicted` says, remove just that from disk, and report the size that is left. |
| `DiskCache.OldIsUnusedForLong` | dalston/engine_sdk/disk_cache.py:195-219 | What goes for its age is exactly what is not loaded and was not used for more than the hours allowed, if they are limited. |
| `DiskCache.BudgetInBytes` | dalston/engine_sdk/disk_cache.py:222-224 | The budget is the given number of gigabytes of 1024 to the third bytes, rounded down. |
| `DiskCache.OnlyFinishedDownloadsGo` | dalston/engine_sdk/disk_cache.py:270-304 | A directory that has neither the Hugging Face prefix in that cache nor the download marker in the others is never evicted. |
| `DiskCache.SizesAreConserved` | dalston/engine_sdk/disk_cache.py:174-268 | Scanned size is evicted size plus the size left, and scanning again finds what was not evicted. |
| `DiskCache.EvictedIsNotLoaded` | dalston/engine_sdk/disk_cache.py:185-191 | Nothing whose decoded id is loaded is evicted. |
| `DiskCache.LoadedModelsStayOnDisk` | dalston/engine_sdk/disk_cache.py:185-191 | The directory of a loaded model with a clean id is never evicted; with another id it is not recognised. |
| `DiskCache.UncleanLoadedModelIsEvicted` | dalston/engine_sdk/disk_cache.py:308-316 | For every other id, in both layouts, some pass evicts the directory of that model although it is the one loaded. |
| `DiskCache.SafeOnDiskIffClean` | dalston/engine_sdk/disk_cache.py:174-316 | No pass ever evicts the directory of a loaded model, if and only if its id is clean. |
| `DiskCache.WhatStays` | dalston/engine_sdk/disk_cache.py:195-252 | An entry that stays and is not loaded is young enough, and then the budget, if there is one, is met. |
| `DiskCache.BudgetEvictsOldestFirst` | dalston/engine_sdk/disk_cache.py:228-250 | Whatever is evicted for space was used no later than any candidate that stays. |
| `DiskCache.BudgetEvictsNoMoreThanNeeded` | dalston/engine_sdk/disk_cache.py:228-250 | One eviction fewer would leave the cache over budget. |
| `DiskCache.SecondPassEvictsNothing` | dalston/engine_sdk/disk_cache.py:174-268 | A second pass on the same clock and loaded set evicts nothing. |
| `VadChunker.ForceSplit` | dalston/engine_sdk/vad.py:396-400 | The cut terminates, and makes one piece per multiple of the cap that lies in the segment. |
| `VadChunker.CapSegments` | dalston/engine_sdk/vad.py:384-400 | Short segments stay whole and long ones are cut. |
| `VadChunker.GroupSegments` | dalston/engine_sdk/vad.py:402-418 | The loop with its open group computes `Groups`. |
| `VadChunker.PiecesHoldTheSpeech` | dalston/engine_sdk/vad.py:384-400 | The pieces are in order, under the cap, cut only at multiples of it, and hold the same instants as the segments. |
| `VadChunker.GroupsHoldTheSpeech` | dalston/engine_sdk/vad.py:402-418 | The groups are in order, under the cap, hold all speech, start and end with a piece, and could not have taken the next piece. |
| `VadChunker.SplitSpeech` | dalston/engine_sdk/vad.py:344-448 | The three loops compute `Split`. |
| `VadChunker.SplitIsSplit` | dalston/engine_sdk/vad.py:344-448 | The chunks are in order, under the cap and not before the boundary; they begin at the boundary or in speech, and end at a segment's end or a multiple of the cap into one that is too long; none that was not clipped could have taken the next piece; they hold exactly what the groups that end past the slack hold from the boundary on. |
| `VadChunker.SpeechIsLostIffDrops` | dalston/engine_sdk/vad.py:420-448 | Speech after the boundary is left out if and only if a group ends within the slack after it. |
| `VadChunker.SplitHoldsPastSlack` | dalston/engine_sdk/vad.py:420-448 | Speech later than the slack after the boundary is never left out. |
| `VadChunker.ShortOpeningIsDropped` | dalston/engine_sdk/vad.py:420-448 | It happens: half a millisecond of speech at time zero gives no chunk. |
| `OomBackoff.HalvingsSuffice` | dalston/engine_sdk/base_transcribe.py:283-303 | Some number of halvings takes any cap down to the floor, so the pass bound below is finite. |
| `OomBackoff.CapIsHalved` | dalston/engine_sdk/base_transcribe.py:283-303 | After `n` reductions the cap is the first one divided by two to the `n`, or a minute if that is more. |
| `OomBackoff.TranscribeEngine.RunPass` | dalston/engine_sdk/base_transcribe.py:255-278 | A pass transcribes the chunks before the first one that fails, and reports where and how it failed. |
| `OomBackoff.TranscribeEngine.PassOrReturn` | dalston/engine_sdk/base_transcribe.py:233-303 | One round of the loop: it returns, or halves the cap down to the floor, remembers it and resumes at the chunk that failed. |
| `OomBackoff.TranscribeEngine.TranscribeChunksWithBackoff` | dalston/engine_sdk/base_transcribe.py:204-309 | Terminates within one pass more than the halvings to the floor, for every chunker and every fate of the chunks; returns the outcome of the run that the rows below are about; remembers each reduced cap once, in order, and keeps the last. |
| `OomBackoff.TranscribeEngine.EffectiveChunkCap` | dalston/engine_sdk/base_transcribe.py:413-418 | The smaller of the requested and the remembered cap. |
| `OomBackoff.TranscribeEngine.CacheChunkCap` | dalston/engine_sdk/base_transcribe.py:420-422 | Remembers the cap. |
| `OomBackoff.TranscribeEngine.ProcessChunked` | dalston/engine_sdk/base_transcribe.py:162-202 | Runs with the smaller of the requested and the remembered cap; the caps remembered over the life of the engine, all tasks together, each fall to at most half of the one before or to the floor; a normal return merges the transcripts. |
| `OomBackoff.LifetimeWritesAreFew` | dalston/engine_sdk/base_transcribe.py:162-202 | Over the life of an engine, whatever tasks it runs, the cap is remembered at most once more than the first one can be halved down to the floor. |
| `OomBackoff.StartIsProgress` | dalston/engine_sdk/base_transcribe.py:233-303 | Before every pass the chunks done so far are in order, end before the boundary, were transcribed, and hold all speech up to it but for the slack after earlier boundaries. |
| `OomBackoff.FinishedIsComplete` | dalston/engine_sdk/base_transcribe.py:204-309 | On a normal return all speech was transcribed once and in order, but for the slack after the boundaries resumed from. |
| `OomBackoff.OutcomesAreReal` | dalston/engine_sdk/base_transcribe.py:204-309 | A normal return reports the cap of the last pass; giving up for memory happens only at the floor and where a chunk ran out of memory; any other failure only where a chunk failed so. |
| `OomBackoff.RunsFollowPaths` | dalston/engine_sdk/base_transcribe.py:233-303 | Every boundary a run resumes from is the start of a chunk of the pass before. |
| `OomBackoff.PathsAreShort` | dalston/engine_sdk/base_transcribe.py:233-303 | No sequence of such boundaries is longer than the halvings to the floor and one. |
| `OomBackoff.LosslessIffNeverLoses` | dalston/engine_sdk/base_transcribe.py:204-309 | For any chunker that keeps order, cap and the speech past the slack: every normal return has transcribed all speech if and only if the chunker leaves out nothing wherever a pass can resume. |
| `OomBackoff.UnsafeLoses` | dalston/engine_sdk/base_transcribe.py:204-309 | Where it does leave something out, there is a run that returns normally without that speech. |
| `VadBackoff.ChunkerFits` | dalston/engine_sdk/vad.py:344-448 | The VAD chunker is such a chunker, for all speech in order. |
| `VadBackoff.LosslessIffNeverDrops` | dalston/engine_sdk/base_transcribe.py:204-309 | Every normal return has transcribed all detected speech if and only if no pass that can be made finds a group ending in its slack: a condition on the segments and the cap. |
| `VadBackoff.OrdinarySpeechIsLossless` | dalston/engine_sdk/base_transcribe.py:204-309 | Segments from time zero on, longer than the slack and no longer than both the cap and the floor, are transcribed in full whatever runs out of memory. |
| `VadBackoff.FirstPassCanLose` | dalston/engine_sdk/base_transcribe.py:204-309 | If a group ends in the slack after time zero, some run returns normally without its speech. |
| `VadBackoff.ShortOpeningIsLost` | dalston/engine_sdk/base_transcribe.py:204-309 | It happens: half a millisecond of speech at the start is detected and not transcribed. |
| `OomBackoff.MergedSegmentsAreOrdered` | dalston/engine_sdk/base_transcribe.py:311-406 | After a normal return the merged segments are in time order, each within the time of its chunk, to the millisecond, and with its words inside it, if each chunk's own transcript is. |
| `TranscriptMerge.MergeChunkTranscripts` | dalston/engine_sdk/base_transcribe.py:311-407 | The loops over chunks, segments and words compute `Merge`. |
| `TranscriptMerge.MergeKeepsTokens` | dalston/engine_sdk/base_transcribe.py:340-402 | The tokens of the merged text are those of the chunks' texts, in order. |
| `TranscriptMerge.WarningsAreKeptOnce` | dalston/engine_sdk/base_transcribe.py:340-402 | The merged warnings are exactly those of the chunks, each once. |
| `TranscriptMerge.NewInOrder` | dalston/engine_sdk/base_transcribe.py:363-366 | New warnings follow those known, in the order they come. |
| `TranscriptMerge.WarningsStayInFront` | dalston/engine_sdk/base_transcribe.py:357-366 | The warnings of the first chunks are the first warnings. |
| `TranscriptMerge.SegmentsAreRecovered` | dalston/engine_sdk/base_transcribe.py:340-402 | Each chunk's segments, words and texts included, are one stretch of the merged ones, later by the chunk's offset to half a millisecond; for an offset of whole milliseconds, shifting back gives a segment again if and only if its times are whole. |
| `TaskStream.Stream.Add` | dalston/common/streams.py:77-120 | Appends one message. |
| `TaskStream.Stream.AddOnce` | dalston/common/streams.py:123-205 | Appends and sets the key, or does neither. |
| `TaskStream.Stream.Read` | dalston/common/streams_sync.py:71-116 | Delivers the next message never delivered and makes the reader its owner. |
| `TaskStream.Stream.ReadOwn` | dalston/common/streams_sync.py:119-163 | Redelivers the consumer's own oldest pending message. |
| `TaskStream.Stream.Pendings` | dalston/common/streams_sync.py:166-219 | The first thousand pending messages in order, with their owners. |
| `TaskStream.Stream.ClaimById` | dalston/common/streams_sync.py:222-267 | Takes a message over if it is still pending, from anyone. |
| `TaskStream.Stream.Claimable` | dalston/common/streams_sync.py:371-393 | Collects, in order, exactly the first `count` messages of the page that are idle long enough and whose owner is dead; one even for a count below one. |
| `TaskStream.Stream.Ack` | dalston/common/streams_sync.py:300-312 | Ends a pending message, whoever owns it. |
| `TaskStream.FirstStale` | dalston/common/streams_sync.py:353-393 | A stale message of the page is found if there is one. |
| `TaskStream.FirstStaleIsFirst` | dalston/common/streams_sync.py:353-393 | What the runner is given is the first of the stale messages, or none if there is none. |
| `TaskStream.Runner.ReceiveMessage` | dalston/engine_sdk/runner.py:600-644 | A dead engine's task first, else the runner's own deferred one, else a new one. |
| `ReceiveOrder.PageShows` | dalston/common/streams_sync.py:166-219 | A pending message is on the page if and only if fewer than a thousand are pending before it; the page shows its owner and the time since it was last delivered. |
| `ReceiveOrder.PollOrder` | dalston/engine_sdk/runner.py:600-644 | A poll receives the lowest stale message of the page: pending, not delivered for ten minutes, its owner without heartbeat; else the consumer's own lowest; else the next never delivered; else nothing. What it receives is then its own, just delivered, once more than before, and nothing else changes. |
| `ReceiveOrder.CommandsHandOver` | dalston/common/streams_sync.py:71-267 | Claiming, re-reading and reading each make the message the consumer's, just delivered, and change nothing else. |
| `ReceiveOrder.HandingOverResetsIdle` | dalston/common/streams_sync.py:353-393 | A message just handed over is not stale for anyone until ten minutes later. |
| `TaskStream.Runner.PollAndProcess` | dalston/engine_sdk/runner.py:587-740 | What was received is acknowledged unless it was deferred, and the current message is cleared. |
| `Delivery.StepKeepsAccounted` | dalston/common/streams_sync.py:71-393 | Every step keeps each message in exactly one of undelivered, pending and acknowledged. |
| `Delivery.StepKeepsNoHoarding` | dalston/engine_sdk/runner.py:600-644 | Every step keeps: a runner about to read new work owns nothing pending, and owns at most one message it read fresh. |
| `Delivery.StepKeepsDeduplicated` | dalston/common/streams.py:123-205 | Every step keeps: a key was enqueued once, plus once for each time it expired. |
| `Delivery.RunsKeepInv` | dalston/engine_sdk/runner.py:587-740 | All invariants hold after every interleaving of any number of producers, runners, crashes and expiries. |
| `Delivery.NoTaskIsLost` | dalston/engine_sdk/runner.py:587-740 | Each message is in exactly one place, and acknowledged only after a terminal outcome. |
| `Delivery.DoneMeansFinished` | dalston/engine_sdk/runner.py:663-740 | A terminal outcome is some runner holding the message and finishing it otherwise than by deferral. |
| `Delivery.AckIsFinal` | dalston/common/streams_sync.py:300-312 | An acknowledged message stays so and is never pending again. |
| `Delivery.NoConsumerHoards` | dalston/engine_sdk/runner.py:600-644 | In every reachable state a consumer has at most one unacknowledged message that it read fresh. |
| `ReceiveOrder.OnlyTheStaleIsClaimed` | dalston/common/streams_sync.py:353-393 | In every run, a runner about to claim a message polled when it had not been delivered for ten minutes, and found its owner of then without heartbeat. |
| `ReceiveOrder.EmptyPollMeansNothingLeft` | dalston/engine_sdk/runner.py:600-644 | In every run, a poll comes back with nothing only when no message is left to deliver and the consumer has nothing pending. |
| `ReceiveOrder.EnqueuedExactlyOnce` | dalston/common/streams.py:123-205 | However often a key is enqueued, while it does not time out the stream has exactly one entry for it. |
| `ReceiveOrder.PlainEnqueueAdds` | dalston/common/streams.py:77-120 | An enqueue without a key adds its task at the end, whatever is in the stream. |
| `Delivery.UndisturbedPoll` | dalston/engine_sdk/runner.py:600-644 | The steps of one runner with nothing in between are the sequential poll of `TaskStream`. |
| `Delivery.EveryTaskCanBeFinished` | dalston/engine_sdk/runner.py:587-740 | From every reachable state every message can still be brought to acknowledgement. |
| `Delivery.TwoRunnersCanHoldOneTask` | dalston/common/streams_sync.py:353-393 | Whenever two idle runners face a dead engine's task, a run exists after which both hold it and the second owns it. |
| `Delivery.ExclusiveIffNoSteal` | dalston/common/streams_sync.py:353-393 | For every run from the start: at most one runner holds a message at every moment, if and only if no claim takes a pending message that another runner has in hand. |
| `Delivery.CarefulRunsAreExclusive` | dalston/common/streams_sync.py:315-393 | A condition without what others have in hand: names are not reused, consumers that are up have a heartbeat when their messages are inspected, and no one claims what another's page names; then no claim takes a message out of someone's hands, and there is never a second holder. |
| `Delivery.TwoHoldersAreReachable` | dalston/common/streams_sync.py:353-393 | A run from the start, for any two runners, that ends with both holding the one task. |
| `DeadLetter.EventStreams.AddEventToDlq` | dalston/common/durable_events.py:473-512 | Writes one entry; the stream may trim its oldest ones, but not below its maximum length. |
| `DeadLetter.EventStreams.AckEvent` | dalston/common/durable_events.py:425-434 | Removes the event from the pending list. |
| `DeadLetter.EventStreams.MoveEventToDlq` | dalston/common/durable_events.py:515-550 | At whatever command the process stops, the event is still pending or already written; when it completes, written and no longer pending. Its effect after each command is `Moved`. |
| `DeadLetter.RunsKeepInv` | dalston/common/durable_events.py:425-550 | With any number of workers crashing, also between handling an event and acknowledging it, retrying and claiming each other's events, a delivered event is pending, handled or was written, and the stream is trimmed only down to its maximum length. |
| `DeadLetter.NoEventIsLost` | dalston/common/durable_events.py:425-550 | Every event ever delivered is pending, handled or in the dead-letter stream, unless its entry was trimmed off; then the stream holds its maximum length of newer ones. |
| `DeadLetter.DlqEntriesHaveASource` | dalston/common/durable_events.py:437-512 | Every dead-letter entry names an event that was delivered. |
| `DeadLetter.EntriesAreExplained` | dalston/common/durable_events.py:437-512 | Every dead-letter entry has the id, payload and deliveries of an event that was delivered, its type or "unknown", and the reason and error of a write. |
| `DeadLetter.MoveIsWriteThenAck` | dalston/common/durable_events.py:515-550 | A move stopped anywhere is a prefix of the worker's write and acknowledgement steps. |
| `Registry.UnifiedEngineRegistry.RegisterEngine` | dalston/common/registry.py:377-392 | Writes the hash and the three index sets; `RegistryCommands` takes its commands apart. |
| `Registry.UnifiedEngineRegistry.SendHeartbeat` | dalston/common/registry.py:401-480 | Overwrites the given fields, re-creating an expired hash with just those. |
| `Registry.UnifiedEngineRegistry.DeregisterEngine` | dalston/common/registry.py:482-499 | Removes the hash and the index entries it names; an expired hash names none. `RegistryCommands` takes its commands apart. |
| `Registry.UnifiedEngineRegistry.MarkInstanceOffline` | dalston/common/registry.py:630-634 | Sets the status and nothing else. |
| `Registry.UnifiedEngineRegistry.Collect` | dalston/common/registry.py:501-539 | The reads return the records of exactly the live members of the index set. |
| `Registry.RegisterThenRead` | dalston/common/registry.py:232-392 | Reading undoes registering, except that an empty engine id gives no record; all three listings have the record, and other instances read as before. |
| `Registry.HeartbeatThenRead` | dalston/common/registry.py:401-480 | What a heartbeat sets is read back; what it leaves out reads as before, or as missing if the key had expired; other instances read as before. |
| `Registry.OfflineAndGone` | dalston/common/registry.py:482-634 | A record marked offline reads offline and is otherwise as before; after deregistering no read returns it; other instances read as before. |
| `Registry.DeregisterKeepsIndexed` | dalston/common/registry.py:482-499 | Deregistering keeps the indexes sound, also when the hash has expired and its entries stay behind. |
| `Registry.RunsKeepIndexed` | dalston/common/registry.py:377-499 | In every disciplined run the index sets hold every registered instance under its own engine and stage and no other. |
| `Registry.IndexesAgreeWithScan` | dalston/common/registry.py:501-539 | After every disciplined run the three reads return exactly the live records with that field. |
| `Registry.LateHeartbeatHidesARecord` | dalston/common/registry.py:401-539 | From every state, a heartbeat of an instance that is not registered makes a record that a scan finds and the full listing misses; the listings by engine and by stage find it exactly if an entry was left behind. |
| `Registry.ListingIsExactIffDisciplined` | dalston/common/registry.py:377-539 | The full listing is the full scan after every prefix of a run, if and only if every heartbeat in it comes between registration and deregistration. |
| `RegistryCommands.RunsKeepPlaced` | dalston/common/registry.py:377-499 | Command by command, every interleaving, with processes that stop midway and register again, keeps each instance's hash and index entries where its progress says. |
| `RegistryCommands.SettledInstancesAgree` | dalston/common/registry.py:377-539 | However the commands of all instances, offline marks and expiry interleave, the three listings agree with a full scan on every instance not in the middle of registering or deregistering. |
| `RegistryCommands.QuietListingsAreExact` | dalston/common/registry.py:377-539 | With none in the middle, the three listings are exact. |
| `RegistryCommands.RegisteringIsHidden` | dalston/common/registry.py:377-392 | In the middle they need not: right after the first command of a registration the record can be read but is not listed. |
| `RegistryCommands.UndisturbedRegister` | dalston/common/registry.py:377-392 | The commands of a registration with nothing in between are the operation. |
| `RegistryCommands.UndisturbedDeregister` | dalston/common/registry.py:482-499 | The same for deregistration. |
| `Sorting.SortSorts` | dalston/common/transcript.py:739 | The model of `sorted` yields a sorted permutation. |
| `Sorting.SortOfSorted` | dalston/common/transcript.py:823 | Sorting a sorted list changes nothing. |
| `Sorting.SortIsStable` | dalston/common/transcript.py:739 | Elements that compare equal keep their order. |
| `Sorting.SortFilters` | dalston/engine_sdk/diarize_chunking.py:430 | Sorting what a test keeps is keeping it of what was sorted. |

## Left out

- Float rounding: `transcript.py`, `vad.py` and `base_transcribe.py` compute in floats; the model is exact.
- Turns and segments are assumed to end no earlier than they start only where a lemma says so (`WordSplit.UnambiguousWord`, `ChunkMerge.MergedIsProper`); the request models of the repository enforce only that times are not negative.
- VadChunker.SplitSpeech: does not model the rounding of chunk ends to audio samples, the files written or the speech detector; a group of segments is represented by its first start and last end.
- OomBackoff.TranscribeEngine.TranscribeChunksWithBackoff: an error other than running out of memory is a result here and an exception in the code; metrics and spans are left out.
- TranscriptMerge.MergeChunkTranscripts: the language, confidence, channel and engine of the merged transcript, the wording of the warning for an empty one, and the optional fields of words and segments are not modelled; they are copied, or averaged, and nothing depends on them.
- OomBackoff.TranscribeEngine.ProcessChunked: one task at a time per engine; concurrent tasks could interleave writes of the remembered cap.
- ModelCache.ModelManager.AcquireModel: entries are values in a map and not objects, so what a caller keeps is the identity `model`; each method runs under the lock; ties between equally old idle models are broken arbitrarily.
- DiskCache.DiskCacheEvictor.ScanAndEvict: file sizes and access times are read once per entry and removal always succeeds; directory order is the order of the list.
- TaskStream.Stream.Pendings: reads at most one page of a thousand messages, as the code does, so a stale message behind it is not seen; nothing is claimed about claiming beyond it.
- TaskStream.Stream.AddOnce: the lifetime of a key is a separate step that may happen at any time.
- Message deletion, blocking reads, parsing of message fields and lost connections of the stream client.
- Delivery.NoTaskIsLost: says that a terminal outcome precedes the acknowledgement, not that its event was published; publishing gives up after five tries.
- DeadLetter.EventStreams.MoveEventToDlq: claiming of stale events page by page.
- Registry.UnifiedEngineRegistry.RegisterEngine: the method is one step here, and command by command in `RegistryCommands`; the fields other than engine id, stage and status are not modelled.
- Registry.UnifiedEngineRegistry.DeregisterEngine: likewise one step here, and command by command in `RegistryCommands`.
- RegistryCommands.SettledInstancesAgree: a heartbeat runs only between registration and deregistration; the lifetime set by a separate command is part of expiry, which may happen at any time.
- Registry.IndexesAgreeWithScan: the filters of `get_available` and the synchronous writer of the same keys.
- Speaker linking by embeddings, clustering, audio extraction and the diarizer itself.
- The choice between direct and chunked transcription, and the adaptive batch size.
- Assembly of the final transcript around the split, known speaker names, pipeline warnings and persistence.
- Logging, metrics, telemetry, HTTP servers, configuration and the web console.
