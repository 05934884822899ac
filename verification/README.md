# Loreline: what its hard parts promise, proved

Loreline records conversations and turns them into labelled transcripts. This project models
the parts of it that are easy to get wrong and proves what they promise, for every input and
every run.

- **The diarization service** remembers the voices of each session. `Matching`, `Voices`,
  `VoiceLaws` and `VoiceHistory` say what one call does to one session's voices and what any run
  of calls keeps; `SpeakerBank` is the object that does it in place; `SessionCache` is the
  swept, capped dictionary of sessions against a map that never forgets, and `SessionBanks` the
  objects in it; `CallLabels` is the numbering the transcript shows. `MatchOrder` and
  `TieBreaks` say what listing order has to do with the matching, `VoiceGeometry` that scores are
  cosines, and `VoiceMeaning` that a voice is the running mean of what was heard of it.
  `WorkerProtocol` is the concurrent side, a step relation over request threads, the slot, the
  pipe lock, a child process that may exit at any moment and the shutdown; `ReadinessLimits`
  says exactly when its readiness invariant holds, `ReadinessMeaning` what readiness and each
  response status mean, and `ChildLifetimes` what becomes of the children.
- **The subtitle compiler** turns rows into cues. `SubtitleWords` and `SubtitleTokens` align a
  provider's timed words with the text, and `WordAlignment` says when those words are used at all;
  `SubtitlePacking` groups words into runs, and
  `PackingLimits` and `FewestCues` say exactly when into the fewest. `SubtitleText` and
  `Subtitles` show that no word is lost, `SubtitleCuts` says in characters and seconds where a row
  is cut, `SubtitleLayout` lays cues out one after another, and
  `Timestamps` prints their times (WebVTT, section 4.1).
- **The chunker** cuts utterances out of a stream of frames. `Chunker` proves the streaming
  object against an account of the whole stream; `SpeechIndex` runs it over a recording, and
  `ChunkerLaws` says what every segmentation promises.
- **The bounded feeds**: `LiveFeed` (a pane's keyed, capped buffer), `Queues` and `EventBus`
  (drop-oldest queues and the bus over them) and `LogFeed` (the replay-then-follow log socket).
- **The log demultiplexer**: `Demux`.

Code that changes state is modelled by classes and methods with loops, each proved against a
value-level specification; what the program promises is then proved of that specification.
Times and similarities are real numbers.

Where the code and its documentation disagree, the model follows the code:

- The readiness invariant (`services/diarization/app.py:1175-1183`) holds only with one request
  thread, or while no child exits and nobody shuts down: `ReadinessLimits.ReadinessHoldsIff`.
- `aclose` does not let every reader have everything already published
  (`src/loreline/bus.py:64-65`): the queue may be full, or fill up before the reader comes.
  `Queues.CloseKeepsPendingIff` and `Queues.CloseHandsAllIff` say exactly when. Nor does every
  reader stop: `Queues.CloseIsLostIff` and `Queues.CloseReachesReaderIff`.
- A split row's first start and last end can be interpolated
  (`src/loreline/export.py:251-252`, `373-374`): `Subtitles.OwnEndsIff` and
  `Subtitles.SpaceMovesFirstStart`.
- The capped feed differs from the uncapped one when the history holds a key twice, and after a
  path change; `LiveFeeds.FollowsIff` says exactly when.
- A printed cue that starts before zero can be shorter than a tenth of a second, or have no
  length at all: `Timestamps.PrintedLengthIff` and `Timestamps.PrintedEndsAfterIff`.
- The chunker's hard cap is exceeded where it is shorter than the pre-roll and one frame:
  `ChunkerLaws.LimitIsHardIff`.

## Model

| member | source | states |
|---|---|---|
| Matching.GreedyIsStable | services/diarization/app.py:324-333 | the pass over the sorted pairs gives a one-to-one matching of eligible pairs in which every eligible pair left out has its cluster or its voice held by a pair at least as similar |
| Matching.GreedyStopsAtThreshold | services/diarization/app.py:327-328 | stopping at the first pair below the threshold loses nothing: the rest of the list would add no pair |
| Matching.StableIsUnique | services/diarization/app.py:313-333 | without ties among eligible pairs there is one stable matching only, so greedy is not one choice among several |
| Matching.MatchIgnoresOrder | services/diarization/app.py:324-333 | for two sorted pair lists one of which renames the clusters and voices of the other, without eligible ties: the matchings rename the same way |
| MatchOrder.MatchedIgnoresOrder | services/diarization/app.py:313-333 | a call with its clusters, a bank with its voices, listed in any other order: without eligible ties the same clusters are matched to the same voices |
| TieBreaks.TiesGoToTheEarlier | services/diarization/app.py:315-333 | with ties: an eligible pair is matched, or its cluster or voice is matched at a higher similarity, or at the same one to a pair listed no later, cluster by cluster and voice by voice |
| Matching.GreedyWithinTwiceOfBest | services/diarization/app.py:313-333 | any one-to-one assignment of eligible pairs has at most twice the pairs, and for a non-negative threshold at most twice the total similarity |
| Voices.MatchedIsStable | services/diarization/app.py:313-333 | the two facts for the table a call really builds: every vector against every centroid as the call found it |
| SpeakerBank.AssignGreedily | services/diarization/app.py:324-333 | the loop over a dictionary and a `taken` set is the greedy matching, entries in the order made |
| SpeakerBank.Match | services/diarization/app.py:313-333 | `_match`: the dictionary holds exactly the matched pairs of this call |
| Sorting.SortInOrder | services/diarization/app.py:315-323 | the list sorted is in order under any total preorder |
| Sorting.SortStable | services/diarization/app.py:315-323 | ties keep the order they were listed in, as Python promises of `sorted`, reversed or not |
| Sorting.SortIsTheOne | services/diarization/app.py:315-323 | whatever is in order, a permutation of the list, and keeps its ties in their order, is this list |
| VoiceLaws.LabelsDistinctExactlyWhenRoom | services/diarization/app.py:239-289 | with n voices before and cap c the labels of a call are pairwise distinct if and only if there are at most max(n, c) of them, always when uncapped; the bank ends with n voices if n >= c, else with min(c, n + reliable unmatched clusters) |
| VoiceLaws.EveryClusterAccounted | services/diarization/app.py:275-280 | what becomes of each cluster: matched at or above the threshold; unreliable and unmatched, no label; otherwise a voice of its own below the cap, and at the cap the most similar voice nobody in the call holds, while one is free, the earliest of ties |
| VoiceLaws.PlacedExtends | services/diarization/app.py:275-280 | later clusters of a call change neither the labels given nor the voices opened before |
| Voices.FoldedAt | services/diarization/app.py:269-271 | a voice moves at most once a call, by the one reliable cluster matched to it, from where the call found it |
| Voices.Nearest | services/diarization/app.py:349 | the answer of `max`: no candidate is more similar, and no earlier one as similar |
| Voices.Candidates | services/diarization/app.py:347-348 | the voices nobody holds, or all of them only when nobody is free |
| SpeakerBank.Voice.Observe | services/diarization/app.py:200-205 | coordinate by coordinate: the new centroid is, over its norm unless that is zero, min(count, 20) times the old one plus the embedding; the count is one more |
| SpeakerBank.Bank.CheckWidths | services/diarization/app.py:291-306 | reports the first embedding that cannot be compared with the bank, if and only if there is one; an empty bank takes any |
| SpeakerBank.Bank.ObserveMatches | services/diarization/app.py:269-271 | observing matches one after another in place gives what scoring them all first would: nothing is scored against a moved centroid |
| SpeakerBank.Bank.Open | services/diarization/app.py:335-351 | a new last voice, or a forced one; in either case it is taken for the rest of the call |
| SpeakerBank.Bank.Resolve | services/diarization/app.py:239-280 | the whole call on the object: labels and voices are those of the specification, voices are only appended; on a width mismatch nothing changes and both widths are reported |
| VoiceHistory.BankAfterCall | services/diarization/app.py:264-280 | a voice the call found is unmoved, or moved by the one reliable cluster that met the threshold against it; a voice it did not find was opened by a reliable, unrecognised cluster. Forced and unreliable clusters move nothing |
| VoiceGeometry.CentroidsAreUnit | services/diarization/app.py:172-177 | with a true square root, every centroid of every reachable bank has unit length or is all zero |
| VoiceGeometry.ScoresAreCosines | services/diarization/app.py:180-190 | so each score a call is matched on lies between -1 and 1 |
| VoiceMeaning.VoiceIsRunningMean | services/diarization/app.py:200-205 | after any run of calls a voice of count n has n embeddings behind it and stands where their running mean does: the first as scaled, then each against min(k, 20) times the mean of the k before it |
| VoiceMeaning.ObservedCosines | services/diarization/app.py:200-205 | with a true square root: from a unit centroid and a unit embedding at cosine x, weight w gives a centroid at cosines (w + x)/n and (wx + 1)/n to the two, n the length of the sum; for w >= 1 it never ends nearer the embedding than the centroid it was |
| Voices.MatchThreshold | services/diarization/app.py:308-311 | the plain threshold, unless the caller expects more voices than there are; then the stricter of a tenth more and 0.9 that is lower |
| Voices.Cap | services/diarization/app.py:282-289 | a bound stated by the call wins, never below one; otherwise the default if positive; otherwise none |
| VoiceHistory.VoiceIsItsHistory | services/diarization/app.py:239-351 | after any run of calls, refused ones among them, every voice is exactly the replay of one opening embedding followed by reliable embeddings that met the threshold against it when their call began, at most one a call, in call order |
| VoiceHistory.VoicesAreAppendOnly | services/diarization/app.py:335-346 | over any run, refused calls among them, ids are stable: the embeddings that explain voice s after j calls explain it after all of them, with only embeddings of later calls added behind; its weight counts them |
| VoiceHistory.BankStaysUnderCap | services/diarization/app.py:282-289 | if every call of a run is capped at M or less the bank never holds more than M, refused calls or not |
| CallLabels.LocalLabels | services/diarization/app.py:1390-1399 | the dictionary numbers the clusters from 0 without gaps, in the order of first appearance |
| CallLabels.NumberCountsEarlier | services/diarization/app.py:1390-1399 | a cluster is numbered by how many distinct others spoke before it first did |
| CallLabels.SessionLabels | services/diarization/app.py:1402-1442 | the call sent to the bank carries, k-th, the vector and flag of the k-th cluster that spoke and was embedded, by first appearance; a cluster is in the answer if and only if the bank labelled it, with the id given at its own place; with no such cluster the session memory is not touched |
| CallLabels.FirstAppearanceIsOne | services/diarization/app.py:1424-1427 | only one list holds exactly the clusters that spoke and were embedded, each after those that had spoken before it |
| CallLabels.SessionLabelsDistinctIff | services/diarization/app.py:1402-1442 | in any answer so made two clusters share a speaker if and only if there are more labelled clusters than max(n, c) |
| SessionCache.SweepDropsPrefix | services/diarization/app.py:429-432 | the idle sweep removes a prefix of the dictionary: exactly the entries last used before the cutoff |
| SessionCache.ApplyIsTidy | services/diarization/app.py:397-432 | every call keeps the keys distinct, the order the order of last use and the size within the cap; the cap loop of a resolve removes at most one entry, the first |
| SessionCache.ResolveMeans | services/diarization/app.py:397-422 | one resolve entry by entry: its session goes on from its bank if used no longer ago than the TTL, and from an empty one otherwise; any other live entry stays unless the cap is full of ones used as lately; nothing else is there |
| SessionCache.RunIsTidy | services/diarization/app.py:397-432 | so does every run with a monotone clock, and each entry carries the time of a real use |
| SessionCache.LiveSessionKeepsItsBank | services/diarization/app.py:397-432 | a session not deleted, idle no longer than the TTL and with fewer than `max_sessions` others resolved since answers from the very bank its last call left |
| SessionCache.RefinesUnbounded | services/diarization/app.py:397-432 | to a session that is live whenever it is resolved, the swept and capped dictionary cannot be told from a map that never forgets |
| SessionBanks.Memory.Sweep | services/diarization/app.py:429-432 | the loop of deletions leaves what one pass of filtering would |
| SessionBanks.Memory.EvictOldest | services/diarization/app.py:415-416 | the loop leaves the newest `max_sessions` entries |
| SessionBanks.Memory.Resolve | services/diarization/app.py:397-422 | sweep, pop, re-insert, evict and resolve on shared objects change the dictionary, and only this session's bank, as the specification says; the answer comes from the bank the session was live with |
| SessionBanks.Memory.Delete | services/diarization/app.py:424-427 | true if and only if the session was remembered; only its entry goes |
| WorkerProtocol.EveryStateIsSound | services/diarization/app.py:1093-1153 | every reachable state of every interleaving: each lock is held by exactly the thread whose place says so, and the conversation on the pipe belongs to the thread that holds it |
| WorkerProtocol.AnswersReachTheirCaller | services/diarization/app.py:1093-1114 | across callers, child deaths and `close`, an answer a caller gets is one the child gave to that caller's own request, and no other caller has that request out |
| WorkerProtocol.FreePipeIsSilent | services/diarization/app.py:1100-1113 | whenever the pipe lock is free nothing is asked or owed on the kept connection |
| WorkerProtocol.OneDiarizationAtATime | services/diarization/app.py:509-528 | at most one request is anywhere between taking the slot and giving it back |
| ChildLifetimes.NoChildIsLost | services/diarization/app.py:1116-1153 | until a shutdown reads which child to end, every open connection is the kept one or in the hands of the thread that holds the pipe, to be published or ended; with the pipe free it is the kept one |
| ChildLifetimes.ShutdownEndsTheGrown | services/diarization/app.py:1070-1091 | after a shutdown, of the children published before it read which to end only one can be running: the one the thread on the pipe is about to end |
| ChildLifetimes.QuietShutdownEndsAll | services/diarization/app.py:1070-1091 | a shutdown that reads while nobody is on the pipe leaves no child, then or ever after |
| ChildLifetimes.StartingOutlivesShutdown | services/diarization/app.py:1013-1015 | the race that is left: for any thread, a run that leaves a child in the middle of being started up and running once the shutdown is through |
| ChildLifetimes.CallKeepsItsChild | services/diarization/app.py:1093-1135 | from any reachable state, a thread not on the pipe loses no child in any continuation without a child exit and a step of a shutdown: a child that had exited before is never sent to |
| ChildLifetimes.WaitsMayEnd | services/diarization/app.py:514-528 | what each wait allows: a busy slot, to wait or 429; a busy pipe, to wait or, for a check only, to give up; a remembered failure, 503 at once or a new check; an exited child, to show on the send or on the receive |
| WorkerProtocol.ReadyWhileDiarizing | services/diarization/app.py:1175-1183 | with no child exit and no close: while a request is past its readiness check the service is ready, nobody else in the worker is a probe, nobody is on the way to a `WorkerUnavailableError`, and no next step makes it unready |
| ReadinessMeaning.BeliefIff | services/diarization/app.py:1195-1217 | in every reachable state: the service is ready if and only if the last word on the models, since a lost child was last reported, is a child's `Loaded` to some thread's own readiness check; and it remembers a failure if and only if the last word is another answer to one |
| ReadinessMeaning.ChecksAlwaysNeeded | services/diarization/app.py:1199-1206 | nobody asks the worker about the models while the service is ready |
| ReadinessMeaning.CheckDecides | services/diarization/app.py:1195-1217 | what its own answer does to a thread: on `Loaded` the service is ready, a probe is answered 200 and a diarize request goes on to the slot; on any other answer the service is not ready, the failure is remembered and the request is answered 503 |
| ReadinessMeaning.StatusMeans | services/diarization/app.py:1250-1286 | what each status says, over every run: 200 that the service was ready (a probe) or that the child answered this very request; 429 that another thread had the slot; 500 that the child raised on this diarization; 503 that a failure was remembered, or that the child told this request so, or that nothing is believed of the models any more |
| ReadinessLimits.ReadinessHoldsIff | services/diarization/app.py:1175-1183 | exactly when the invariant holds: for any set of request threads, whoever is past the readiness check, or diarizing in the worker, finds the service ready in every reachable state, if and only if there is at most one thread, or no child exit and no close can happen |
| ReadinessLimits.ChildExitBreaksReadiness | services/diarization/app.py:1175-1183 | a run for any two threads in which a child exits under one diarization and the queued one enters the worker while ready is false |
| ReadinessLimits.ShutdownBreaksReadiness | services/diarization/app.py:1070-1091 | the same through `close`, with no child exit: the first request is turned away, its error unlearns readiness, the second enters |
| ReadinessLimits.AloneStaysReady | services/diarization/app.py:1195-1217 | a single request thread finds the service ready past its check whatever the child and the shutdown do |
| SubtitleWords.LeftmostStep | src/loreline/export.py:230 | taking the leftmost place after the cursor stays leftmost among all placements; where there is none, no placement of that many words exists |
| SubtitleWords.WordSpans | src/loreline/export.py:214-243 | all non-blank words are placed if and only if some in-order, non-overlapping placement of them all exists and the clock check passes, and then each as far left as any placement has it; otherwise none is |
| WordAlignment.WordsAreUsedIff | src/loreline/export.py:224-243 | said without the functions: the words are those not blank, trimmed, with their own times; they are used if and only if there are any, all of them are in the text one after another, the first starts at most half a second before the row and the last ends at most half a second after it; and then each is as far left as any such placing has it |
| SubtitleWords.AlignedInOrder | src/loreline/export.py:224-243 | the spans are non-empty, disjoint, in order, and each reads exactly its word |
| SubtitleWords.AlignedIsOne | src/loreline/export.py:214-243 | the contract leaves one answer for each row |
| SubtitleTokens.AllPiecesIff | src/loreline/export.py:266 | the matches of `\S+`: the one list of maximal stretches without space, in order, that covers every character that is none |
| SubtitleTokens.PointersAreScan | src/loreline/export.py:268-278 | the two pointers stand at the first and past the last placed word lying wholly inside the token |
| SubtitleTokens.Tokens | src/loreline/export.py:260-279 | one pass gives each token what a search through all spans would: first start and last end inside it, or the interpolated guess when none is inside |
| SubtitlePacking.EndsSentenceIff | src/loreline/export.py:282-283 | a word ends a sentence if and only if it has an end mark with nothing but closers after it |
| SubtitlePacking.Pack | src/loreline/export.py:286-311 | the loop gives the greedy packing: runs in order, each of several words within both limits, a sentence end only last, and none closed before it had to be |
| SubtitlePacking.PackingIsPartition | src/loreline/export.py:286-311 | a packing is exactly a list of proper runs whose concatenation is the tokens |
| SubtitlePacking.GreedyIsOne | src/loreline/export.py:286-311 | there is one greedy packing, whatever the times |
| SubtitlePacking.GreedyIsFewest | src/loreline/export.py:286-311 | no packing has fewer runs where no word overtakes: that is, where there are no words i < j < k, k not the last, with k starting before j, a run from j having room for k and the next, and a run from i having room up to k but not k itself, or i starting before j |
| SubtitlePacking.InOrderIsNotOvertaken | src/loreline/export.py:286-311 | starts that do not decrease are such a case |
| PackingLimits.AlwaysFewestIff | src/loreline/export.py:286-311 | given where a text has its words, when they start and the budget, greedy has the fewest runs for every choice of ends and every such text if and only if no word overtakes |
| PackingLimits.ClockAlone | src/loreline/export.py:300-302 | where the budget holds the whole text, this takes a word that starts later than one before it and later than one after it, the last word aside, and nothing less |
| FewestCues.RowIsFewest | src/loreline/export.py:314-318 | a row none of whose words overtakes, timed or guessed or both, is split into as few runs as can be |
| FewestCues.BackwardStartsCostARun | src/loreline/export.py:300-302 | a row with word times as a provider may send them, aligned and scanned, whose greedy packing takes a run more than another |
| Subtitles.GuessedStartsInOrder | src/loreline/export.py:246-257 | rows without usable word times have starts in order, so the packing of such a row is one with the fewest cues |
| Subtitles.TimedStartsInOrder | src/loreline/export.py:260-279 | as do rows whose every word got a time from words timed in order |
| Subtitles.RowKeepsWords | src/loreline/export.py:314-328 | behind the label a row's cues say its words, each once and in order; a row of one run is one cue with the row's very text and times |
| SubtitleText.SliceWords | src/loreline/export.py:326 | the text from one word's beginning to another's end has exactly the words between |
| Subtitles.SplitCuesFit | src/loreline/export.py:316-318 | a cue of a split row is a single word, or is no longer than max(84, label + 24) characters and 7 seconds |
| Subtitles.OwnEndsIff | src/loreline/export.py:373-374 | exactly when a split row starts at the row's own start: where the provider timed the first word, if that word starts then; where not, if the text does not begin with a space or the row takes no time; likewise at its end |
| Subtitles.SpaceMovesFirstStart | src/loreline/export.py:373-374 | a row whose first start is a guess, against the docstring |
| Subtitles.CuesFor | src/loreline/export.py:314-328 | the cues of a row are those of some alignment, scan and greedy packing of it, by the lemmas above the only ones there are |
| SubtitleCuts.RowIsCut | src/loreline/export.py:286-328 | in characters and seconds: a row is cut into stretches of words; within one, no sentence ends before the last word and from the first word there are at most 84 characters with the name, or 24 without it, and 7 seconds; each cut is at a sentence end or where the next word would exceed these; each cue has the name, the row's text between its words and their times |
| SubtitleCuts.WholeIff | src/loreline/export.py:317-324 | a row goes through whole if and only if all its words fit so together and no sentence ends before the last |
| SubtitleTokens.LerpIsEven | src/loreline/export.py:246-257 | a guessed time is at the same share of the row's time as its offset is of the text |
| SubtitleLayout.LayOut | src/loreline/export.py:331-352 | start i is the maximum over j <= i of (sorted start j + 0.1 (i - j)); end i is the earlier of the next start and max(own end, start + 0.1) |
| SubtitleLayout.LayOutIsLeast | src/loreline/export.py:331-352 | no schedule that respects the cues' starts and the 0.1 s spacing starts its k-th cue sooner, in whatever order it shows them |
| SubtitleLayout.LayOutIsSchedule | src/loreline/export.py:331-352 | and the layout is such a schedule |
| SubtitleLayout.LaidIsPlayable | src/loreline/export.py:341-344 | outputs never overlap and last at least 0.1 s |
| SubtitleLayout.LayOutKeepsTexts | src/loreline/export.py:343-344 | the texts are a permutation of the input's |
| SubtitleLayout.LaidArranged | src/loreline/export.py:345-352 | the cues come by start, then by end, then as they were, each with its own text: it starts when it should or a tenth after the start before, and lasts to its own end, for a tenth of a second, or until the next start |
| SubtitleLayout.UnchangedIffPlayable | src/loreline/export.py:331-352 | cues come out as they went in if and only if they were in order, apart and long enough |
| SubtitleLayout.LayOutTwice | src/loreline/export.py:331-352 | laying out the result again changes nothing |
| Subtitles.SubtitleCues | src/loreline/export.py:355-379 | the cues of all rows, concatenated and laid out |
| Timestamps.TsReadsBack | src/loreline/export.py:417-423 | what is printed follows the grammar (hours of two digits or more, minutes and seconds below 60, three digits of milliseconds) and reads back as the rounded time |
| Timestamps.PrintedLengthIff | src/loreline/export.py:417-423 | a cue of 0.1 s or more is printed with 100 ms or more if and only if it starts at 0 or later or ends at 0.0995 or later |
| Timestamps.PrintedEndsAfterIff | src/loreline/export.py:417-423 | such a cue is printed to end after it starts, as WebVTT asks, if and only if it starts at 0 or later or ends after 0.0005 |
| Timestamps.MillisInOrder | src/loreline/export.py:418-419 | rounding, half to even, keeps times in order |
| Subtitles.FileIsPlayable | src/loreline/export.py:382-400 | end to end: no cue that a row made is missing, printed cues do not overlap, and the printed length is as above |
| Subtitles.NonNegativeStarts | src/loreline/export.py:382-400 | with no negative start among the cues every printed cue lasts 100 ms or more |
| Chunking.SegmentsIff | src/loreline/audio/chunker.py:61-95 | the recursive segmentation is the one list of spans that meets the account said without recursion, in milliseconds: the next speech after the cut is the onset; the span reaches back over silence that with the onset frame lasts at most `pre_roll_ms`, and one frame more would exceed it or pass the cut; it ends at the first frame, after the one that follows the onset, with `silence_ms` of silence behind it or the maximum length, or at the end of the stream; no speech is left over |
| Chunking.VadChunker.Feed | src/loreline/audio/chunker.py:61-80 | an utterance comes out exactly when this frame closes the one under way, and is that span of the frames fed since the start |
| Chunking.VadChunker.Flush | src/loreline/audio/chunker.py:82-86 | an utterance comes out exactly when there was speech since the last cut |
| Chunking.Spoken | src/loreline/audio/chunker.py:66-80 | an utterance starts as long before its onset frame's time as the frames before it last, and ends one frame after its last frame's time |
| Chunking.JoinedSplit | src/loreline/audio/chunker.py:87-95 | its sound is its frames' sound concatenated |
| SpeechIndex.Chunk | src/loreline/session/manager.py:1310-1380 | any frames with any timestamps, fed one by one and then flushed, come out as exactly the utterances of the whole-stream segmentation |
| SpeechIndex.Rebuild | src/loreline/persistence/audio_store.py:211-238 | feeding every frame of a recording and flushing lists exactly the segments of the whole stream, each at its offset |
| ChunkerLaws.IndexIsOfUtterances | src/loreline/persistence/audio_store.py:217-226 | each entry has the times and, cut out of the recording, the samples of the utterance the same frames come out as |
| SpeechIndex.EntryFromEnd | src/loreline/persistence/audio_store.py:217-226 | the offset computed from the end of the reading is where the utterance begins; it is never clamped |
| ChunkerLaws.SpeechInExactlyOne | src/loreline/audio/chunker.py:61-95 | each frame of speech is in exactly one utterance, and no frame is in two |
| ChunkerLaws.InOrder | src/loreline/audio/chunker.py:61-95 | utterances are in order and disjoint |
| ChunkerLaws.LengthBound | src/loreline/audio/chunker.py:77-78 | an utterance longer than the fewest frames that reach the maximum has two frames, or is pre-roll, the onset counted, but for its last frame |
| ChunkerLaws.LimitIsHardIff | src/loreline/audio/chunker.py:36 | the cap of M frames is a hard one, for every stream, if and only if M is at least 2 and M frames last longer than `pre_roll_ms` |
| ChunkerLaws.EvenTiming | src/loreline/audio/chunker.py:69 | with even timestamps an utterance starts at its first frame, lasts as long as its frames, and ends no later than the next one starts |
| ChunkerLaws.IndexPointsAtSound | src/loreline/persistence/audio_store.py:217-226 | an entry's samples cut out of the recording are the utterance, and entries follow one another there |
| LiveFeeds.RunAgrees | frontend/src/lib/liveFeed.svelte.ts:123-164 | after any run, whatever `accept` refused in it, the items held are the end of the uncapped feed and the dropped keys those of the rest and those dropped before |
| LiveFeeds.FollowsIff | frontend/src/lib/liveFeed.svelte.ts:80-164 | a pane that begins from a history, with keys dropped on the path before, follows the uncapped feed through everything that can arrive if and only if each of those keys is in the history and no key twice in it has a later copy among the items kept |
| LiveFeeds.DuplicateBreaks | frontend/src/lib/liveFeed.svelte.ts:142-164 | the run that tells them apart for a key held twice: push the first copy off, then revise |
| LiveFeeds.DroppedBreaks | frontend/src/lib/liveFeed.svelte.ts:151 | the item that does for a key dropped before: it is refused |
| LiveFeeds.UncappedIsLines | frontend/src/lib/liveFeed.svelte.ts:142-152 | the uncapped feed is one line for each thing that arrived, in order of first arrival, each in its last revision |
| LiveFeeds.PaneShowsEnd | frontend/src/lib/liveFeed.svelte.ts:99-164 | a pane with no key twice in its history, or none reaching into what the cap keeps, shows the end of the uncapped feed; keys held are distinct and none of them was dropped |
| LiveFeeds.PaneShowsLastLines | frontend/src/lib/liveFeed.svelte.ts:123-164 | a pane without history shows the last `cap` lines of what it took |
| LiveFeeds.DroppedOutlivesPath | frontend/src/lib/liveFeed.svelte.ts:80-101 | such keys come from ordinary runs on the first path: an item, then as many new ones as the cap holds, and a change to a path whose history lacks its key |
| LiveFeeds.LiveFeed.Seed | frontend/src/lib/liveFeed.svelte.ts:96-100 | the history replaces what is held, trimmed to the cap; no dropped key is forgotten |
| LiveFeeds.LiveFeed.Clear | frontend/src/lib/liveFeed.svelte.ts:118-121 | nothing is held and nothing remembered as dropped |
| LiveFeeds.LiveFeed.Receive | frontend/src/lib/liveFeed.svelte.ts:123-129 | one frame: refused, placed over its revision, appended and trimmed, or left dropped |
| LiveFeeds.ReceivedIff | frontend/src/lib/liveFeed.svelte.ts:123-129 | the step for a frame said item by item, and that it is the only one: nothing for no item, one not accepted, or one whose key was dropped; else the first item with its key is replaced or it goes to the end, and what exceeds the cap goes from the front, its keys remembered |
| LiveFeeds.LiveFeed.Place | frontend/src/lib/liveFeed.svelte.ts:142-152 | the search is for the first item with the key |
| LiveFeeds.LiveFeed.Trim | frontend/src/lib/liveFeed.svelte.ts:154-164 | the loop over what falls off remembers exactly its keys |
| Queues.RunIsOrderly | src/loreline/bus.py:37-59 | after any run a queue is the end of what was offered, what was taken is some of the rest in order and once each, and the bound holds |
| Queues.NothingLostIff | src/loreline/bus.py:80-84 | taken and queued together are all that was offered if and only if nothing was forgotten; an unbounded queue always |
| Queues.BoundMattersIff | src/loreline/bus.py:117-119 | the bounded queue does what the unbounded one does if and only if the unbounded backlog never exceeds the bound |
| Queues.CloseKeepsPendingIff | src/loreline/bus.py:61-74 | a reader who comes after `aclose` and some later items gets every item that was pending at `aclose`, and then stops, if and only if the queue had room for those items, the mark and the later items |
| Queues.CloseOnFullLosesOldest | src/loreline/bus.py:72-74 | a queue full at `aclose` loses its oldest item to the mark |
| Queues.CloseHandsAllIff | src/loreline/bus.py:61-74 | however reads fall between the later items, the reader is handed all that was pending, and the mark, if and only if the backlog stays within the bound until it has them |
| Queues.CloseIsLostIff | src/loreline/bus.py:69-74 | the mark is pushed out, and the reader never told, if and only if as many items follow unread as the queue holds |
| Queues.CloseReachesReaderIff | src/loreline/bus.py:122-127 | however reads fall between them, the mark is neither read nor still queued if and only if it was still queued when the item after it arrived that makes as many as the queue holds |
| Buses.EventBus.Publish | src/loreline/bus.py:37-59 | every subscriber that wants the item gets it, full or not, and no other queue changes |
| Buses.EventBus.Close | src/loreline/bus.py:61-74 | the mark goes to every queue, filter or not |
| Buses.EventBus.Subscribe | src/loreline/bus.py:76-105 | a new empty queue, unbounded when reliable, joins at the end |
| Buses.EventBus.Unsubscribe | src/loreline/bus.py:108-110 | the queue leaves the set that publishing may touch; nobody else does |
| LogFeed.LogBroadcaster.Emit | src/loreline/logbus.py:70-75 | the number goes up by one, the ring keeps the last `maxlen`, and the record is delivered by each filter as things stand |
| LogFeed.LiveIsGapFreeIff | src/loreline/web/routes/logs_ws.py:59-74 | for every interleaving of subscribing, snapshot, replay, reads and writes: what is sent live and queued is all that was written and wanted since the snapshot, if and only if no newer record was dropped |
| LogFeed.PaneIsOneRun | src/loreline/web/routes/logs_ws.py:59-74 | with one session on show: sent, to be replayed and queued together are one run of that session's lines, from the oldest the ring held at the snapshot to the newest, if no newer record was dropped |
| LogFeed.RecordsAreEmitted | src/loreline/logbus.py:70-75 | every line logged makes one record, numbered from 1 in order, with its own text, session and job, wanted by the socket exactly when it is the shown session's and no job's |
| LogFeed.PaneHoldsOwnLines | src/loreline/web/routes/logs_ws.py:59-74 | that run has, in order of number and once each, exactly the records of the session on show that belong to no job, of those the ring still held at the snapshot and later |
| LogFeed.SentOnceInOrder | src/loreline/web/routes/logs_ws.py:62-74 | whatever is dropped and whatever is on show, no record is sent twice and none out of order |
| Demux.WholeIff | src/loreline/services.py:206-213 | the three tests of the loop hold if and only if the bytes begin with a whole frame, and name it |
| Demux.FromBigEndian | src/loreline/services.py:209 | the length is the four bytes weighed 16777216, 65536, 256 and 1 |
| Demux.CutIsUnique | src/loreline/services.py:196-217 | bytes are frames followed by a rest that begins with none in one way only |
| Demux.Demultiplex | src/loreline/services.py:196-217 | the loop ends on every byte string and shows the chunks of that one cut, or the raw bytes when it has none |
| Demux.ShowsIsFunctional | src/loreline/services.py:196-217 | one text only answers to that contract |
| Demux.UndoesFraming | src/loreline/services.py:196-217 | demultiplexing the encoding of any list of chunks gives the chunks back, whatever frameless bytes follow |
| Demux.TruncationKeepsWholeFrames | src/loreline/services.py:211-216 | cut anywhere inside the last frame, the whole frames before it are shown, or the raw bytes when there are none |
| Demux.MoreBytesKeepFrames | src/loreline/services.py:205-214 | reading more of the same log takes back no frame |

## Left out

- Model inference and audio decoding: spans, embeddings, reliability flags and speech verdicts are inputs; so are how a cluster's embedding is pooled and the exact cluster count asked of the pipeline.
- Process start, signals, timeouts and HTTP rendering: a child is idle, busy or gone, a wait for a lock succeeds or gives up, an answer is a verdict, a response is a status.
- Floating point: reals instead. The square root is a parameter of `Voices.Settings`; only `VoiceGeometry` asks that it be one.
- SpeakerBank.Bank.Resolve: requires that the embeddings of one call share one width, which the one model that made them ensures; the source compares them only with voices already there, and an empty bank would take them as they come.
- SessionBanks.Memory.Resolve: asks the same of a call.
- CallLabels.SessionLabels: asks the same of the pooled embeddings.
- SessionBanks.Memory.Resolve: the entry of a session is a value put back in the dictionary, where the source updates the `last_used` of an object; the bank in it is an object in both.
- SessionBanks.Memory.Resolve: the lock around it is not modelled; each call is one step.
- WorkerProtocol.EveryStateIsSound: `_child` and `_conn`, always read and written one right after the other, are one field, so that a close between the two is not seen; the remembered failure is kept only as a flag.
- Chunking.VadChunker.Feed: requires a positive frame length; at zero the source cannot build a chunker.
- SpeechIndex.Rebuild: the abort callback and the writing of the index file are not part of this model; frames are whole samples.
- LiveFeeds.LiveFeed.Receive: the parsed frame is the input; scrolling, the socket and its status are not part of this model.
- LogFeed.LiveIsGapFreeIff: for a ring that holds at least one record (the program's holds 500); the stream's end and the socket's closing are not part of this model.
- Buses.EventBus.Publish: the lock guards only a snapshot taken and used without a pause, so that one publish is one step; the reader's waiting is `Get` answering nothing.
- Demux.Demultiplex: the decoding of one chunk of bytes to text is a parameter, applied chunk by chunk as the source does.
- LiveFeeds.FollowsIff: its "only if" is for feeds that can always get a new item and a new revision of any key, and its runs are of accepted items; `LiveFeeds.RunAgrees` holds of every `accept`.
- The assembly of the SubRip and WebVTT files from the cues, and the plain text, Markdown and JSON exports: formatting.
- Which rows make a transcript version (`variant_rows`, `variant_view`, `final_rows`): filters of one line each.
- The model cache, the health route, summaries, glossaries, the updater, the other stores of the web client and the vendor mocks.
