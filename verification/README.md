# Verified model of LingVoice's stateful core

LingVoice is a voice and LLM platform written in Go. This project models the parts of it in
which the state is hard to keep right, and proves what they promise over every input, every
run or every interleaving:

- the jitter buffer, against a player over unbounded sequence numbers;
- the anti-aliasing FIR and the DC blocker, against one filter over the whole stream, for
  any cut of it into chunks;
- the keyword trie, against a plain set of words and a declarative leftmost-longest cut;
- the sliding-window rate limiter, against the full history of accepted requests;
- the batch accumulator's run loop, with a ledger of everything that came in and went out;
- cache-aside with its double-checked lock, as interleaved steps of any number of callers;
- the turn detector and the agent loop that runs on it;
- the WAV writers and readers, the recorder and the conference mix;
- the transport's output queue, the component registry, the SSE and rich-stream translation
  of the relay client, and the identity headers.

Each component is a module of its own; `AgentRuns`, `WavCopies`, `KeywordTexts` and
`RichCalls` hold the theorems about whole runs of the agent, repeated copies of a file, whole
texts and the provider's tool calls. Code that updates fields in place is a class with those fields, loops are methods, and each method is tied to a
specification function or states its property outright. Protocols with several goroutines are step machines with an
`Enabled`/`Step` pair and properties over all runs. Results of calls outside the modelled
code (handlers, caches, ASR, LLM, TTS, clocks, channel partners) are parameters.

`dafny verify dfyconfig.toml` checks everything.

## Where the code does not meet its promise

The members named here exhibit the failure, and state what happens instead or exactly when
the promise holds.

- The jitter buffer loses packets across the 16-bit wrap unless its capacity is at most
  32768 and divides 65536, or is above 65536 and leaves remainder 32768; 50, the capacity
  that a comment and the tests use, is not one of these (`Jitter.LosslessExactly`,
  `Jitter.WrapLosesPacket`).
- Source data equal to the cache's null marker is later reported as absent
  (`CacheAside.CorrectExactly`), and the loader runs once per life of an entry only with a
  lock and a cacheable answer (`CacheAside.SeparatedExactly`).
- Each time a WAV file is loaded and saved, its stored samples move one step towards
  silence, except those that are silent and, at 8 bits, the negative ones
  (`WavCopies.CopiesFade`, `WavCopies.CopyIsFaithfulExactly`).
- The DC blocker's comment says it only attenuates; its gain comes arbitrarily close to two.
  Streams at a level never reach the saturation branch if and only if the level is at most
  16383, for every pole (`DcBlock.NeverClipsExactly`). The saturation changes some sample if
  and only if the level is at least 16385, or is 16384 with a pole of zero
  (`DcBlock.SomeChangedExactly`). `DcBlock.StepOvershoots` is an example.
- After a close that drained items, the batch's `pendingBytes` is minus their size
  (`Batch.Accumulator.Run`).
- Playback is documented to listen for the user and to stop when they speak. The loop does
  not read audio while it plays, so whatever is said every reply is played in full, unless
  someone outside the loop interrupts or cancels, or a send fails
  (`AgentRuns.SpeechNeverInterrupts`); its own barge-in branches never fire
  (`Agent.AgentLoop.Run`).
- A barge-in that stops a turn before it speaks leaves its signal behind, and that signal can
  cut off the next playback after one frame. Only a caller of the exported `BargeIn` on a
  loop of their own can cause it, because the loop itself never does
  (`AgentRuns.StaleSignalCutsNextTurn`, `AgentRuns.RunIntoStaleSignal`). A playback that
  nobody disturbs is sure to be complete if and only if it is empty, or the flag is down and
  either no signal is waiting or it fits one frame (`Agent.AlwaysPlaysAllExactly`).
- A tool call whose indices are not 0, 1, 2, ... without a gap is streamed but missing from
  the final response (`Rich.AllCallsReachResponseExactly`, `Rich.SingleCallLost`).
- A network write that ends inside a data line of an SSE stream loses or changes data, with
  the exact exceptions listed by `Sse.CutKeepsDataExactly` (`Sse.CutInsideLineLosesData` is
  the common case).
- The conference mix depends on Go's map order. When all weighted samples are whole numbers,
  as at unit gain, the order cannot be heard if and only if the samples all push one way or
  stay within the range (`Mixer.OrderFreeExactly`). At any gains it cannot be heard when they
  all push one way (`Mixer.OneWayIsOrderFree`); fractions of both signs can be heard
  (`Mixer.FractionalGainIsHeard`).
- The recorder is documented to put late chunks in their place. The file is in order of
  timestamps if and only if no chunk comes at or before a timestamp already flushed
  (`Recorder.FileAscendsExactly`); a chunk before the timestamp of the last flush is flushed
  at once, after later ones (`Recorder.Recorder.LateIsDue`).
- `Match` is documented to return all keywords found in a text; it reports the longest one at
  each position (`KeywordFilter.Filter.Match`). Every keyword that occurs is reported, for
  every text, if and only if each keyword that starts a longer one occurs in it again further
  on (`KeywordTexts.NeverMissesExactly`); with the keywords ab and abc, ab is missing from the
  report on the text abc (`KeywordTexts.ShorterKeywordMissed`).

## Model

| member | source | states |
|---|---|---|
| Jitter.JitterBuffer.constructor | pkg/media/jitter.go:48-58 | a new buffer is the empty ring, of any capacity |
| Jitter.JitterBuffer.Write | pkg/media/jitter.go:62-94 | refines the ring step, whose every outcome `WriteOutcome` gives: refused without a change, counted as late, or stored and counted |
| Jitter.WriteOutcome | pkg/media/jitter.go:62-94 | at capacities 1 to 32767, a number k behind the next one expected is taken if and only if it is not waiting and k is at most the capacity; a waiting number changes nothing, a late one is only counted once in lateDrops, and one that is taken is stored and counted |
| Jitter.FirstPacketWins | pkg/media/jitter.go:69-72 | of two writes under one number the first is read and the second is refused |
| Jitter.JitterBuffer.Read | pkg/media/jitter.go:98-117 | refines the ring step: returns and clears the slot only if it holds the next number |
| Jitter.StepAgrees | pkg/media/jitter.go:62-117 | one step of ring and player, repeated numbers included, shows the caller the same and keeps them in agreement |
| Jitter.RunAgrees | pkg/media/jitter.go:62-117 | a ring that never aliases and never drops as late equals the player on every orderly run |
| Jitter.LosslessBeforeWrap | pkg/media/jitter.go:62-117 | any capacity up to 32768 is lossless before the number wraps |
| Jitter.PlayerIsLossless | pkg/media/jitter.go:62-117 | on an orderly run the player takes every write but the repeats of a waiting number, keeps each number's first packet for good, and reads return the packets in number order without a gap |
| Jitter.FirstWriteRefused | pkg/media/jitter.go:74-80 | a capacity whose int16 negation is positive refuses even the first write, so it is not lossless |
| Jitter.FarWriteRefused | pkg/media/jitter.go:74-80 | a capacity above 65536 whose late bound is above -32768 takes a write far ahead in its window as late |
| Jitter.ReorderRefused | pkg/media/jitter.go:74-80 | capacity 65536 takes a reordered write in its window as late |
| Jitter.WrapLosesPacket | pkg/media/jitter.go:62-117 | a capacity up to 32768 that does not divide 65536 has an orderly run across the wrap that differs from the player |
| Jitter.LosslessExactly | pkg/media/jitter.go:62-117 | every orderly run equals the player if and only if the capacity is one of the lossless ones |
| Jitter.RingIsLossless | pkg/media/jitter.go:62-117 | for a lossless capacity and an orderly run, the ring accepts exactly the writes that do not repeat a waiting number, and its non-nil reads are the accepted packets in number order without a gap |
| Jitter.OrderlyCounters | pkg/media/jitter.go:62-117 | for a lossless capacity and an orderly run, totalPackets counts the accepted writes and lateDrops stays 0 |
| LowPass.Truncate | pkg/media/lowpass.go:144-193 | float-to-integer conversion drops the fraction towards zero |
| LowPass.ChunkingIsInvisible | pkg/media/lowpass.go:144-193 | a causal filter applied chunk by chunk equals the filter of the joined stream, for any cut |
| LowPass.FirIsCausal | pkg/media/lowpass.go:144-193 | the saturated whole-stream convolution is causal for any taps |
| LowPass.ImpulseResponse | pkg/media/lowpass.go:159-176 | a single sample v at position p gives the saturated product of v and tap last-m at p+m, and silence everywhere else |
| LowPass.TapSumIsAdditive | pkg/media/lowpass.go:159-176 | the tap sum of two streams together is the sum of their tap sums, and the output is that sum saturated |
| LowPass.ConvolveFromHistory | pkg/media/lowpass.go:159-176 | a convolution sample needs only the chunk and the last taps-1 samples before it |
| LowPass.HistoryCarriesOver | pkg/media/lowpass.go:180-190 | the kept history after a chunk is the end of the stream, whether the chunk is shorter or longer than it |
| LowPass.LowPassFir.UpdateHistory | pkg/media/lowpass.go:180-190 | the history array is left holding the end of the stream |
| LowPass.LowPassFir.Filter | pkg/media/lowpass.go:144-193 | the output is the new part of the convolution of the whole stream; the input is not changed; the buffer is reused or fresh |
| LowPass.FilterAll | pkg/media/lowpass.go:144-193 | a fresh filter fed with any cut of a stream gives one convolution of the stream |
| DcBlock.DcBlockerIsCausal | pkg/media/lowpass.go:281-298 | the DC blocker over the whole stream is causal |
| DcBlock.DcBlocker.Process | pkg/media/lowpass.go:281-298 | rewrites its input in place to the new part of the whole-stream result |
| DcBlock.DcBlocker.Reset | pkg/media/lowpass.go:302-308 | starts a new stream |
| DcBlock.BlockAll | pkg/media/lowpass.go:281-298 | a fresh blocker fed with any cut of a stream gives the filter of the whole stream |
| DcBlock.OffsetDecays | pkg/media/lowpass.go:252-298 | a constant offset decays geometrically with the pole |
| DcBlock.GainAtMostTwo | pkg/media/lowpass.go:281-298 | no output exceeds twice the level of the stream |
| DcBlock.NeverClipsExactly | pkg/media/lowpass.go:278-296 | streams at a level never reach the saturation branch if and only if the level is at most 16383, for every pole in [0, 1) |
| DcBlock.SomeChangedExactly | pkg/media/lowpass.go:278-296 | the saturation changes some sample at a level if and only if the level is at least 16385, or is 16384 with a pole of zero |
| DcBlock.QuietIsExact | pkg/media/lowpass.go:281-298 | below that level the saturation changes nothing |
| DcBlock.StepOvershoots | pkg/media/lowpass.go:278-296 | a full-scale step overshoots the range and is clipped, for every pole in [0, 1) |
| KeywordFilter.Filter.constructor | pkg/common/antispam/antispam.go:46-51 | a new filter has the given non-empty words |
| KeywordFilter.Filter.Insert | pkg/common/antispam/antispam.go:81-97 | the word joins the set; reports whether it was new; the tree stays linked, marked and pruned |
| KeywordFilter.Filter.Add | pkg/common/antispam/antispam.go:54-63 | the set grows by the word; the empty word is ignored; size is the cardinality |
| KeywordFilter.Filter.AddMany | pkg/common/antispam/antispam.go:66-78 | the set grows by all non-empty words |
| KeywordFilter.Filter.Prune | pkg/common/antispam/antispam.go:120-130 | after the walk back up, every node below the root leads to a word |
| KeywordFilter.Filter.Remove | pkg/common/antispam/antispam.go:100-131 | the set loses exactly the word, and the tree is pruned again |
| KeywordFilter.Filter.Clear | pkg/common/antispam/antispam.go:210-215 | no words are left |
| KeywordFilter.Filter.MatchFrom | pkg/common/antispam/antispam.go:151-164 | the longest word that starts at a position |
| KeywordFilter.Filter.Match | pkg/common/antispam/antispam.go:135-148 | without repeats and in order of first appearance, the longest word at every position where one starts |
| KeywordFilter.ListedOnce | pkg/common/antispam/antispam.go:135-148 | no keyword is listed twice |
| KeywordTexts.NeverMissesExactly | pkg/common/antispam/antispam.go:133-148 | whatever the text, no keyword that occurs in it is missing from the list if and only if each keyword that is a proper prefix of another occurs in that one again at a later position |
| KeywordTexts.ShorterKeywordMissed | pkg/common/antispam/antispam.go:133-148 | with ab and abc as keywords the text abc is listed without ab |
| KeywordFilter.Filter.Contains | pkg/common/antispam/antispam.go:168-179 | true if and only if some word is a substring |
| KeywordFilter.Filter.Replace | pkg/common/antispam/antispam.go:183-200 | the text with each hit of its cut replaced |
| KeywordFilter.OccursIffSomePosition | pkg/common/antispam/antispam.go:168-179 | a word occurs if and only if some position has a longest word |
| KeywordFilter.LeftmostLongestIsUnique | pkg/common/antispam/antispam.go:183-200 | a text has at most one leftmost-longest cut |
| KeywordFilter.CutIsLeftmostLongest | pkg/common/antispam/antispam.go:183-200 | the scanner's cut covers the text, takes the longest word wherever it stands, and keeps a character only where none starts |
| KeywordFilter.CleanTextUnchanged | pkg/common/antispam/antispam.go:183-200 | a text without words is returned as it is |
| KeywordTexts.ReplacedIsClean | pkg/common/antispam/antispam.go:183-200 | with a non-empty replacement that shares no character with the keywords, the rewritten text holds no keyword |
| KeywordTexts.EmptyReplacementJoins | pkg/common/antispam/antispam.go:183-200 | with an empty replacement what is left can join into a keyword |
| KeywordFilter.RunScript | pkg/common/antispam/antispam.go:54-131 | after any sequence of operations the trie accepts exactly the words of a plain set under the same operations |
| KeywordFilter.LastOperationDecides | pkg/common/antispam/antispam.go:54-131 | after any operations a keyword is in the set if and only if the last one about it added it, or there was none and it was there |
| RateLimiter.AcceptKeepsLimit | pkg/common/antispam/antispam.go:249-269 | accepting below the limit keeps every window of that length within the limit |
| RateLimiter.TrimBefore | pkg/common/antispam/antispam.go:308-319 | drops exactly the leading timestamps before the cutoff |
| RateLimiter.TrimIsSound | pkg/common/antispam/antispam.go:249-319 | after trimming, the kept timestamps number exactly the accepted requests in the window |
| RateLimiter.RecordIsSound | pkg/common/antispam/antispam.go:249-269 | recording an accepted request keeps the kept timestamps a sound summary of the history |
| RateLimiter.Limiter.Allow | pkg/common/antispam/antispam.go:249-269 | accepts if and only if fewer than maxCount accepted requests of the key lie in the closed window ending now; no limit accepts all |
| RateLimiter.Limiter.Count | pkg/common/antispam/antispam.go:273-282 | the number of accepted requests in the window; the history stays |
| RateLimiter.Limiter.Reset | pkg/common/antispam/antispam.go:286-290 | forgets one key |
| RateLimiter.Limiter.Cleanup | pkg/common/antispam/antispam.go:294-305 | changes no history, so no later answer |
| Batch.RetryMeaning | pkg/common/batch/batch.go:445-458 | the handler is tried until the first success, the last retry, or a cut-short wait, with the matching error |
| Batch.Accumulator.constructor | pkg/common/batch/batch.go:202-228 | a new accumulator is empty |
| Batch.Accumulator.CallHandler | pkg/common/batch/batch.go:445-458 | the calls made are the same batch once per attempt |
| Batch.Accumulator.DoFlush | pkg/common/batch/batch.go:428-475 | the buffer becomes one batch, counters and last error are booked, an aborted flush is not |
| Batch.Accumulator.Take | pkg/common/batch/batch.go:489-516 | the buffer with the item is flushed as one batch exactly when it reaches a limit, and kept otherwise |
| Batch.Accumulator.BatchLimits | pkg/common/batch/batch.go:404-412 | every batch has 1 to maxSize items, and all but its last total under maxBytes |
| Batch.Accumulator.BytesAddUp | pkg/common/batch/batch.go:489-516 | the bytes of a buffer add up item by item, and are 0 without a size function |
| Batch.Accumulator.ByteLimitIsOptional | pkg/common/batch/batch.go:404-412 | a byte limit that is not positive, or without a size function, does not count |
| Batch.Accumulator.DoClose | pkg/common/batch/batch.go:479-504 | the drained items are all flushed and the buffer is empty; the last error is that of the final flush, or none if nothing was left for it |
| Batch.Accumulator.Run | pkg/common/batch/batch.go:371-529 | over every run the batches followed by the buffer are the received items in order; after close all of them, with pendingCount 0 and pendingBytes minus the drained bytes |
| CacheAside.StepKeepsCorrect | pkg/common/cache/cacheaside.go:121-187 | each step keeps cache contents and answers equal to the source |
| CacheAside.RunKeepsCorrect | pkg/common/cache/cacheaside.go:121-187 | so does every run |
| CacheAside.MarkerAsDataIsLost | pkg/common/cache/cacheaside.go:139-150 | data equal to the null marker is reported as absent by a later caller |
| CacheAside.CorrectExactly | pkg/common/cache/cacheaside.go:121-187 | every run answers as the source if and only if the source data is not the null marker |
| CacheAside.UnrefusedCallsAnswer | pkg/common/cache/cacheaside.go:121-187 | a finished call that neither the cache nor the lock refused has the loader's answer |
| CacheAside.RefusalIsReported | pkg/common/cache/cacheaside.go:137-167 | a refused lock or cache read is the call's result and changes neither the cache nor the lock |
| CacheAside.EveryCallEnds | pkg/common/cache/cacheaside.go:121-187 | on every run each call takes at most six steps of its own |
| CacheAside.CallsAreNotStuck | pkg/common/cache/cacheaside.go:121-187 | a call that is not done can go on, unless it waits for a lock that is held |
| CacheAside.StepKeepsGuarded | pkg/common/cache/cacheaside.go:152-186 | with a lock only its holder is between the second check and the write, and nothing loads while the entry stands |
| CacheAside.GuardedRunSeparates | pkg/common/cache/cacheaside.go:152-186 | between two loader calls the entry was removed or a cache write failed |
| CacheAside.UnlockedCallersLoadTwice | pkg/common/cache/cacheaside.go:152-186 | without a lock two callers load together |
| CacheAside.UncachedAnswerLoadsTwice | pkg/common/cache/cacheaside.go:171-186 | an answer that is not cached is loaded by each caller |
| CacheAside.RemovedEntryIsLoadedAgain | pkg/common/cache/cacheaside.go:152-186 | an entry that is removed is loaded again by the next caller |
| CacheAside.SeparatedExactly | pkg/common/cache/cacheaside.go:121-187 | loads are separated in every run if and only if there is a lock and the source has data, or has none and null marking is on |
| Turn.Normalize | pkg/control/turn.go:100-118 | every limit is positive after defaults are filled in |
| Turn.TurnManager.constructor | pkg/control/turn.go:100-118 | starts idle |
| Turn.TurnManager.ProcessIdle | pkg/control/turn.go:160-174 | speech starts exactly on the Nth consecutive speech frame since going idle |
| Turn.TurnManager.ProcessListening | pkg/control/turn.go:175-203 | the turn ends on M trailing silent frames, silently if too short, and times out at the maximum |
| Turn.TurnManager.Process | pkg/control/turn.go:141-204 | at most one event per frame, with both cases above; the trace pairs every end with the start right before it and a listening turn is younger than the maximum |
| Turn.TurnManager.Reset | pkg/control/turn.go:128-137 | back to idle, the frame count starts anew |
| Agent.PlayIsFrameAligned | pkg/control/orchestrate.go:238-305 | playback sends a whole number of frames, or everything |
| Agent.PlaysAllExactly | pkg/control/orchestrate.go:238-305 | everything is sent if and only if no check before or wait after any frame is disturbed |
| Agent.StopsAtFirstDisturbance | pkg/control/orchestrate.go:238-305 | at the first disturbed frame playback has sent exactly the frames before it, and the frame itself if it was disturbed after sending; a barge-in leaves its flag, and its signal unless the wait took it |
| Agent.SamplesPerFrame | pkg/control/orchestrate.go:257-261 | a frame is the rate times the frame length rounded down, or 320 samples when that is none |
| Agent.BargeInExactly | pkg/control/orchestrate.go:72-124 | flag and signal are raised together, by a caller outside or by loud speech in a frame read while speaking |
| Agent.AlwaysPlaysAllExactly | pkg/control/orchestrate.go:238-305 | undisturbed, everything is sure to be played if and only if there is nothing to play, or the flag is down and no signal waits or one frame is enough |
| Agent.QuietPlayLeavesNothing | pkg/control/orchestrate.go:238-305 | undisturbed playback leaves flag and signal as they were |
| Agent.AgentLoop.SetState | pkg/control/session.go:180-196 | the change is recorded only if it is one |
| Agent.AgentLoop.OnTurnEvent | pkg/control/session.go:264-287 | a speech start while speaking is a barge-in; an end or timeout raises the end signal |
| Agent.AgentLoop.HandleAudioFrame | pkg/control/orchestrate.go:106-131 | a frame that passed VAD joins the buffer and the turn detector; nothing changes on an error |
| Agent.AgentLoop.Speak | pkg/control/orchestrate.go:238-305 | the frames sent are the prefix that the playback function gives |
| Agent.AgentLoop.DrainAudio | pkg/control/session.go:298-304 | hands over the whole buffer and empties it |
| Agent.AgentLoop.Respond | pkg/control/orchestrate.go:147-211 | the loop's fields after recognition, reply and playback, on every path |
| Agent.AgentLoop.HandleTurn | pkg/control/orchestrate.go:135-211 | the loop's fields after a turn; heard audio is neither lost nor repeated |
| Agent.TurnMeaning | pkg/control/orchestrate.go:135-211 | a turn speaks if and only if ASR, LLM and TTS succeed and both barge-in checks are clear; the exact state changes, what goes to ASR, what is played, what is left of the barge-in state |
| Agent.AgentLoop.OnSignal | pkg/control/orchestrate.go:82-103 | between signals the session is Listening and the loop raised no barge-in of its own |
| Agent.AgentLoop.Run | pkg/control/orchestrate.go:82-131 | over every run: Listening at every wait, the audio given to ASR followed by the buffer is the audio that passed VAD, the loop's own barge-in branches never fire, and its fields are those of the value-level run |
| AgentRuns.RunIsItsTurns | pkg/control/orchestrate.go:82-211 | over every run the reported states, the audio played and the audio recognised are those of its turns in order, so each Speaking belongs to a turn that passed all checks |
| AgentRuns.NoBargeInOfItsOwn | pkg/control/orchestrate.go:82-131 | without a barge-in from outside none is ever pending |
| AgentRuns.SpeechNeverInterrupts | pkg/control/orchestrate.go:13-21 | whatever the audio frames hold, every reply is played in full unless someone outside interrupts |
| AgentRuns.StaleSignalCutsNextTurn | pkg/control/orchestrate.go:72-211 | for any configuration whose minimum turn is shorter than its maximum, a run in which a barge-in during ASR leaves a signal that cuts the next, undisturbed playback to one frame |
| AgentRuns.RunIntoStaleSignal | pkg/control/orchestrate.go:72-211 | the same run on a loop just built and started |
| WavHeader.HeaderDescribes | pkg/media/recorder.go:151-176 | the 44-byte header names exactly the given fields at their offsets |
| WavHeader.HeaderGivesSizes | pkg/media/recorder.go:151-176 | the RIFF size is 36 plus the data size and the byte rate is the sample rate times the block size, modulo 2^32 |
| Wav.CodeRoundTrip | pkg/common/audioutil/audioutil.go:236-259 | a signed code in range survives being stored, at all four depths |
| Wav.QuantisationBound | pkg/common/audioutil/audioutil.go:352-375 | a stored sample is less than two steps from the clamped original |
| Wav.GenerationsFade | pkg/common/audioutil/audioutil.go:236-375 | after k load-and-save cycles at 16, 24 or 32 bits a code is k steps closer to zero, or zero |
| Wav.GenerationsFade8 | pkg/common/audioutil/audioutil.go:236-375 | at 8 bits only positive codes fade, and -128 becomes -127 |
| WavCopies.ReadsReloaded | pkg/common/audioutil/audioutil.go:101-375 | reading a written file gives exactly the codes of the written samples, scaled |
| WavCopies.CopiesFade | pkg/common/audioutil/audioutil.go:101-375 | what k copies of a file store, for every sample and depth |
| WavCopies.CopyIsFaithfulExactly | pkg/common/audioutil/audioutil.go:101-375 | a stored sample survives a copy if and only if it is silent, or not positive at 8 bits |
| Wav.WriteWav | pkg/common/audioutil/audioutil.go:276-349 | the bytes are the header followed by the interleaved sample codes; it panics exactly when a channel is missing or too short |
| Wav.MissingFieldsHaveDefaults | pkg/common/audioutil/audioutil.go:276-349 | a depth of 0 is written as 16 bits and a channel count of 0 as one channel |
| Wav.RegularAudioIsShaped | pkg/common/audioutil/audioutil.go:276-349 | audio without samples, or whose channels are all there and as long as the first, is written |
| Wav.ShortChannelIsNotShaped | pkg/common/audioutil/audioutil.go:276-349 | audio with a channel missing or shorter than the first is not |
| Wav.DecodePcm | pkg/common/audioutil/audioutil.go:200-233 | fills every channel, rejects empty data, panics exactly where an index is out of bounds |
| Wav.NoBlockSizeIsNatural | pkg/common/audioutil/audioutil.go:200-209 | a block size of 0 is read as the bytes per sample times the channels |
| Wav.UnknownDepthIsSilent | pkg/common/audioutil/audioutil.go:236-375 | a sample of an unknown depth is written as zeros and read as silence |
| Wav.ReadWav | pkg/common/audioutil/audioutil.go:101-182 | equals the recursive chunk parser with all its error cases |
| Wav.ShortFileRejected | pkg/common/audioutil/audioutil.go:101-130 | a file too short for its head is truncated, unless its first four bytes are wrong |
| Wav.UnknownChunksIgnored | pkg/common/audioutil/audioutil.go:131-165 | unknown chunks before, between and after the others change nothing about how a file is read, whatever follows |
| Wav.ReadFromLastChunks | pkg/common/audioutil/audioutil.go:101-182 | a file of whole chunks is read from its last fmt and its last data chunk, with each error exactly where its cause is |
| Wav.OwnChunks | pkg/common/audioutil/audioutil.go:101-182 | what was written parses into its format and data chunks |
| Wav.RoundTrip | pkg/common/audioutil/audioutil.go:101-375 | reading what was written gives the same rate, channels, depth and frame count and every sample within two steps |
| Pcm.BytesToInt16 | pkg/media/mixer.go:172-182 | sample i is the little-endian value of its two bytes |
| Pcm.Int16ToBytes | pkg/media/mixer.go:185-192 | each sample becomes its two bytes |
| Pcm.SamplesRoundTrip | pkg/media/mixer.go:172-192 | samples to bytes and back is the identity |
| Pcm.BytesRoundTripExactly | pkg/media/mixer.go:172-192 | bytes to samples and back is the identity if and only if the count is even |
| Pcm.DecodeWritten | pkg/media/audio_source.go:175-218 | what decodeWAV makes of a header and data, whatever their size |
| Pcm.DecodesAllExactly | pkg/media/audio_source.go:175-218 | all samples come back if and only if the size fits the header field or is a multiple of 2^32 |
| Pcm.FileRoundTrip | pkg/media/audio_source.go:175-252 | a written file decodes to the same rate, channels and samples |
| Pcm.AudioSource.SetLoop | pkg/media/audio_source.go:115-119 | only the loop flag changes |
| Pcm.AudioSource.ReadSamples | pkg/media/audio_source.go:123-142 | all reads together deliver the samples in order, over and over when looping, and end of data otherwise |
| Recorder.BufferedIsFinal | pkg/media/recorder.go:73-95 | the buffer holds exactly the chunks not superseded by a later write with the same timestamp |
| Recorder.OrderIsUnique | pkg/media/recorder.go:98-124 | there is only one ascending order of the timestamps, so a flush is determined |
| Recorder.SortTimestamps | pkg/media/recorder.go:103-108 | all buffered timestamps, ascending |
| Recorder.Recorder.constructor | pkg/media/recorder.go:41-69 | an open recorder holds only a header |
| Recorder.Recorder.Write | pkg/media/recorder.go:73-95 | the chunk is buffered and the buffer flushed exactly when due, so that between calls fewer than 50 chunks wait, each within a fifth of a second of timestamps after the last flush; a closed recorder refuses |
| Recorder.Recorder.Flush | pkg/media/recorder.go:98-124 | the pending writes become one flush at the end of the file |
| Recorder.Recorder.PatchHeader | pkg/media/recorder.go:179-190 | the header names the bytes written |
| Recorder.Recorder.Close | pkg/media/recorder.go:127-148 | the file is header plus all flushes, decodes to exactly their samples below 4 GiB, and is in order of timestamps if and only if no chunk was late |
| Recorder.FlushWritesEachFinalChunkOnce | pkg/media/recorder.go:98-124 | a flush writes a chunk if and only if no later write had its timestamp, and nothing else |
| Recorder.FileAscendsExactly | pkg/media/recorder.go:73-124 | the timestamps ascend over the whole file if and only if no write came at or before a timestamp already flushed |
| Recorder.Recorder.LateIsDue | pkg/media/recorder.go:73-95 | a timestamp before the last flush is flushed at once |
| Recorder.Recorder.DueInOrder | pkg/media/recorder.go:87 | for timestamps in order a flush is due exactly at 50 chunks or past a fifth of a second |
| Mixer.MixFor | pkg/media/mixer.go:129-149 | each output sample is the saturating, truncating fold of the others' samples, never one's own |
| Mixer.UnsetGainIsUnity | pkg/media/mixer.go:135-138 | a gain of 0 is heard as a gain of 1 |
| Mixer.OwnFrameIsNotHeard | pkg/media/mixer.go:129-134 | a participant's own frame, or one that is too short, leaves no trace in what they hear |
| Mixer.OneOtherIsHeardAsSent | pkg/media/mixer.go:129-149 | a single other participant at gain 1 is heard as sent |
| Mixer.CalmTotalIsSum | pkg/media/mixer.go:139-148 | if the parts all push one way or stay within the range, saturating each time equals saturating the sum once |
| Mixer.FramesFor | pkg/media/mixer.go:103-121 | every order of the samples comes from an order of the participants |
| Mixer.OrderFreeExactly | pkg/media/mixer.go:103-149 | when every weighted sample is a whole number, the participant order cannot be heard if and only if the mix is calm, and then the mix is the saturated sum |
| Mixer.UnitIsWhole | pkg/media/mixer.go:135-138 | at gain 1, or 0 which means 1, every weighted sample is a whole number |
| Mixer.OneWayIsOrderFree | pkg/media/mixer.go:103-149 | with any gains, weighted samples that all push one way are order-free, and the mix is the saturated sum of their whole parts |
| Mixer.FractionalGainIsHeard | pkg/media/mixer.go:139-148 | fractions of both signs give different mixes in the two orders, although the mix is calm |
| OutputQueue.StepKeepsFifo | pkg/media/session.go:139-260 | what left the queue followed by the queue is what was accepted, in order |
| OutputQueue.StepKeepsOneFate | pkg/media/session.go:239-260 | an offered packet is accepted, dropped, refused or waiting, once |
| OutputQueue.StepKeepsJustified | pkg/media/session.go:239-260 | a synthesized packet is refused only after the session was cancelled |
| OutputQueue.StepKeepsDrainsExact | pkg/media/session.go:906-921 | a drain returns the number of packets it removed, and what left the queue is as many as were sent plus what all drains count |
| OutputQueue.StepKeepsOneExit | pkg/media/session.go:139-190 | as often as a packet left the queue, it was sent by the loop or removed by a drain |
| OutputQueue.RunKeepsInv | pkg/media/session.go:139-260 | all of these hold in every reachable state |
| OutputQueue.QueueAccounts | pkg/media/session.go:139-260 | over every run: first in first out, each ordinary packet accepted or counted once as dropped, the queue full at every drop and with room at every acceptance, no synthesized packet refused while live, everything that left the queue sent or counted by the drain that removed it |
| OutputQueue.SendOutcome | pkg/media/session.go:239-260 | a packet sent to an attached transport joins the end of the queue if and only if there is room; otherwise an ordinary packet is dropped and counted and a synthesized one waits |
| OutputQueue.ResumeOutcome | pkg/media/session.go:247-253 | a waiting packet joins the end of the queue once there is room, or is refused after cancellation |
| OutputQueue.FlagsFromStart | pkg/media/session.go:239-260 | nothing is refused in a run without cancellation, and nothing ignored in one without detaching |
| OutputQueue.DrainTakesAll | pkg/media/session.go:906-921 | a drain that nothing disturbs removes the whole queue, reports its length and sends none of it |
| OutputQueue.WaitingSenderHoldsOffDrain | pkg/media/session.go:239-260 | while a synthesized send waits on a full queue, only a dequeue or a cancel can happen |
| Registry.ScanAppend | pkg/bootstrap/registry.go:32-58 | a new component joins the end of every type scan it answers to and no other |
| Registry.ScanWithout | pkg/bootstrap/registry.go:136-181 | a removed component leaves every scan and the rest keeps its order |
| Registry.Container.Register | pkg/bootstrap/registry.go:32-58 | the three errors in order; otherwise name, order and type index all gain the component |
| Registry.Container.Unregister | pkg/bootstrap/registry.go:136-181 | removes the name everywhere, and keeps every index equal to a scan in registration order |
| Registry.Container.GetByType | pkg/bootstrap/registry.go:86-94 | the first registered component that has the type or points to it, or none if there is none |
| Registry.Container.GetAllByType | pkg/bootstrap/registry.go:97-109 | all of them, in registration order |
| Sse.SplitLines | pkg/relay/client.go:728-741 | the index scan gives the recursive line split |
| Sse.RejoinRestores | pkg/relay/client.go:728-741 | the lines, each ended by a newline, are the text up to one final newline |
| Sse.LinesHoldNoNewline | pkg/relay/client.go:728-741 | no line holds a newline |
| Sse.CutKeepsLinesExactly | pkg/relay/client.go:728-741 | cutting a text in two keeps its lines if and only if the first part ends a line or the second is empty |
| Sse.CutKeepsDataExactly | pkg/relay/client.go:698-763 | cutting a stream into two writes keeps its data lines if and only if the cut is at an end or after a newline, or one half of the cut line is blank, or neither the line nor its second half is a data line |
| Text.TrimMeaning | pkg/relay/client.go:743-752 | trimming gives the contiguous middle of the text, with only spaces outside and none at its ends |
| Text.TrimMethod | pkg/relay/client.go:743-752 | the scan from both ends gives the trimmed text |
| Sse.SplitSseLines | pkg/relay/client.go:717-726 | the payloads of the data lines, in order |
| Sse.PayloadIsNeverEmpty | pkg/relay/client.go:717-726 | an empty data line yields no payload |
| Sse.Write | pkg/relay/client.go:698-713 | one write emits the decoded chunks of its data lines in order, skipping the end marker and what does not decode |
| Sse.EventsAreEmitted | pkg/relay/client.go:698-726 | well-formed events put each event's chunk on the channel, once and in order |
| Sse.OthersLeaveNoTrace | pkg/relay/client.go:698-713 | the end marker and payloads that do not decode leave no trace |
| Sse.EventsReadBack | pkg/relay/client.go:717-741 | payloads put on data lines are read back unchanged and in order |
| Sse.CutsAfterNewlinesAreInvisible | pkg/relay/client.go:698-763 | writes that are cut after newlines emit the same chunks as one write |
| Sse.CutInsideLineLosesData | pkg/relay/client.go:698-763 | a data line cut in two writes loses its second part |
| Rich.Translate | pkg/relay/rich.go:171-259 | sends exactly the chunks of the stream, stops at the first error without a response, and otherwise responds with what the sent chunks add up to; `RichCalls` tells both from the provider's chunks |
| Rich.AddCall | pkg/relay/rich.go:201-225 | a call fragment is accumulated under its index just as the consumer would, and sent on |
| Rich.NothingLostInTranslation | pkg/relay/rich.go:178-230 | the streamed text and the fragments of every call are the provider's, complete and in order |
| Rich.AllCallsReachResponseExactly | pkg/relay/rich.go:242-254 | every streamed call has its block if and only if the indices are 0 to k-1 |
| Rich.SingleCallLost | pkg/relay/rich.go:242-257 | a single call with another index ends in a tool_use response without it |
| Rich.StreamedStopMeaning | pkg/relay/rich.go:226-229 | the last streamed stop reason is the mapping of the last finish reason with the tools seen by then |
| Rich.StopReasonsAgreeExactly | pkg/relay/rich.go:226-238 | the response repeats the streamed stop reason if and only if the last finish reason is a known one, or a tool call came no later than it, or none came after it |
| Rich.EmittedTools | pkg/relay/rich.go:201-225 | tool calls are streamed if and only if the provider gave some |
| RichCalls.EveryKindGoesOut | pkg/relay/rich.go:178-230 | every tool call, reasoning text and usage report of the provider goes out once, in order |
| RichCalls.DeltasMeaning | pkg/relay/rich.go:218-224 | each fragment carries its call's number, id, name and arguments |
| RichCalls.CallsKeepTheirFields | pkg/relay/rich.go:201-225 | what is streamed under a number is the last non-empty id and name that the provider gave for it, and its arguments joined |
| RichCalls.ResponseFromProvider | pkg/relay/rich.go:239-257 | when the provider numbers its calls 0 to k-1, the response is the text, if any, and then block j with the id, name and trimmed arguments of call j, or an empty object when those are blank; the placeholder when there is neither |
| RichCalls.StopFromProvider | pkg/relay/rich.go:233-238 | the stop reason of the response, from the last finish reason and whether the provider gave any tool call |
| Identity.SplitCsv | pkg/common/authcontext/authcontext.go:506-516 | the trimmed, non-empty parts between commas |
| Identity.PaddedListIsTrimmed | pkg/common/authcontext/authcontext.go:506-516 | spaces around the entries of a list are taken off, one by one |
| Identity.BlankEntryIsSkipped | pkg/common/authcontext/authcontext.go:506-516 | an entry of spaces only is skipped |
| Identity.Request.InjectHeaders | pkg/common/authcontext/authcontext.go:467-482 | the headers after all non-empty values have been set in order |
| Identity.Request.SetHeader | pkg/common/authcontext/authcontext.go:518-522 | an empty value sets nothing |
| Identity.Request.Extract | pkg/common/authcontext/authcontext.go:262-284 | the identity in the headers, or none without a user |
| Identity.DefaultNamesDistinct | pkg/common/authcontext/authcontext.go:402-412 | the default header names are seven different headers |
| Identity.CapitalsDoNotMatter | pkg/common/authcontext/authcontext.go:262-284 | proper header names are the same header if and only if they are spelled alike apart from capitals |
| Identity.AbsentHeadersAreEmpty | pkg/common/authcontext/authcontext.go:262-284 | without headers there is no identity, and with only a user the other fields are empty |
| Identity.ListSurvivesExactly | pkg/common/authcontext/authcontext.go:467-516 | a list comes back if and only if its parts are non-empty, trimmed and free of commas |
| Identity.RoundTripExactly | pkg/common/authcontext/authcontext.go:262-522 | an injected identity is extracted unchanged if and only if it has a user, its fields and list parts are clean, and no older header shows through an empty field |

## Left out

- Floating-point rounding: filter, gain and sample arithmetic is over `real`; the design of the filter taps (sine, cosine, windows) is replaced by arbitrary taps.
- Keywords and texts are sequences of characters; invalid UTF-8 and its replacement by U+FFFD are not modelled.
- Jitter.JitterBuffer.Write: requires a capacity above 0, as does Read; the source divides by the capacity and panics at 0.
- Jitter buffer: `Reset` (which does not rewind the read position), blocking reads and statistics.
- LowPass.LowPassFir.Filter: requires that the input is not one of the filter's own arrays, because feeding the returned buffer back in would be overwritten while it is read.
- RateLimiter.Limiter.Allow: requires a clock that does not run backwards; the slice capacity shared between old and trimmed timestamps is not visible in the model.
- Batch: the timer, which is not rearmed after it fires on an empty buffer, so nothing is said about when a flush happens; the senders' side of the channels; error-handler callbacks.
- Cache-aside: expiry of the entry is a removal that may happen at any time; expiry of the lock lease (`LockTTL`) is not modelled, so a holder keeps the lock until it unlocks; the JSON wrapper and batch invalidation.
- Agent loop: timeouts and liveness of the ASR, LLM and TTS calls; callbacks; stopping and destroying a session. A barge-in from outside may come at any check and during any frame. Frames that arrive while a turn is held are signals that come after it.
- WAV files: the reader's stream is a byte sequence, so short reads and seek errors other than a truncated file do not occur; odd chunk padding is not skipped, as in the code.
- Recorder: I/O errors and the race between a write and a close.
- Mixer.OrderFreeExactly: stated for weighted samples that are whole numbers. With fractions of both signs each addition truncates, and only the one-way case (`OneWayIsOrderFree`) and an example (`FractionalGainIsHeard`) are given. Ticks, channels and dropped frames are not modelled.
- Output queue: an unbuffered queue, where a send needs a waiting receiver.
- Registry: Go types that are their own pointer type (`type T *T`); lifecycle hooks and `Range`.
- SSE: `extractSSEChunk` is an arbitrary function from payloads to optional chunks; usage extraction.
- Rich translation: the request side (`richMessageToFlat` and JSON encoding) and the native Anthropic stream.
- Identity: extra metadata is not forwarded; a header with several values is its first value; nil identities and requests; JWT extraction.
- HTTP handlers, database models, routing, telemetry, storage and the web client: library plumbing or tables.
