# Verified model of the gateway's state machines

This project models, in Dafny, the parts of the LLM gateway that decide something: how hidden reasoning is split
from streamed text, how requests fail over between API keys, how the circuit breaker, the rate limiter and the
prompt cache behave over time, how prices are layered, how OAuth tokens are refreshed, how Anthropic streams are
translated, and how catalog entries are matched to models. Each part has functions that say what one step does,
classes and methods with loops where the program mutates state, and theorems about all runs.

`dafny verify dfyconfig.toml` checks everything.

## What is proved

* **Think tags.** One drain of the splitter agrees with a left-to-right reference scanner for every list of tags.
  For every configuration, feeding in pieces agrees with feeding at once for every cutting if and only if no
  tag's first character stands strictly inside a tag and no tag is a proper prefix of another; every list of
  `<...>` tags meets that. What is held back after a feed is shorter than some tag, begins with a tag's first
  character, and contains no tag; when it can still become one is characterised exactly.
* **Normalising stream.** What is sent depends only on the upstream bytes. Streamed content equals one-shot
  extraction if and only if the stream does not end in text mode, behind a tag, with a tail held back; then
  exactly that tail is sent as reasoning. For k upstream `[DONE]` lines max(1, k) frames are sent. Reasoning
  that the upstream sends in fields of its own is never dropped. Which lines yield nothing, and which fields
  survive, is stated on the JSON fields. A client that parses the bytes reads back the frames, plus whatever it
  takes passed-on lines for; exactly when that adds nothing is stated. The laws assumed of UTF-8 and JSON are
  shown to be satisfiable.
* **Failover.** When the retry loop goes on, how it ends and what it tells the breaker is read off its log and
  the answers it got, exactly. In every run of the retry loop over a pool with distinct key hashes and a usable
  key: at most `max_retries + 1` attempts, no demoted key picked again, each demotion costs exactly one usable
  key, one always remains. In any state of many concurrent requests, the demotions on their way can empty a pool
  if and only if they name every usable key; over every interleaving with health revivals a pool is never in
  that danger if and only if no check passes for the only usable key not yet named. Non-overlapping demotions
  over distinct hashes are one case.
* **Circuit breaker.** State is a function of the call trace; keys do not affect each other; for one key among
  many, refusals, grants and trips are placed exactly relative to the cooldown, trips are rate bounded, and the
  success that closes a half-open circuit is exactly the max(1, `half_open_max`)-th since the cooldown.
* **Token bucket.** A call is admitted if and only if admitting it overdraws no window ending at it, where a
  window of T seconds is good for capacity + capacity * T / 60 calls.
* **Prompt cache.** Bounded size; a hit is the latest put and not expired; an unexpired key is a hit if at most
  `max_entries` puts are as young as its last one; the text hashed for a cache key is an injective encoding of
  the request.
* **Pricing.** Lookup in the composed table is one declarative resolution order, for all inputs.
* **Credentials.** Single-flight refresh over all interleavings; a usable token is never replaced; identity
  survives rotation; the key handed out is unexpired when it is decided on exactly unless the issuer was asked
  and granted at most five minutes. Device polling follows section 3.5 of RFC 8628.
* **Anthropic relay.** Every event up to the message stop reaches the client in order, for every chunking;
  content is preserved if and only if no delta's text is the word "assistant". Fed into the normalising stream,
  as it is when think tags are to be stripped, one `[DONE]` reaches the client after a message stop or an error
  and two otherwise, and the content is the one-shot extraction of the texts relayed.
* **Catalog.** The match picked is the unique best one, whatever the order of the candidates; what makes one
  better is stated as an order on how it matches and whose it is.

## Where code and documentation differ

The model follows the code.

* `src/config_store.rs:60-73` ranks a global override above every YAML price. In the code a YAML price for the
  tenant wins. `Pricing.DocumentedExactly` says exactly when the two agree; `Pricing.DocumentationDiffers` is an
  instance where they do not.
* The repository's `README.md:18` calls the prompt cache LRU. Eviction is by age of the put.
  `PromptCache.LruExactly` says exactly when the entry evicted is least recently used,
  `PromptCache.UnreadVictimIsLru` that it is if nobody has read it since, and
  `PromptCache.ReadingDoesNotProtect` is a run where it is not.
* `src/health.rs:8` says keys are permanently exiled after repeated failed probes. They are probed and revived
  like all others (`Health.NeverExiled`).
* `src/router.rs:210` says the last healthy key is not demoted. `Router.DemotionEmptiesExactly` (duplicate
  hashes) and `FailoverProtocol.DangerExactly` (concurrent demotions) say exactly when that fails.
* `src/response_normalize.rs:28-30,166-167,230-232` say a tail is held because it might still be a tag prefix.
  Only its first character is tested: `<x` is held (`ThinkTagLimits.HeldForNothing`).
  `ThinkTagLimits.HeldCanBecomeTag` says when the reason given is true. It matters at the end of a stream, where
  a held tail behind a think block is sent as reasoning.
* `src/response_normalize.rs:111-112` says several think blocks are joined with a newline. One unclosed block
  can also get a newline inside (`ThinkTagExtract.UnclosedBlockIsCut`); `ThinkTagExtract.ExtractThinkTags` says
  exactly when.
* `src/credential/mod.rs:75` promises a currently valid key. Tokens are stored as expiring five minutes early,
  so a token granted for less is handed out expired (`Credentials.ShortLivedHandedOut`);
  `Credentials.ValidExactly` and, over all interleavings, `Credentials.ValidInRuns` say that this is the only
  exception.
* The Anthropic relay never ends with one `[DONE]`: it sends two, or none after a message stop or an error
  (`AnthropicTheorems.EndMarks`).

## Assumptions

The network, the clock, UTF-8, JSON, digests and random choice are arguments or nondeterministic; what is
assumed of UTF-8 and JSON is `WireTheorems.Lawful`, which asks that parsing undo rendering up to the values of
numbers. Strings are sequences of Unicode scalars; lengths that the program counts in bytes are counted in UTF-8
bytes. Each registry, breaker and cache call is one atomic step, as is counting the healthy keys of a pool, and
pools are fixed. Clocks do not run backwards within a run. Rates and prices are real numbers.

## Model

| member | source | states |
|---|---|---|
| `ThinkTags.ScanSpells` | src/response_normalize.rs:233-270 | the reference scanner's pieces spell the input: no character is lost, invented or moved |
| `ThinkTagTheorems.ScanToTag` | src/response_normalize.rs:233-270 | scanning is: everything up to the earliest, longest tag goes to the current side, then scanning goes on behind it in the other mode |
| `ThinkTagTheorems.DrainIsScan` | src/response_normalize.rs:233-270 | for every tag list and input, one drain followed by a flush has the reference scanner's text, reasoning, final mode and tag count |
| `ThinkTagTheorems.HoldPosIs` | src/response_normalize.rs:317-371 | the held tail begins at the last position, within the window of the longest tag less one byte, where the first character of a tag stands; nothing is held if there is none |
| `ThinkTagTheorems.HeldTail` | src/response_normalize.rs:233-371 | after any drain a non-empty held tail is shorter in bytes than the longest tag, begins with a tag's first character, and contains no active tag |
| `ThinkTagTheorems.FindNextStable` | src/response_normalize.rs:280-307 | for separable tags, a tag found stays the next tag whatever input follows |
| `ThinkTagTheorems.EmittedIsDead` | src/response_normalize.rs:317-371 | for separable tags, nothing already emitted can turn out to begin a tag, whatever follows |
| `ThinkTagTheorems.HoldPosShift` | src/response_normalize.rs:317-371 | the tail held of `x + y` is the tail held of what `x` held followed by `y` |
| `ThinkTagTheorems.DrainSplit` | src/response_normalize.rs:225-371 | draining `x + y` gives the same text, reasoning, mode, tag count and held tail as draining `x` and then feeding `y` |
| `ThinkTagTheorems.ChunkingIrrelevant` | src/response_normalize.rs:225-371 | for separable tags (the exact condition), every way of cutting the content into feeds gives what one feed gives, held tail included |
| `ThinkTagTheorems.ChunkedFeedingIsScan` | src/response_normalize.rs:225-378 | for separable tags, chunked feeding and a final flush equal the reference scan of the concatenated input |
| `ThinkTagLimits.SeparableExactly` | src/response_normalize.rs:225-371 | for every configuration of pairs: all cuttings of all contents give what one feed gives if and only if the tags are separable |
| `ThinkTagLimits.PrefixTagsBreakChunking` | src/response_normalize.rs:225-371 | whenever one tag is a proper prefix of another, cutting behind the shorter one, after any open tag, changes the result |
| `ThinkTagLimits.RecurringStartBreaksChunking` | src/response_normalize.rs:317-371 | whenever a tag has a tag-start character strictly inside, some cutting of it, after any open tag, changes the result |
| `ThinkTagLimits.ScanShape` | src/response_normalize.rs:233-270 | the reference scan is the characters up to the earliest, longest tag, that tag, and the scan behind it |
| `ThinkTagLimits.HeldIs` | src/response_normalize.rs:233-371 | what a drain holds back is the end of the text behind the last tag of the scan, from its hold position on |
| `ThinkTagLimits.HeldFromLastStart` | src/response_normalize.rs:317-371 | nothing is held exactly if no tag-start character stands in the window; otherwise everything from the last one on |
| `ThinkTagLimits.HeldCanBecomeTag` | src/response_normalize.rs:317-371 | for separable tags, the held tail can still become a tag if and only if some end of the text behind the last tag can |
| `ThinkTagLimits.HeldForNothing` | src/response_normalize.rs:317-371 | with the built-in tags `<x` is held although no tag begins with it |
| `ThinkTagLimits.HeldShorterThanTag` | src/response_normalize.rs:317-371 | for every configuration, what is held back after any drain is shorter in bytes than some configured open or close tag |
| `ThinkTagAccumulator.BracketedSeparable` | src/response_normalize.rs:35-40 | any list of tags shaped like `<...>` is separable |
| `ThinkTagAccumulator.BuiltinSeparable` | src/response_normalize.rs:35-40 | the built-in pairs are separable, so the chunking theorems apply to them |
| `ThinkTagAccumulator.LongestIs` | src/response_normalize.rs:190-203 | the cached length is the byte length of some configured open or close tag, and no such tag is longer |
| `ThinkTagAccumulator.BuiltinLongest` | src/response_normalize.rs:35-40 | for the built-in pairs it is 11 |
| `ThinkTagAccumulator.ActiveTags` | src/response_normalize.rs:280-307 | the tags looked for in reasoning are the non-empty tags of pairs whose open tag is not empty; in text, the open ones among them |
| `ThinkTagAccumulator.FindNextSnoc` | src/response_normalize.rs:280-307 | the running replacement rule (earlier, then longer in bytes) keeps the earliest, longest tag |
| `ThinkTagAccumulator.PrefixOfTag` | src/response_normalize.rs:331-360 | a tail begins some tag exactly when its first character does, which is what the backward walk tests |
| `ThinkTagAccumulator.Accumulator.constructor` | src/response_normalize.rs:190-203 | starts in text mode, with nothing held, no tag counted and the longest tag cached (`LongestIs` says which length that is) |
| `ThinkTagAccumulator.Accumulator.Feed` | src/response_normalize.rs:225-228 | events and new state are those of one drain of the held tail followed by the delta |
| `ThinkTagAccumulator.Accumulator.DrainResolved` | src/response_normalize.rs:233-270 | the loop terminates and its events, mode, held tail and tag count are those of the recursive drain |
| `ThinkTagAccumulator.Accumulator.FindNextTag` | src/response_normalize.rs:280-307 | returns the earliest active tag, the longest of those that begin there |
| `ThinkTagAccumulator.Accumulator.HoldPartialTail` | src/response_normalize.rs:317-371 | splits the buffer at the hold position: the front is returned, the tail kept (`HeldShorterThanTag` bounds it by a configured tag) |
| `ThinkTagAccumulator.Accumulator.Flush` | src/response_normalize.rs:376-378 | returns and clears the held tail |
| `ThinkTagExtract.NowhereIff` | src/response_normalize.rs:280-307 | a tag is found if and only if some tag occurs somewhere in the input |
| `ThinkTagExtract.TaglessText` | src/response_normalize.rs:117-154 | without an open tag the drain counts no tag, stays in text and yields the input unchanged |
| `ThinkTagExtract.ReadEvents` | src/response_normalize.rs:123-135 | the event loop yields the text side, the reasoning joined by newlines, and whether there was any |
| `ThinkTagExtract.BlocksAreReasoning` | src/response_normalize.rs:117-154 | the think blocks of a scan, its non-empty runs of reasoning characters between tags, make up its reasoning side in order |
| `ThinkTagExtract.PartsAre` | src/response_normalize.rs:117-154 | what one drain and its flush hand over as reasoning is those blocks, except that a last, unclosed block is cut at its hold position if that is inside it |
| `ThinkTagExtract.ExtractThinkTags` | src/response_normalize.rs:117-154 | the content returned is the text side of the reference scan; no reasoning exactly when no open tag occurs, and then the content is unchanged; otherwise the think blocks joined by newlines if and only if the input does not end in an unclosed block cut by its hold position, and what it is then |
| `ThinkTagExtract.UnclosedBlockIsCut` | src/response_normalize.rs:137-143 | an input with a single block for which a newline is put inside the block |
| `Lines.CutKeeps` | src/server/stream_normalize.rs:89-98 | cutting into lines keeps every byte in order; each piece ends with its only LF; the rest has none |
| `Lines.CutMore` | src/server/stream_normalize.rs:54-98 | cutting a longer buffer is cutting its front and then what was left followed by the new bytes |
| `StreamTheorems.RemainingSplit` | src/server/stream_normalize.rs:89-98 | processing the buffer's complete lines first changes nothing of what the whole stream sends |
| `StreamTheorems.NetworkChunkingIrrelevant` | src/server/stream_normalize.rs:54-98 | for every way the network cuts the bytes, what is sent is a function of their concatenation |
| `StreamTheorems.DoneTracked` | src/server/stream_normalize.rs:110-115 | each upstream `[DONE]` line is passed on once, and the seen flag is set exactly if there was one |
| `StreamTheorems.DoneExactly` | src/server/stream_normalize.rs:110-149 | a stream with k upstream `[DONE]` lines sends exactly max(1, k) |
| `StreamTheorems.ChoiceSplit` | src/server/stream_normalize.rs:206-256 | one choice's content goes through the splitter; text replaces content, reasoning is appended behind the upstream's own reasoning, and a choice not emitted carries neither |
| `StreamTheorems.ChoicesRun` | src/server/stream_normalize.rs:206-256 | over all choices of a chunk, the text sent is what the splitter adds to its text side, the accumulator is where feeding the contents leaves it, and an unsent chunk carries neither text nor reasoning; likewise for reasoning without fields of the upstream's own |
| `StreamTheorems.LinesRun` | src/server/stream_normalize.rs:100-140 | the same over all lines of a stream |
| `StreamTheorems.StreamingIsOneShot` | src/server/stream_normalize.rs:142-256 | streamed content equals the one-shot text side if and only if the stream does not end in text mode with a tag behind it and a tail held; then exactly that tail moves to reasoning, which without reasoning fields of the upstream's own is the one-shot reasoning side and that tail |
| `StreamTheorems.MisfiledExactly` | src/server/stream_normalize.rs:142-149 | the exceptional ending, on the input: the scan ends in text, behind some tag, with a tag-start character in the window of the last text |
| `StreamReasoning.ChoicesWoven` | src/server/stream_normalize.rs:206-256 | over all choices of a chunk, the reasoning sent is each choice's own reasoning fields followed by the reasoning split from its content, in order |
| `StreamReasoning.LinesWoven` | src/server/stream_normalize.rs:100-140 | the same over all lines of a stream |
| `StreamReasoning.ReasoningNeverDropped` | src/server/stream_normalize.rs:12-13 | for every stream, with any reasoning fields: the reasoning sent is that interleaving and the held tail if it goes there; in length it is all of the upstream's own reasoning, all of the scan's, and a misfiled tail |
| `StreamFields.SilentExactly` | src/server/stream_normalize.rs:100-256 | at any point of any stream a line yields nothing if and only if it is blank, or a chunk without usage, with choices, each of which has an object delta, no finish reason, and in the delta only empty or null fields besides a content that brings nothing out |
| `StreamFields.DeltaQuiet` | src/server/stream_normalize.rs:160-256 | when a rewritten delta has nothing worth sending, field by field of the original one |
| `StreamFields.ChunkKeeps` | src/server/stream_normalize.rs:206-256 | a chunk that is sent keeps all its fields but the choices; each choice keeps its finish reason, all its other fields, and all of its delta but content and the reasoning aliases |
| `StreamFields.OthersGoOut` | src/server/stream_normalize.rs:100-140 | a line that cannot be decoded goes out unchanged; one that is no chunk, as its text and a blank line |
| `StreamFields.ReadsData` | src/server/stream_normalize.rs:100-140 | a `data:` line, with any white space behind the colon and any line end, is the end mark, a chunk if what follows is a JSON object, or neither |
| `NormalizingStream.Sides` | src/server/stream_normalize.rs:233-242 | the event loop yields the two sides, concatenated |
| `NormalizingStream.RewriteChoice` | src/server/stream_normalize.rs:214-254 | the in-place edit of a choice has the specified result, accumulator state and verdict whether to send (`StreamFields.SilentExactly` says when) |
| `NormalizingStream.RewriteChunk` | src/server/stream_normalize.rs:206-256 | the loop over choices threads one accumulator and emits if any choice, or usage, asks for it (`StreamFields.SilentExactly` says when none does) |
| `NormalizingStream.Stream.constructor` | src/server/stream_normalize.rs:34-48 | a new stream owes the normalised form of all upstream bytes |
| `NormalizingStream.Stream.TransformLine` | src/server/stream_normalize.rs:100-140 | what a line turns into, and the new accumulator and flag |
| `NormalizingStream.Stream.ProcessPending` | src/server/stream_normalize.rs:89-98 | what it returns, followed by what is still owed, is what was owed before; it returns nothing only when no complete line is left |
| `NormalizingStream.Stream.FlushEof` | src/server/stream_normalize.rs:142-149 | the held tail on the chosen side, then `[DONE]` unless one was seen |
| `NormalizingStream.Stream.PollNext` | src/server/stream_normalize.rs:54-81 | every poll hands over the next part of what is owed and nothing else, and polling terminates |
| `NormalizingStream.Completed` | src/server/stream_normalize.rs:71-76 | completing an unterminated last line at end of stream does not change what is owed |
| `NormalizingStream.CollectAll` | src/server/stream_normalize.rs:54-149 | a consumer that polls to the end receives the normalised form of the upstream bytes, whatever the chunking, stalls and errors |
| `WireTheorems.DecodedLine` | src/server/stream_normalize.rs:100-140 | a decoded line has its newline at the end and nowhere else |
| `WireTheorems.ChunkFits` | src/server/stream_normalize.rs:206-256 | rewriting a chunk keeps it a value that JSON text can denote, within the same nesting depth |
| `WireTheorems.LineReadsBack` | src/server/stream_normalize.rs:100-140 | the bytes sent for any line read back as the frame that was meant, up to the values of numbers and blank lines aside; a line passed on is read with one more carriage return stripped |
| `WireTheorems.RemainingReadsBack` | src/server/stream_normalize.rs:100-149 | all frames of any stream read back |
| `WireTheorems.WireRead` | src/server/stream_normalize.rs:258-286 | reading concatenated frames that read back is reading the frames one by one |
| `WireTheorems.ClientSees` | src/server/stream_normalize.rs:54-149 | on bytes, end to end, for every upstream: max(1, k) `[DONE]` lines plus one per passed-on line that is taken for one, hence max(1, k) if and only if there is none; on any field that is not a number the client reads what the frames say if and only if no passed-on line is taken for a chunk that says something there |
| `WireTheorems.TextIsBlind` | src/server/stream_normalize.rs:206-256 | content and reasoning are such fields |
| `WireTheorems.DoubleCrIsStray` | src/server/stream_normalize.rs:100-140 | such a line: `[DONE]` with two carriage returns is passed on as text and taken for an end mark |
| `CodecWitness.SomeCodecIsLawful` | src/server/stream_normalize.rs:100-140 | the laws assumed of UTF-8 and JSON have a model |
| `Router.BadKeyRegistry.Mark` | src/router.rs:42-47 | appends to the pool's list, other pools untouched |
| `Router.BadKeyRegistry.Remove` | src/router.rs:82-90 | drops every copy of the hash, and the pool's entry once empty |
| `Router.BadKeyRegistry.Candidates` | src/router.rs:165-187 | the pool's positive-weight keys that are not bad, in order |
| `Router.BadKeyRegistry.PickKey` | src/router.rs:178-198 | nothing exactly when no key of the pool is selectable; otherwise a key of the pool with a positive weight whose hash is not on its bad list |
| `Router.BadKeyRegistry.TryDemote` | src/router.rs:216-222 | refuses exactly when at most one key is selectable; otherwise marks the key |
| `Router.RegistryRefinesSets` | src/router.rs:42-90 | with its duplicates, the list registry behaves as one set of bad hashes per pool, and pools are independent |
| `Router.RemoveUndoesMarks` | src/router.rs:42-90 | one removal undoes any number of marks |
| `Router.MarkTakesCopies` | src/router.rs:165-222 | marking a hash lowers the selectable count by exactly the number of selectable entries with that hash |
| `Router.DemotionTakesOne` | src/router.rs:165-222 | with distinct hashes, demoting a selectable key lowers the count by exactly one |
| `Router.RemoveNeverLowers` | src/router.rs:82-90 | a removal never lowers the selectable count |
| `Router.DemotionEmptiesExactly` | src/router.rs:210-222 | demoting a selectable key empties the pool if and only if all selectable entries carry its hash |
| `Router.DuplicateHashEmptiesPool` | src/router.rs:210-222 | an instance where the guard passes and the pool ends up empty |
| `Failover.AccountsMore` | src/server/handler.rs:186-473 | one more attempt on a selectable key keeps the account: bad set, count, and no key picked after its demotion |
| `Failover.RunBounded` | src/server/handler.rs:186-473 | every run makes at most `max_retries + 1` attempts and reports at most `max_retries` retries |
| `Failover.RunAccounts` | src/server/handler.rs:186-473 | every run over distinct hashes with a usable key: no demoted key picked again, each demotion costs exactly one usable key, one always remains |
| `FailoverRounds.RoundExactly` | src/server/handler.rs:200-473 | one attempt: the upstream is called exactly if the credential is fresh and the breaker allows; the key is demoted exactly if it was blamed and another one is left; the loop goes on exactly if the round asked for another key and tries are left; and which ending and retry count each kind of round gives |
| `FailoverRounds.LoopExactly` | src/server/handler.rs:186-473 | every run, on its log and rounds: it goes on after attempt n if and only if n is at most `max_retries` and round n asked for another key; it ends as its last round says, reporting the retries before it |
| `FailoverRounds.BreakerHears` | src/server/handler.rs:186-473 | in every run the breaker is asked once per fresh credential, told a success for each answer and a failure for each error that blames the key, and nothing else |
| `FailoverRounds.EndsOnlyWhenOutOfTries` | src/server/handler.rs:186-473 | a run that ends although its last round asked for another key made exactly `max_retries + 1` attempts |
| `Failover.TryOnce` | src/server/handler.rs:200-473 | one iteration has exactly the specified effect on registry, breaker, retries and log (`FailoverRounds.RoundExactly` says which) |
| `Failover.HandleRequest` | src/server/handler.rs:186-473 | the loop terminates and is a valid run, with the bounds and the account above and the endings of `FailoverRounds.LoopExactly`; it reports an exhausted pool if nothing was usable at the start, and never if the hashes are distinct and something was |
| `FailoverProtocol.CanEmptyExactly` | src/router.rs:216-222 | in any state, the marks on their way can leave a pool without a usable key if and only if they name every usable key |
| `FailoverProtocol.SafeStep` | src/router.rs:42-90 | from a state without that danger, the only step that brings it is a check that passes for the only usable key not yet named, and it always does |
| `FailoverProtocol.DangerExactly` | src/router.rs:216-222 | over every interleaving of checks, marks and revivals, a pool is never in danger if and only if no such check passes |
| `FailoverProtocol.NeverEmptied` | src/router.rs:42-90 | hence with distinct hashes and no two overlapping demotions of a pool, that pool is never in danger and keeps a usable key |
| `FailoverProtocol.OverlapEmptiesPool` | src/router.rs:216-222 | in every pool with exactly two usable keys, two overlapping demotions take out both |
| `FailoverProtocol.AtomicIsSerial` | src/router.rs:216-222 | with the demotion atomic, no two overlap, and the run is the composition of its atomic steps |
| `FailoverProtocol.AtomicKeepsOne` | src/router.rs:216-222 | with the demotion atomic, every interleaving keeps a usable key |
| `Health.HealthTask.Round` | src/health.rs:52-104 | one pass over the snapshot revives and counts exactly as specified entry by entry |
| `Health.RoundRevives` | src/health.rs:58-85 | a round removes from each pool's bad set exactly the hashes whose probe succeeded |
| `Health.NeverExiled` | src/health.rs:80-102 | revival does not depend on the failure counters, and a counter is the failures since the key last answered |
| `Health.RoundIsRevivals` | src/health.rs:52-104 | to the failover protocol a round is a sequence of revivals, so the interleaving theorems cover it |
| `CircuitBreaker.CircuitBreaker.constructor` | src/circuit_breaker.rs:59-67 | starts with no circuits and no trips |
| `CircuitBreaker.CircuitBreaker.Allow` | src/circuit_breaker.rs:74-100 | the answer and the new state are those of one allow call on that key |
| `CircuitBreaker.CircuitBreaker.RecordSuccess` | src/circuit_breaker.rs:103-125 | the new state is that of one success on that key (`BreakerTheorems.ClosesExactly` says when that closes the circuit) |
| `CircuitBreaker.CircuitBreaker.RecordFailure` | src/circuit_breaker.rs:128-162 | reports a trip, counts it, and leaves the state of one failure on that key |
| `CircuitBreaker.CircuitBreaker.ResetCircuit` | src/circuit_breaker.rs:174-181 | forgets what was recorded for that key only |
| `BreakerTheorems.KeysIsolated` | src/circuit_breaker.rs:74-162 | after any run, a key's entry is what the calls on that key alone produce |
| `BreakerTheorems.AnswersIsolated` | src/circuit_breaker.rs:74-162 | the last answer of any run is what the calls on its key alone give |
| `BreakerTheorems.StateRefinesTrace` | src/circuit_breaker.rs:74-162 | while closed, the counter is the failures since the last success or reset and is below the threshold; open or half-open it is the threshold; half-open successes are below the maximum |
| `BreakerTheorems.RefusedExactly` | src/circuit_breaker.rs:74-100 | after every run, for every key, refused exactly when open with the cooldown still running, or half-open when no success is wanted |
| `BreakerTheorems.TotalTripsExact` | src/circuit_breaker.rs:128-186 | the trip counter is the number of failures reported as trips |
| `BreakerTheorems.StaysOpen` | src/circuit_breaker.rs:74-162 | in a run over many keys, after a trip of one key its circuit stays open, whatever is recorded on any key, until an allow on it after the cooldown |
| `BreakerTheorems.RefusedDuringCooldown` | src/circuit_breaker.rs:74-100 | in such a run, every allow on the key before the end of the cooldown is refused |
| `BreakerTheorems.GrantedAfterCooldown` | src/circuit_breaker.rs:74-100 | in such a run, the first allow on the key at or after the end of the cooldown is granted, whatever was recorded meanwhile |
| `BreakerTheorems.TripsApart` | src/circuit_breaker.rs:128-162 | in such a run, trips of one key are at least a cooldown apart |
| `BreakerTheorems.TripsTakeTime` | src/circuit_breaker.rs:128-162 | n trips take at least n - 1 cooldowns |
| `BreakerTheorems.TripRateBounded` | src/circuit_breaker.rs:128-162 | in any stretch of length T one key trips at most 1 + T / cooldown times |
| `BreakerTheorems.TrippedExactly` | src/circuit_breaker.rs:128-162 | in a run over many keys, a failure is a trip if and only if the circuit is half-open, or closed with a streak that this failure brings to the threshold; then the circuit is open from that moment |
| `BreakerTheorems.HalfOpenCounts` | src/circuit_breaker.rs:74-125 | in such a run, behind the allow that ends a cooldown, the circuit is half-open and counts the successes since, until max(1, `half_open_max`) are reached or a failure or reset comes |
| `BreakerTheorems.ClosesExactly` | src/circuit_breaker.rs:103-125 | a success then closes the circuit if and only if it is exactly the max(1, `half_open_max`)-th |
| `BreakerTheorems.RelapseTrips` | src/circuit_breaker.rs:128-162 | any failure before that is a trip |
| `BreakerTheorems.HalfOpenSince` | src/circuit_breaker.rs:74-162 | a circuit is half-open in no other way |
| `TokenBucket.TokenBucket.constructor` | src/ratelimit/mod.rs:31-38 | a new bucket is full |
| `TokenBucket.TokenBucket.DoConsume` | src/ratelimit/mod.rs:40-48 | refills, then takes one token exactly if one is there |
| `TokenBucket.TokenBucket.DoRefill` | src/ratelimit/mod.rs:50-57 | adds one capacity a minute, capped at the capacity (`WindowBound` and `AdmittedExactly` state the rate in seconds) |
| `TokenBucket.TokensInRange` | src/ratelimit/mod.rs:31-58 | in every run the tokens stay between zero and the capacity |
| `TokenBucket.LevelBelowQuota` | src/ratelimit/mod.rs:40-57 | the level never exceeds one bucketful plus the refill since any earlier call, less the calls admitted since |
| `TokenBucket.LevelIsSomeQuota` | src/ratelimit/mod.rs:40-57 | and it equals that bound for some earlier call |
| `TokenBucket.AdmittedExactly` | src/ratelimit/mod.rs:40-48 | a call is admitted if and only if for no window that ends with it, T seconds long, the calls admitted exceed capacity + capacity * T / 60 |
| `TokenBucket.WindowBound` | src/ratelimit/mod.rs:31-58 | any window of T seconds admits at most capacity + capacity * T / 60 calls |
| `TokenBucket.SteadyClientNeverRefused` | src/ratelimit/mod.rs:31-58 | a client that leaves 60 / capacity seconds between calls is never refused |
| `TokenBucket.RefillCompose` | src/ratelimit/mod.rs:50-57 | refilling twice is refilling once at the later time |
| `TokenBucket.RefusedLeavesNoTrace` | src/ratelimit/mod.rs:40-57 | deleting a refused call from a run changes no other verdict |
| `PromptCache.PromptCache.constructor` | src/cache/mod.rs:29-41 | starts empty; a maximum of zero becomes 256 |
| `PromptCache.PromptCache.Get` | src/cache/mod.rs:96-107 | returns the entry unless absent or expired; an expired one is dropped, nothing else changes |
| `PromptCache.PromptCache.Put` | src/cache/mod.rs:109-119 | stores the response, evicting first, if full, an entry that no other is older than |
| `PromptCache.PromptCache.EvictOldestIfNeeded` | src/cache/mod.rs:139-156 | the scan finds an entry that no other is older than, and removes only that one, only if full |
| `PromptCache.PromptCache.Prune` | src/cache/mod.rs:125-137 | keeps exactly the unexpired entries and returns how many it dropped |
| `PromptCache.SizeBounded` | src/cache/mod.rs:96-156 | in every run the cache never exceeds its maximum |
| `PromptCache.StoredIsLatest` | src/cache/mod.rs:96-156 | whatever is stored under a key is its latest put |
| `PromptCache.OldestAfterManyPuts` | src/cache/mod.rs:139-156 | an entry is the oldest of a full cache only once there were maximum many puts as young as its own |
| `PromptCache.RecentPutIsHit` | src/cache/mod.rs:96-156 | if at most maximum many puts are as young as the last put of a key, an unexpired key is a hit with its latest response; without puts that share an instant these are the last maximum puts |
| `PromptCache.SameInstantMayMiss` | src/cache/mod.rs:139-156 | of puts at one instant, the one put last may be evicted first |
| `PromptCache.HitIsFreshAndLatest` | src/cache/mod.rs:96-107 | a hit returns the latest put of its key, aged at most the time to live |
| `PromptCache.PruneUnseen` | src/cache/mod.rs:125-137 | pruning changes the result of no later series of lookups until the next put |
| `PromptCache.PrunedExactly` | src/cache/mod.rs:125-137 | pruning leaves exactly the entries aged at most the time to live, unchanged; those left are the hits |
| `PromptCache.LruExactly` | src/cache/mod.rs:139-156 | in every run, the entry eviction picks is least recently used if and only if, for every lookup that found it since its put, all stored keys were used since |
| `PromptCache.UnreadVictimIsLru` | src/cache/mod.rs:139-156 | eviction is LRU for an entry that no lookup has found since it was put |
| `PromptCache.ReadingDoesNotProtect` | src/cache/mod.rs:139-156 | a legal run after which the oldest entry, next to be evicted, was just read and is not least recently used |
| `CacheKey.HashInput` | src/cache/mod.rs:74-92 | the bytes fed to the hasher, piece by piece, are the encoding of the request |
| `CacheKey.SeparatedInjective` | src/cache/mod.rs:74-92 | separator-free fields can be recovered from their separated concatenation |
| `CacheKey.EncodeIsSeparated` | src/cache/mod.rs:74-92 | the encoding is a separated list of fields with an empty field behind the messages |
| `CacheKey.EncodeInjective` | src/cache/mod.rs:74-92 | equal encodings come from requests with the same model, messages, temperature and tools |
| `Pricing.CatalogLayer` | src/config_store.rs:88-101 | the first layer prices each model by its last catalog row and no tenant |
| `Pricing.YamlLayer` | src/config_store.rs:103-116 | a non-zero YAML default replaces the catalog price; YAML tenant prices are added |
| `Pricing.GlobalLayer` | src/config_store.rs:118-134 | the last global override in force replaces a model's default and touches no tenant price |
| `Pricing.TenantLayer` | src/config_store.rs:135-156 | the last override in force for a tenant replaces that tenant's price and nothing else |
| `Pricing.ComposePricing` | src/config_store.rs:78-159 | for every model and tenant, lookup in the composed table is: tenant override, YAML tenant price, global override, non-zero YAML default, catalog, zero |
| `Pricing.DocumentedExactly` | src/config_store.rs:60-159 | the documented order gives the same price if and only if no global override differs from a YAML tenant price that hides it |
| `Pricing.DocumentationDiffers` | src/config_store.rs:60-159 | an instance where the documented order gives another price |
| `Pricing.LastOverrideIs` | src/config_store.rs:118-156 | the override that counts is the price of a row in force that matches and has no later match behind it; there is none exactly if no row matches |
| `Pricing.AppliesExactly` | src/config_store.rs:188-196 | a row is in force for its model and tenant from its start, and up to but not at its end |
| `Pricing.CatalogPriceIs` | src/config_store.rs:88-101 | a catalog price is that of the model's last row, prompts at its input and completions at its output price; zero if it has none |
| `Pricing.DefaultOverCatalog` | src/config_store.rs:103-116 | with no override, a YAML default counts if and only if one of its two prices is above zero; else the catalog does |
| `Pricing.OrderIrrelevant` | src/config_store.rs:118-156 | overrides in force for distinct models and tenants can be listed in any order |
| `DevicePolling.PollsFit` | src/credential/xai.rs:161-225 | under the polling discipline the k-th poll comes k initial intervals after the start, so k intervals fit before the deadline |
| `DevicePolling.PollForTokens` | src/credential/xai.rs:161-225 | each poll waits the initial interval plus 5 s per slow-down after the previous reply, none passes the check at or after the deadline, the loop ends, and its outcome is that of the reply that ended it |
| `DevicePolling.ErrorsMean` | src/credential/xai.rs:196-222 | which error replies mean "not yet", denial, expiry and failure |
| `DevicePolling.OthersMean` | src/credential/xai.rs:161-225 | any other reply ends the flow: with the token if it grants a complete one, else with a failure |
| `Credentials.CredentialRuntime.EnsureFresh` | src/credential/mod.rs:76-134 | keys without OAuth come back unchanged; otherwise result and cached token are determined: the cached token while usable, else the entry's own, else what the issuer's reply grants, read at the third clock reading, or the reason there is nothing; other identities' tokens stay |
| `Credentials.ValidExactly` | src/credential/mod.rs:75-134 | the key handed out is unexpired at the clock reading that decided for it if and only if the issuer was not asked or granted more than five minutes |
| `Credentials.ShortLivedHandedOut` | src/credential/xai.rs:227-253 | a call that hands out, and caches, a token already expired |
| `Credentials.ValidInRuns` | src/credential/mod.rs:75-134 | over every interleaving, a key returned by any task is unexpired at that moment if and only if it did not come from such a reply |
| `Credentials.EnsuredIsRotation` | src/credential/mod.rs:76-169 | what a call returns is the entry or the entry with a token applied, so identity theorems cover it |
| `Credentials.AppliedIs` | src/credential/mod.rs:156-169 | an entry with a token applied carries exactly that token, access as key and refresh as refresh, and keeps issuer and kind |
| `Credentials.CachedIsHandedOut` | src/credential/mod.rs:76-134 | the token of the entry handed out is the one left cached |
| `Credentials.NextCallReuses` | src/credential/mod.rs:76-134 | the next call for the identity, with whatever entry, hands out that token while it is unexpired |
| `Credentials.AnswerIs` | src/credential/xai.rs:227-253 | a reply grants a token if and only if it succeeds with an access token and a refresh token is sent or was there; which two, and that it expires five minutes before the lifetime sent, or one hour, is over |
| `Credentials.FailsExactly` | src/credential/mod.rs:76-134 | a call fails, leaving the cached token, if and only if neither token is usable and there is no refresh token, no known issuer or no answer |
| `Credentials.IdentityIs` | src/config/mod.rs:232-249 | the identity is the one pinned, else the digest of an OAuth refresh token, else of the key |
| `Credentials.AloneIsEnsure` | src/credential/mod.rs:76-134 | one task of the concurrent protocol, left alone, returns and caches what one sequential call does |
| `Credentials.RotationKeepsIdentity` | src/credential/mod.rs:156-165 | applying a rotated token keeps the identity hash, even if the refresh token changes |
| `Credentials.IdentityStable` | src/config/mod.rs:232-249 | the identity hash is the same through any sequence of refreshed entries |
| `Credentials.FreshTokenUsable` | src/credential/xai.rs:227-253 | a token just obtained is usable at once exactly when it lives longer than the safety margin |
| `Credentials.InvAlways` | src/credential/mod.rs:76-134 | in every reachable state of every interleaving, only the lock holder is past its second check, and has seen the token unusable |
| `Credentials.SingleFlight` | src/credential/mod.rs:76-134 | at most one refresh is in flight |
| `Credentials.UsableTokenKept` | src/credential/mod.rs:76-134 | no step replaces a token that is still usable |
| `Credentials.TokensOutlived` | src/credential/mod.rs:76-134 | a cached token is there until it has expired |
| `Credentials.RefreshOnlyWhenNeeded` | src/credential/mod.rs:76-134 | when a refresh begins, every token cached before has expired |
| `AnthropicRelay.RelayState.ProcessEvent` | src/provider/anthropic_stream.rs:72-163 | an event updates the metadata and queues its chunk behind what is queued; only a message stop ends the stream |
| `AnthropicRelay.RelayState.FeedBytes` | src/provider/anthropic_stream.rs:46-57 | all complete lines are handled in order, the incomplete rest is kept |
| `AnthropicRelay.RelayState.NextChunk` | src/provider/anthropic_stream.rs:200-206 | takes the chunk queued first |
| `AnthropicRelay.Relay.PollUpstream` | src/provider/anthropic_stream.rs:252-292 | an upstream answer adds exactly what its bytes are worth; at end of stream two end marks are owed |
| `AnthropicRelay.Relay.PollNext` | src/provider/anthropic_stream.rs:230-293 | every poll hands over the next chunk owed; the stream ends only when nothing is owed; polling terminates |
| `AnthropicRelay.CollectAll` | src/provider/anthropic_stream.rs:230-293 | a consumer that polls to the end receives every chunk owed, in order |
| `AnthropicTheorems.RelaysEvents` | src/provider/anthropic_stream.rs:46-293 | for every script of upstream answers, the chunks sent are those of a prefix of the upstream events that reaches at least to the first message stop, or of all events if there is none, then two end marks if the upstream simply ended |
| `AnthropicTheorems.ChunkingIrrelevant` | src/provider/anthropic_stream.rs:46-57 | if only ignored events follow the message stop, the output is a function of the bytes |
| `AnthropicTheorems.ChunkingAfterStop` | src/provider/anthropic_stream.rs:46-57 | behind a message stop, one network chunk or two are relayed alike if and only if what follows is ignored |
| `AnthropicTheorems.EndMarks` | src/provider/anthropic_stream.rs:265-290 | two `[DONE]` if the upstream ends without an error or a message stop, none otherwise |
| `AnthropicTheorems.ContentRelayed` | src/provider/anthropic_stream.rs:88-198 | the client reads every text and thinking delta in order, but those whose text is "assistant" |
| `AnthropicTheorems.ContentPreservedExactly` | src/provider/anthropic_stream.rs:165-198 | content is preserved if and only if no delta's text is "assistant" |
| `AnthropicTheorems.ContentDelivered` | src/provider/anthropic_stream.rs:46-293 | end to end, for every script and chunking: of what was said, but for deltas that say "assistant", the client reads at least all up to the message stop, at most all, in order |
| `AnthropicTheorems.ClosingChunk` | src/provider/anthropic_stream.rs:112-157 | a message stop sends, last, the finish reason and token count last reported before it |
| `AnthropicEvents.EventRoundTrip` | src/provider/anthropic_stream.rs:72-163 | every event is read back from the JSON object that carries it, whatever other fields that has |
| `AnthropicEvents.MissingFields` | src/provider/anthropic_stream.rs:72-163 | what an event with missing fields is read as; other types are ignored |
| `AnthropicEvents.DataRead` | src/provider/anthropic_stream.rs:46-72 | a line `data: ` and a JSON value, white space around, is read as that value |
| `AnthropicEvents.OnlyDataRead` | src/provider/anthropic_stream.rs:46-72 | no other line is read |
| `AnthropicEvents.OneChunkEach` | src/provider/anthropic_stream.rs:75-198 | each event but ignored ones sends one chunk, with the id, model and block index last given, the finish reason last given only for a message delta or stop, and the token count last given only for a stop |
| `AnthropicEvents.FinishIs` | src/provider/anthropic_stream.rs:112-125 | length exactly for max_tokens, tool_calls exactly for tool_use, stop for all else |
| `RelayPipeline.FramesReadBack` | src/provider/anthropic_stream.rs:165-198 | the relay's chunks, serialised, read back as those chunks, and its end marks as end marks |
| `RelayPipeline.FramesContents` | src/server/handler.rs:619-621 | the normaliser behind the relay is fed exactly the texts the relay delivers, in order |
| `RelayPipeline.PipelineMarks` | src/server/handler.rs:619-621 | through relay and normaliser, for every upstream script: one `[DONE]` after a message stop or an error, two if the upstream just ends |
| `RelayPipeline.PipelineContent` | src/server/handler.rs:619-621 | through both, for every upstream script: the content sent is the one-shot extraction of the relayed texts if and only if no tail is misfiled at the end, and what is missing then |
| `Catalog.BeatsIsOrder` | src/model_import.rs:277-313 | the ranking is a strict order that separates any two candidates with different (provider, id) |
| `Catalog.PickCatalogMatch` | src/model_import.rs:277-301 | returns a match that no match beats; nothing exactly when nothing matches |
| `Catalog.BestIsUnique` | src/model_import.rs:277-313 | with distinct (provider, id) the best match beats every other match and is the same for every permutation of the candidates |
| `CatalogScores.MatchesExactly` | src/model_import.rs:237-242 | a match is the same string, one behind a path that ends in the other, or an id contained in the name |
| `CatalogScores.ScoreGap` | src/model_import.rs:243-266 | how far apart two matches score |
| `CatalogScores.SameProvider` | src/model_import.rs:243-313 | of one provider's models the better match wins: the same, then behind a path, then the longer contained id up to 20 bytes |
| `CatalogScores.SameTier` | src/model_import.rs:243-313 | of equal matches one with a configured provider wins, then the better known provider, then the tie break |
| `CatalogScores.ExactOverContained` | src/model_import.rs:243-313 | an exact match beats every contained id, whatever the providers |
| `CatalogScores.ExactAgainstQualified` | src/model_import.rs:243-313 | an exact match loses to one behind a path if and only if only the other provider is configured, and it is better known or as well known and ahead in a tie |
| `CatalogScores.QualifiedAgainstContained` | src/model_import.rs:243-313 | when a contained id beats one behind a path |
| `CatalogScores.TieExactly` | src/model_import.rs:303-313 | a tie goes to the candidate with a cost, then to the provider, then the id, that sorts first by code point |
| `CatalogScores.CompatibleExactly` | src/model_import.rs:330-352 | a provider fits a configured one with its id or kind, or of a kind that serves its models |
| `CatalogScores.RankExactly` | src/model_import.rs:267-276 | how known a provider is, as a table of normalised names |
| `CatalogScores.NormSplit` | src/model_import.rs:234-236 | names are compared character by character |
| `CatalogScores.NormOne` | src/model_import.rs:234-236 | hyphens, underscores and spaces are dropped, ASCII capitals lowered, other characters kept |
| `CatalogScores.ListedIs` | src/model_import.rs:86-110 | a model is listed under its own id if that is a string and not blank, else under its key |
| `Catalog.AddGroup` | src/model_import.rs:86-110 | one provider's models are accepted exactly if no id is blank and no (provider, id) repeats |
| `Catalog.ImportCatalog` | src/model_import.rs:79-110 | a catalog is accepted exactly when every group's models form an object, no id is blank and no (provider, id) repeats; the candidates are then all listed models in order, and an error names a fault that is there |

## Left out

- DevicePolling.PollForTokens: does not model the 64-bit overflow of `expires_in * 1000`; integers are unbounded.
- Health.HealthTask.Round: the failure counter is unbounded here and 32 bits wide in the program; the round runs without other tasks in between, which the failover protocol covers step by step.
- TokenBucket.TokenBucket.DoRefill: works on real numbers, so the rounding of 64-bit floats is not modelled.
- Failover.HandleRequest: one request's loop runs without other requests in between; the interleavings are modelled in FailoverProtocol.
- CacheKey.EncodeInjective: is about the bytes hashed; collisions of the truncated digest are not modelled.
- The two-step removal inside `remove_bad` (retain, then drop an empty list) is one atomic step here, and pools do not change while requests run.
- Several choices in one chunk share one accumulator in the program; that is modelled, and their independence is not claimed.
- `fold_message_reasoning` and `normalize_chat_response`, which merge the extracted reasoning into a buffered response, and `cost_usd`, which multiplies token counts by prices.
- The breaker's `last_failure_at` and its status listing: written or reported, never read by a decision.
- `all_bad`, the weighted choice among candidates and `src/concurrency.rs`: wrappers around foreign code.
- The Gemini relay and the other providers' request and response mapping.
- Sharing of one cache between cloned handles: one cache instance is modelled.
- HTTP handlers, middleware, SQL, migrations, alerts, the dashboard, the CLI and the frontend.
