# Verified models of RefsAPI's core algorithms and protocols

RefsAPI is a game-server plugin. Most of it connects the engine to plugins; seven of its files hold algorithms and
protocols of their own. This project models those and proves what they guarantee.

- **UTF-8 validation** (`refsapi_misc.cpp`). `Utf8` transcribes RFC 3629: section 3 (how a scalar value is encoded) and
  section 4 (which octet sequences are text), and proves that the two describe the same sequences. `Utf8Validators`
  models the octet-wise state machine and the sequence-wise reference; `Utf8Simd` models the 16-byte-block validator,
  with `movemask` results as sets of lanes, signed byte comparisons, and the bits that a block passes to the next. All
  three return exactly whether the array is text, so they agree on every array.
- **String metrics** (`refsapi_misc.cpp`). `EditDistance` (rolling-row Levenshtein against the least cost of an edit
  script), `Substrings` (longest common substring, longest repeat), `Similarity` (bigram cache and blended score), and
  `SimilarityLaws` (which part of the score each weight scales).
- **Async query manager** (`refsapi_mysql_mngr.h`). `QueryProtocol` is the step machine of poller, workers and game
  frame, with `finished = true` and `num_finished++` as separate steps; `QueryInvariant` proves one invariant of every
  step and reads the lifecycle properties off it; `QueryProgress` proves that no query can get stuck, and `QueryLaws`
  that the bound on running queries is exact; `QueryManager` is the class, whose methods update the fields in place,
  perform exactly one step each, and keep the object in a reachable state, so that the properties are the object's.
- **Info strings** (`info.cpp`). `InfoText` says what the operations do to the text and to the list of pairs the text
  stands for, and `InfoLaws` what follows from it in terms of characters; `InfoString` has the loops over the
  zero-terminated buffer, each proved against `InfoText`.
- **Log writer** (`refsapi_log_mngr.h`). `LogWriter` is the drain loop with the trace of its locks and writes;
  `LogThrottle` is the throttle on the number of writer threads.
- **Data pack, event filter, command index** (`include/amxmodx`). `DataPack` is the typed serializer over a growing byte
  array, `EventFilter` the incremental filter that sets `m_Done` flags, with `EventLaws` saying which events a message
  runs, `CommandIndex` the spliced linked lists, the cursor that `getCmd` keeps between calls, and the prefix list.

`Common` holds what several of these share.

## What the proofs show about the code

- `get_cached_ngrams` keys its cache by the string alone. It agrees with a fresh computation exactly when the length is
  the one the cache was filled with, or the string is too short or new (`Similarity.CacheAgreesExactly`, with an
  input in `Similarity.CacheIgnoresLength`). The only caller always asks for bigrams, so the score is unaffected.
- `fast_levenshtein` is zero exactly on equal strings of at most 255 characters: a longer string is at its own length
  from itself (`EditDistance.LevenshteinZero`). Symmetry, the bound and the triangle inequality hold for all lengths.
- `Info_RemoveKey` compares only the first `strlen(key)` characters, so setting or evicting a key removes every key that
  begins with it (`InfoText.RemoveFilters`, `InfoText.OtherKeysKeepValue`, and an input in `InfoText.PrefixTakesName`).
- A set that fails for lack of room has already removed the key's old value, and for an important key every
  non-important one (`InfoText.SetMeans`).
- Setting any case variant of `team` lowercases the key as well as the value, although the comment at `info.cpp:350`
  and the variable's name speak of the value; the value is then found under the given key exactly when neither changes
  (`InfoText.StoredValueIsFound`, with an input in `InfoText.TeamIsLowered`).
- The copy loops of `info.cpp` admit segments of 127 characters, whose terminator no longer fits (`InfoText.CopyFits`,
  `InfoText.CopyOverflows`).
- `write_to_disk` really reaches three times `max_writer_threads` writers, or 255 more than that limit where the byte
  counter is the tighter bound (`LogThrottle.BoundIsReached`).
- The batch size is shifted by up to twice `max_writer_threads`, so limits of 16 and more shift a 32-bit `size_t` by its
  width or more (`LogThrottle.ShiftsFit`); the default limit is at most 4.
- `write_to_disk` empties the buffer before it creates the thread, so a failing creation loses the lines
  (`LogThrottle.LogMngr.WriteToDisk`); a failing `create_file` leaves a locked file behind
  (`LogWriter.AllLocksReleased`); and `std::sort` compares no sequence numbers, so lines with equal times may change
  places (`LogWriter.EqualTimesMaySwap`).
- `parserInit` compares with `>` and lets exactly one message type without a list through, `MAX_AMX_REG_MSG`
  (`EventFilter.EventsMngr.GuardMissesOne`). No caller passes it: `include/amxmodx/meta_api.cpp:1338` resets larger types and
  `include/amxmodx/emsg.cpp:309` passes `MAX_REG_MSGS`. The model asks callers not to.
- `registerPrefix` ignores a name that begins with a registered one, which is why the first match of `findPrefix` is
  always the longest (`CommandIndex.FirstIsLongest`).

## Model

| member | source | states |
|---|---|---|
| Utf8.ValidIffText | refsapi_misc.cpp:110-164 | the grammar of section 4 of RFC 3629, which the reference validator implements, accepts exactly the concatenations of the section 3 encodings of scalar values |
| Utf8.EncodeIsChar | refsapi_misc.cpp:110-164 | the encoding of every scalar value is one character of the grammar, whatever follows it |
| Utf8.CharIsEncoding | refsapi_misc.cpp:110-164 | every character of the grammar is the encoding of some scalar value: nothing overlong, no surrogate, nothing above U+10FFFF |
| Utf8Validators.RefUtf8 | refsapi_misc.cpp:110-164 | the sequence-wise validator returns true exactly on text, for every array |
| Utf8Validators.StateMachine | refsapi_misc.cpp:42-100 | the octet-wise state machine returns true exactly on text, so it agrees with the reference on every array |
| Utf8Validators.FinalCheckIsCharLen | refsapi_misc.cpp:59-95 | the overlong, surrogate and upper-limit tests on the accumulated code point say the same as the lead and second-octet ranges of the grammar |
| Utf8Validators.LeadOctet | refsapi_misc.cpp:51-82 | a lead octet starts a character of the announced length, or is refused because none starts with it |
| Utf8Validators.TailOctet | refsapi_misc.cpp:83-97 | a tail octet extends the open character, completes it, or is refused because no character continues so |
| Utf8Simd.ValidIffLocal | refsapi_misc.cpp:166-196 | text is characterised octet by octet: each octet is a tail octet exactly when one of the three before it reaches it, none is forbidden, and each critical lead is followed by an octet in its range |
| Utf8Simd.LocalSplits | refsapi_misc.cpp:319-329 | at a boundary between characters the local characterisation of the whole is that of the two parts |
| Utf8Simd.MasksAnnounce | refsapi_misc.cpp:256-301 | the shifted lead masks of a block contain exactly the lanes, in this block and the next, that must hold tail octets |
| Utf8Simd.ContMaskDecides | refsapi_misc.cpp:297-307 | comparing the continuation mask with the expected and pending lanes tests exactly the local condition on all sixteen octets |
| Utf8Simd.AsciiBlock | refsapi_misc.cpp:247-254 | an all-ASCII block shows that the array is not text when something is pending; when nothing is, the carried state stays right and becomes empty |
| Utf8Simd.BlockAccepted | refsapi_misc.cpp:226-317 | `pending` and `prev_crit` say which of the next octets must be tail octets and which range the first must lie in; a block that passes every check carries that on |
| Utf8Simd.CheckPairs | refsapi_misc.cpp:278-295 | the signed comparisons of a block with itself shifted by one lane settle the second-octet ranges of the critical leads in lanes 0 to 14: passing puts every such pair in range, failing shows that the array is not text |
| Utf8Simd.CheckForbidden | refsapi_misc.cpp:264-276 | the three mask tests refuse exactly the octets C0, C1 and F5 to FF |
| Utf8Simd.CheckMasks | refsapi_misc.cpp:256-315 | the mask part of the loop body either carries the block state to the next block or has shown that the array is not text |
| Utf8Simd.CheckGate | refsapi_misc.cpp:231-245 | the carried critical lead and the first octet of the block are in range, or the array is not text |
| Utf8Simd.CheckBlock | refsapi_misc.cpp:226-317 | one round carries the block state on, or has shown that the array is not text |
| Utf8Simd.TailStart | refsapi_misc.cpp:322-328 | the scalar validator takes over at a place where the rest decides the whole |
| Utf8Simd.TailRescan | refsapi_misc.cpp:319-329 | the re-scan that starts up to three octets early and skips tail octets starts at a character boundary and decides the rest |
| Utf8Simd.ValidateBlocks | refsapi_misc.cpp:198-330 | the block validator returns true exactly on text, for every array of any length, so it agrees with both other validators |
| EditDistance.ScriptsCostAtLeastDist | refsapi_misc.cpp:763-764 | no script of keep, replace, insert and delete edits costs less than the recurrence of the row update |
| EditDistance.DistIsAchieved | refsapi_misc.cpp:763-764 | some script from s to t costs exactly that much |
| EditDistance.FillRow | refsapi_misc.cpp:760-765 | the inner loop turns the row of the first i-1 characters into the row of the first i |
| EditDistance.FastLevenshtein | refsapi_misc.cpp:742-769 | the two-row algorithm returns the distance of strings up to 255 characters, and the longer length when one is longer or empty |
| EditDistance.LevenshteinIsLeastCost | refsapi_misc.cpp:742-769 | up to 255 characters the result is the least cost over all edit scripts |
| EditDistance.LevenshteinBound | refsapi_misc.cpp:742-769 | for all lengths, at most the longer length |
| EditDistance.LevenshteinSymmetric | refsapi_misc.cpp:742-769 | for all lengths, symmetric |
| EditDistance.LevenshteinTriangle | refsapi_misc.cpp:742-769 | for all lengths, the triangle inequality, including across the cut-off at 255 |
| EditDistance.LevenshteinZero | refsapi_misc.cpp:742-769 | zero if and only if the strings are equal and not longer than 255 |
| EditDistance.LongStringIsNotZero | refsapi_misc.cpp:750-751 | 256 equal characters are at distance 256 from themselves |
| Substrings.LongestCommonSubstring | refsapi_misc.cpp:771-790 | the table's maximum is the length of a common substring, and no common substring is longer |
| Substrings.TableMaximum | refsapi_misc.cpp:778-788 | the largest table entry is the longest common substring, because each entry is the longest common suffix of two prefixes |
| Substrings.LcsLenSymmetric | refsapi_misc.cpp:771-790 | that length does not depend on the order of the strings |
| Substrings.MaxRepLen | refsapi_misc.cpp:874-906 | the result is the length of the longest substring at two different positions, overlap allowed: shrinking both loop bounds by the best so far loses nothing and never goes below zero |
| Substrings.MatchLength | refsapi_misc.cpp:890-896 | the length of the longest match between two positions, within the string |
| Substrings.BestAt | refsapi_misc.cpp:885-902 | the inner loop covers every pair of positions that could still beat the best length |
| Substrings.RepeatBounded | refsapi_misc.cpp:883-885 | the pairs that the shrunk bounds leave out repeat at most the best length found |
| Similarity.NgramCache.GetCachedNgrams | refsapi_misc.cpp:792-807 | a cached set if the string is in the cache whatever n is, else the fresh set, which is stored; a too short string is not stored; every entry is what a call with some n computed |
| Similarity.CacheAgreesExactly | refsapi_misc.cpp:792-807 | whatever calls have filled the cache, the answer equals a fresh computation if and only if n is the length of the call that filled the entry, or no n-gram exists, or the string is new |
| Similarity.UniformCacheAgrees | refsapi_misc.cpp:839-840 | a cache filled for one length alone answers every call for that length as a fresh computation would |
| Similarity.CacheIgnoresLength | refsapi_misc.cpp:797-798 | a cache that has seen "ab" for bigrams answers with its bigram when asked for single characters |
| Similarity.CacheStaysFilled | refsapi_misc.cpp:800-804 | storing a freshly computed set keeps every entry of the cache at one length |
| Similarity.CountCommon | refsapi_misc.cpp:841-846 | the loop counts the intersection, in whatever order the set is visited |
| Similarity.TanimotoScore | refsapi_misc.cpp:841-847 | the Tanimoto coefficient of the two sets |
| Similarity.Bigrams | refsapi_misc.cpp:839-840 | through a cache of bigrams the answer is the set of bigrams of the name |
| Similarity.BlendScores | refsapi_misc.cpp:834-850 | the weighted sum of the normalized distance, the coefficient and the substring part, which are told apart by the laws below |
| Similarity.SimilarityScore | refsapi_misc.cpp:809-851 | with a cache of bigrams the score is that function of the two normalized names and the weights which the laws below describe, and the cache stays one of bigrams |
| Similarity.ScoreInUnit | refsapi_misc.cpp:809-851 | for non-negative weights summing to at most 1 and a threshold in [0,1] the score lies in [0,1] |
| Similarity.ScoreSymmetric | refsapi_misc.cpp:809-851 | the score does not depend on the order of the names |
| SimilarityLaws.Uncompared | refsapi_misc.cpp:816-821 | names shorter than 2 or differing by more than 5 in length score 0, and equal ones of at least 2 characters 1 |
| SimilarityLaws.CommonPartDecides | refsapi_misc.cpp:824-830 | a longest common substring of 3 or more characters above the threshold is the score, as a share of the longer name, whatever the weights |
| SimilarityLaws.BlendsOrDecided | refsapi_misc.cpp:824-832 | for different comparable names either that is so or the weighted sum is taken, by the length of the longest common substring |
| SimilarityLaws.EditPart | refsapi_misc.cpp:835-836 | otherwise the score with the weights (1, 0, 0) is 1 less the least cost of an edit script over the longer length, up to 255 characters |
| SimilarityLaws.LongNamesPart | refsapi_misc.cpp:835-836 | beyond 255 characters it is 0 |
| SimilarityLaws.PairPart | refsapi_misc.cpp:839-847 | with (0, 1, 0) it is the number of common pairs of neighbouring characters over the number of all of them |
| SimilarityLaws.SubstringPart | refsapi_misc.cpp:824-850 | with (0, 0, 1) it is the longest common substring over the longer length if that substring has 3 or more characters, and 0 if not |
| SimilarityLaws.ScoreIsLinear | refsapi_misc.cpp:850-850 | and for any weights it is the sum of those three, each times its weight |
| QueryInvariant.StepKeepsInv | refsapi_mysql_mngr.h:283-469 | every step of poller, worker, frame and callers keeps the invariant that ties the flags, counters, thread table, frame queue and local lists together |
| QueryInvariant.RunKeepsInv | refsapi_mysql_mngr.h:283-469 | so does every finite interleaving |
| QueryInvariant.PriorityBound | refsapi_mysql_mngr.h:290-327 | in every reachable state at most max_threads << (MAX_QUERY_PRIORITY - p) queries of priority number p or more run, because num_threads - num_finished never undercounts the running queries |
| QueryInvariant.ExecutionBound | refsapi_mysql_mngr.h:380-418 | in every reachable state each query has been executed at most QUERY_RETRY_COUNT times, queued for the frame at most once, forwarded at most as often as queued, and deleted at most once |
| QueryInvariant.NeverRestarted | refsapi_mysql_mngr.h:405-411 | once a query has been queued for the frame, no continuation of the run executes or queues it again |
| QueryInvariant.DeletionIsSafe | refsapi_mysql_mngr.h:352-369 | from the moment a query is set aside for deletion no worker, frame, frame queue or start list refers to it, and a stored query has never been deleted |
| QueryInvariant.RetiredOutcome | refsapi_mysql_mngr.h:312-318 | an async query about to be deleted was queued and forwarded exactly once if it succeeded and has a callback, never otherwise, and has used every attempt if it failed |
| QueryInvariant.FrameQueueContents | refsapi_mysql_mngr.h:399-411 | only successful queries with a callback are ever in the frame queue or at the frame |
| QueryInvariant.SourceAssertions | refsapi_mysql_mngr.h:302-383 | the assertions that the reaped thread is in the table, that the counter difference is not negative and that a worker starts on an unfinished query cannot fail; the one at line 346, that a new thread id is not in the table, is what the launch step assumes of the thread library |
| QueryInvariant.InvStores | refsapi_mysql_mngr.h:283-469 | every query that a step dereferences is still stored |
| QueryInvariant.ReachableNext | refsapi_mysql_mngr.h:283-469 | from a reachable state every possible step dereferences stored queries only and leads to a reachable state |
| QueryLaws.VisitSelects | refsapi_mysql_mngr.h:320-326 | in every reachable state a visit of the scan to an unstarted, unfinished async query of priority number p starts it if and only if num_threads - num_finished < max_threads * k, k being 32, 16, 8, 4, 2, 1 for p = 0 to 5 |
| QueryLaws.BoundIsExact | refsapi_mysql_mngr.h:320-326 | for every max_threads and every priority number p some reachable state has exactly max_threads * k running queries of that number or above |
| QueryLaws.ShareBound | refsapi_mysql_mngr.h:320-326 | no reachable state has more |
| QueryLaws.VisitFinished | refsapi_mysql_mngr.h:297-318 | a visit to a finished query takes its thread and both counters back; it waits again if and only if it is async and has failed for the first or second time, and is set aside for deletion otherwise |
| QueryLaws.DecisionQueues | refsapi_mysql_mngr.h:397-416 | an executed query goes to the frame queue if and only if it has a callback and has succeeded or used up three attempts; otherwise it is finished |
| QueryLaws.FrameTakesOldest | refsapi_mysql_mngr.h:460-469 | the entry that leaves the frame queue is one than which none in it is older, and the others stay |
| QueryProgress.EveryQueryCanRetire | refsapi_mysql_mngr.h:283-469 | from every reachable state, with at least one thread allowed, some continuation of the run deletes any given async query, once |
| QueryProgress.Settle | refsapi_mysql_mngr.h:283-469 | from every such state everything can come to rest: the poll ended, no worker left, the frame queue empty |
| QueryProgress.Advance | refsapi_mysql_mngr.h:290-327 | a poll from rest with some async query stored brings one of them nearer to its deletion |
| QueryProgress.PollOrderScans | refsapi_mysql_mngr.h:291-293 | the nested loops visit every stored query once, by priority number and then by id |
| QueryManager.MysqlMngr.constructor | refsapi_mysql_mngr.h:1057-1067 | a new manager is in the initial state of the protocol, which is reachable |
| QueryManager.MysqlMngr.Promises | refsapi_mysql_mngr.h:283-469 | in every state of the object, whatever has been called: at most max_threads * 32, 16, 8, 4, 2, 1 running queries of priority number 0 to 5 or above, the execution, queueing, forwarding and deletion bounds, and that nobody refers to a query set aside or deleted |
| QueryManager.MysqlMngr.NothingStuck | refsapi_mysql_mngr.h:283-469 | in every state of the object, some continuation deletes any given async query |
| QueryManager.MysqlMngr.ExecQuery | refsapi_mysql_mngr.h:553-577 | a query without connection, freed or started before is left alone and the call fails; any other performs exactly the synchronous execution step |
| QueryManager.MysqlMngr.FreeQuery | refsapi_mysql_mngr.h:578-587 | a query without a thread is handed to the poller exactly once; no flag of any other query changes |
| QueryManager.MysqlMngr.BeginPoll | refsapi_mysql_mngr.h:283-295 | the order of the nested loops is computed: it visits every stored query once, lower priority numbers first and equal ones by their ids |
| QueryManager.MysqlMngr.VisitOrder | refsapi_mysql_mngr.h:291-293 | the two loops list the ids of each priority in ascending order, one priority after the other |
| QueryManager.MysqlMngr.NextLoop | refsapi_mysql_mngr.h:328-371 | the loops of a poll follow each other, each when its list is used up |
| QueryManager.MysqlMngr.JoinThread | refsapi_mysql_mngr.h:371-378 | a finished thread is joined once it has left |
| QueryManager.MysqlMngr.PrepareQuery | refsapi_mysql_mngr.h:470-518 | an empty text or too high a priority number is refused; otherwise one query is stored under the next id, unstarted, with the priority, kind and time it was given, and nothing else changes |
| QueryManager.MysqlMngr.PollOne | refsapi_mysql_mngr.h:293-327 | one iteration of the scan is exactly the protocol's scan step: a waiting query starts if and only if the running ones leave room for its priority, a query on its way is left alone, and a finished one waits again after its first or second failure and stays finished otherwise; the object stays in a reachable state, as in every method |
| QueryManager.MysqlMngr.StartOne | refsapi_mysql_mngr.h:330-350 | one iteration of the start loop is exactly the launch step, which puts the query in the hands of the new thread, or the failed-launch step that undoes the selection and its count |
| QueryManager.MysqlMngr.DeleteOne | refsapi_mysql_mngr.h:353-369 | one iteration of the cleaner is exactly the delete step |
| QueryManager.MysqlMngr.RunQueryExec | refsapi_mysql_mngr.h:382-395 | executing is exactly the worker's first step: the query records the outcome and whether it has a callback, and counts one more execution |
| QueryManager.MysqlMngr.RunQueryDecide | refsapi_mysql_mngr.h:397-415 | the end of run_query up to setting finished or pushing to m_frames is exactly the worker's decision step: queued if and only if it has a callback and has succeeded or has no attempt left, finished otherwise |
| QueryManager.MysqlMngr.RunQueryCount | refsapi_mysql_mngr.h:416-416 | the increment of num_finished is a step of its own |
| QueryManager.MysqlMngr.GetFrameQuery | refsapi_mysql_mngr.h:460-469 | takes an entry than which none in the queue is older, and only when the queue is not empty; the others stay |
| QueryManager.MysqlMngr.FrameForwardFinish | refsapi_mysql_mngr.h:456-456 | frame_forward sets finished in one step |
| QueryManager.MysqlMngr.FrameForwardCount | refsapi_mysql_mngr.h:457-457 | and counts it in another |
| InfoText.RemoveFilters | info.cpp:78-155 | on a well-formed string, removing a key is filtering out the pairs whose key begins with it |
| InfoText.LookupFinds | info.cpp:8-76 | on a well-formed string, looking a key up finds the value of its first pair, or nothing |
| InfoText.LargestKeyFinds | info.cpp:181-259 | the result is empty exactly when every key is important, and otherwise the first non-important key of maximal size |
| InfoText.LargestShrinks | info.cpp:335-347 | on any text, removing the key found shortens it, so the make-room loop ends |
| InfoText.RemoveShort | info.cpp:148-153 | removal never joins two segments into one that would overflow the copy buffers |
| InfoText.LargestHasNoSlash | info.cpp:199-222 | the key that is evicted never contains a slash, so it can be removed |
| InfoText.EvictFilters | info.cpp:335-347 | the make-room loop evicts keys in turn: each time there was no room and the largest non-important key went, with every pair whose key begins with it; it stops at the first fit, and if it gives up every key left is important and there is still no room |
| InfoText.SetMeans | info.cpp:261-364 | each outcome of setting a key in terms of the pair list, and when it happens: refused exactly for unacceptable arguments (spelled out by InfoLaws.RefusedExactly), removed exactly for an empty value, stored whenever the entry fits behind the removal, and for a non-important key only then; where there is no room the evictions are those of the make-room loop, and giving up leaves no room |
| InfoText.StoredValueIsFound | info.cpp:261-364 | after a successful set the lookup returns the value if and only if the key is not a case variant of team, or lowercasing changes neither key nor value |
| InfoText.OtherKeysKeepValue | info.cpp:261-364 | every key that begins neither with the set key nor with an evicted key keeps its value, every other is gone; the evicted keys are those of the make-room loop, none if the entry fits or the key is not important |
| InfoText.StarKeysSurvive | info.cpp:335-348 | a key starting with * is never evicted |
| InfoLaws.RefusedExactly | info.cpp:267-305 | a set is refused, and changes nothing, if and only if the key is empty, the key or the value has a slash or a quote or 127 or more characters, the key has two dots in a row, or the value has and the key is not "name" |
| InfoLaws.SetLaw | info.cpp:317-364 | on any text, a set that is not refused leaves what the removal leaves, with the new entry behind it if a value is given and |key| + |value| + 2 more characters fit; where they do not, a non-important key is given up |
| InfoLaws.StoredLaw | info.cpp:350-362 | the entry holds the key and the value as given, except for team, of which both are lowercased letter by letter |
| InfoLaws.TeamMeans | info.cpp:351-351 | team is recognised in every mixture of cases, and nothing else is |
| InfoLaws.LargestLaw | info.cpp:181-259 | of the pairs whose key is not important, the one with the most characters in key and value together is chosen, the first of several |
| InfoLaws.LookupLaw | info.cpp:8-76 | a lookup finds the value of the first pair with exactly that key, or nothing |
| InfoLaws.RemovalLaw | info.cpp:78-155 | a removal leaves, in their order, exactly the pairs whose key does not begin with the first 126 characters of the given one |
| InfoLaws.RunsStayUnquoted | info.cpp:78-364 | no sequence of sets and removals brings a quote into a text without one |
| InfoLaws.RunsStayUndotted | info.cpp:78-364 | if no key, and no value but that of "name", has two dots in a row, the same holds after any sequence of sets and removals |
| InfoLaws.OnePairList | info.cpp:78-364 | a text is the rendering of one list of pairs only, so statements about its pairs are statements about the text |
| InfoText.RunsStayWellFormed | info.cpp:78-364 | any sequence of sets and removals on a well-formed string shorter than maxsize keeps it well formed, all its segments short and its length below maxsize |
| InfoText.RunsStayShort | info.cpp:78-364 | on any string with short segments, well formed or not, any such sequence keeps them short |
| InfoText.TeamIsLowered | info.cpp:350-361 | setting "Team" to "Red" in an empty string succeeds and the lookup of "Team" does not find "Red" |
| InfoText.PrefixTakesName | info.cpp:93-95 | removing "na" from the pairs ("na", "x"), ("name", "y") empties the string, the important key included |
| InfoText.CopyFits | info.cpp:107-123 | a copied segment fits the copy buffer with its terminator if and only if the segment is shorter than MAX_KV_LEN |
| InfoText.CopyOverflows | info.cpp:107-123 | a segment of 127 characters is copied whole and its terminator is one too many |
| InfoString.InfoRemoveKey | info.cpp:78-155 | the in-place removal leaves exactly the filtered text in the buffer |
| InfoString.InfoIsKeyImportant | info.cpp:157-179 | true exactly for the eight protected names and the keys starting with * |
| InfoString.InfoFindLargestKey | info.cpp:181-259 | the loop returns the largest key as defined on the text |
| InfoString.EvictUntilRoom | info.cpp:335-347 | for every such text the do-while loop ends and leaves the evicted text in the buffer |
| InfoString.FindRoom | info.cpp:324-348 | room is found at once, given up for a non-important key, or made by eviction |
| InfoString.Validate | info.cpp:267-305 | the checks fail if and only if the key is empty, the key or the value has a slash, a quote or 127 or more characters, or two dots in a row where those are not allowed |
| InfoString.AppendEntry | info.cpp:350-363 | the entry is appended, lowercased for team, within the buffer |
| InfoString.InfoSetValueForStarKey | info.cpp:261-364 | for every text in the buffer whose segments fit the copy buffers, well formed or not, the buffer ends up with exactly the text that SetText describes, and every write stays inside maxsize |
| InfoString.PerformAll | info.cpp:78-364 | any sequence of calls on the array, from any text with short segments, leaves exactly the text that the sequence computes, again with short segments |
| InfoString.ValueRing.InfoValueForKey | info.cpp:8-76 | returns the looked-up value in the current slot of the ring and advances it, or nothing and leaves the ring's index; no other slot changes |
| InfoString.ResultSurvives | info.cpp:10-12 | over any sequence of later lookups on any strings, a returned result stays as it was as long as no call has started after three others found their key; the index is back at its slot exactly after three more finds, counting modulo four |
| LogWriter.WriterThread | refsapi_log_mngr.h:69-118 | for every buffer, positive capacity and behaviour of the files the loop ends, handles the lines in the reverse of an order that the comparison accepts, follows the lock discipline, locks no plugin's file twice and holds no lock at the end |
| LogWriter.SortLines | refsapi_log_mngr.h:77-80 | some arrangement of the same lines that the comparison accepts, which is all the loop knows of std::sort |
| LogWriter.Round | refsapi_log_mngr.h:84-106 | one round skips the line at the back, or writes a batch of one plugin and releases its lock unless its lines go on |
| LogWriter.FillBatch | refsapi_log_mngr.h:96-102 | the inner loop moves a non-empty run of lines of one plugin, at most the capacity, and stops early only at another plugin or the end |
| LogWriter.Write | refsapi_log_mngr.h:119-142 | the batch is written in order under the lock of its plugin if the stream is open, and dropped if it is not |
| LogWriter.EveryLineOnce | refsapi_log_mngr.h:82-109 | written, dropped and skipped lines together are the lines of the buffer, each exactly once |
| LogWriter.HandledInOrder | refsapi_log_mngr.h:77-80 | lines are handled plugin by plugin, and those of one plugin in non-decreasing order of time |
| LogWriter.TimesDoNotDecrease | refsapi_log_mngr.h:77-80 | the lines of each plugin are written in non-decreasing order of time |
| LogWriter.LoggingOrderKept | refsapi_log_mngr.h:77-80 | lines of one plugin with different times are written in the order in which they were logged, if the clock did not run backwards |
| LogWriter.EqualTimesMaySwap | refsapi_log_mngr.h:77-80 | two lines of one plugin with equal times may be written in either order |
| LogWriter.LocksBalance | refsapi_log_mngr.h:84-106 | each lock of a file that open_file returned is released exactly once, apart from one still held |
| LogWriter.AllLocksReleased | refsapi_log_mngr.h:332-352 | counting also the files that a failing create_file leaves behind locked, every lock taken has been released at the end if and only if there was no such file |
| LogWriter.NothingLost | refsapi_log_mngr.h:88-93 | nothing is skipped when every file opens and no line has the null plugin, and nothing is dropped when every stream is open |
| LogThrottle.ThrottleBounds | refsapi_log_mngr.h:143-205 | in every reachable state, thread creation failing or not, writers plus num_productivity are at most max_writer_threads + min(MAX_PRODUCTIVITY, 255), the counter being a byte; so at most 3 * max_writer_threads writers run, and the batch-size shift stays between 0 and MAX_PRODUCTIVITY |
| LogThrottle.BoundIsReached | refsapi_log_mngr.h:159-168 | for every limit some run reaches max_writer_threads + min(MAX_PRODUCTIVITY, 255) writers, and there write_to_disk refuses |
| LogThrottle.ShiftsFit | refsapi_log_mngr.h:183-184 | for any word width, the shift of every writer ever started is below it if and only if twice the limit is |
| LogThrottle.LogMngr.constructor | refsapi_log_mngr.h:519-530 | a new log manager is in the initial state of the throttle |
| LogThrottle.LogMngr.WriteToDisk | refsapi_log_mngr.h:150-205 | an empty buffer is a success without effect; with as many writers as allowed and the counter at 0 the call is refused and keeps the buffer; otherwise the counter goes down at that many writers and up below, and the whole buffer is handed to a new thread with 2 * max_writer_threads less the counter as its shift, or lost if the thread cannot be created |
| LogThrottle.LogMngr.WriteFile | refsapi_log_mngr.h:247-260 | what is handed over, what is lost and what stays are the old lines and the new one; lines are lost exactly when the buffer is full, a writer may start and its thread cannot be created, and the new line is refused exactly then or when no writer may start |
| LogThrottle.LogMngr.Done | refsapi_log_mngr.h:115-117 | performs exactly the throttle's finish step |
| LogThrottle.LogMngr.ReapFinished | refsapi_log_mngr.h:493-512 | every finished thread is forgotten, both counters drop by their number, the rest stays |
| DataPack.CDataPack.constructor | include/amxmodx/CDataPack.cpp:34-39 | a new data pack is empty, with the initial capacity |
| DataPack.CDataPack.Initialize | include/amxmodx/CDataPack.cpp:46-50 | forgets every item and keeps the buffer |
| DataPack.CDataPack.Reset | include/amxmodx/CDataPack.cpp:149-152 | puts the cursor before the first item and keeps the items |
| DataPack.CDataPack.CheckSize | include/amxmodx/CDataPack.cpp:52-67 | the capacity is doubled as often as the bytes asked for need, and not once more; the bytes before the cursor are kept |
| DataPack.CDataPack.PackCell | include/amxmodx/CDataPack.cpp:96-110 | wherever the cursor is, one cell is written there, what lies before is kept, and cursor and size grow by it; at the end of the items this appends it to the stored list |
| DataPack.CDataPack.PackFloat | include/amxmodx/CDataPack.cpp:112-126 | wherever the cursor is, one float is written there, what lies before is kept, and cursor and size grow by it; at the end of the items this appends it to the stored list |
| DataPack.CDataPack.PackString | include/amxmodx/CDataPack.cpp:128-147 | wherever the cursor is, one NUL-free string is written there, what lies before is kept, and cursor and size grow by it; at the end of the items this appends it to the stored list |
| DataPack.CDataPack.CreateMemory | include/amxmodx/CDataPack.cpp:74-94 | the same for one raw block; returns the position where its entry starts |
| DataPack.CDataPack.CanReadFixed | include/amxmodx/CDataPack.cpp:170-219 | true exactly when the next item is of that type |
| DataPack.CDataPack.ReadCell | include/amxmodx/CDataPack.cpp:188-201 | the next item if it is a cell; on another type or at the end 0 and the cursor unmoved |
| DataPack.CDataPack.ReadFloat | include/amxmodx/CDataPack.cpp:221-234 | the same for a float |
| DataPack.CDataPack.CanReadString | include/amxmodx/CDataPack.cpp:241-266 | true exactly when the next item is a string, with its length |
| DataPack.CDataPack.ReadString | include/amxmodx/CDataPack.cpp:268-288 | the next item if it is a string; otherwise nothing and the cursor unmoved |
| DataPack.CDataPack.CanReadMemory | include/amxmodx/CDataPack.cpp:295-318 | true exactly when the next item is a raw block, with its size |
| DataPack.CDataPack.ReadMemory | include/amxmodx/CDataPack.cpp:320-340 | the next item if it is a raw block; otherwise nothing and the cursor unmoved |
| DataPack.StoredIsLaid | include/amxmodx/CDataPack.cpp:74-147 | writing tag, size field and payload lays the item out so that a reader can recognise it |
| DataPack.LaidBytes | include/amxmodx/CDataPack.cpp:74-147 | an item laid out in the buffer begins with its type number (0 raw, 1 cell, 2 float, 3 string) and four bytes of size, least significant first; a cell's or float's four bytes follow likewise |
| DataPack.PackAll | include/amxmodx/CDataPack.cpp:74-147 | packing a list on a new data pack stores exactly that list |
| DataPack.ReadAll | include/amxmodx/CDataPack.cpp:170-340 | reading from the start with the matching readers returns the stored list |
| DataPack.RoundTrip | include/amxmodx/CDataPack.cpp:74-340 | any list of cells, floats, NUL-free strings and raw blocks packed on a fresh pack, across any number of doublings, reads back as the same list |
| EventFilter.ClEvent.Accepts | include/amxmodx/CEvent.cpp:303-323 | the loop over the conditions rules the event out exactly when some condition concerns the parameter and none of those holds, as EventLaws.Comparisons spells out |
| EventFilter.EventsMngr.RegisterEvent | include/amxmodx/CEvent.cpp:200-219 | one new event at the end of the list of its message type, its flags decoded from the letters, or nothing for a type out of range; a message of another type that is being parsed is not disturbed |
| EventFilter.EventsMngr.NextParam | include/amxmodx/CEvent.cpp:72-111 | there is room for the next parameter, the earlier ones are kept, and a full vault doubles, from 32 |
| EventFilter.EventsMngr.GuardMissesOne | include/amxmodx/CEvent.cpp:223-224 | the guard lets through a message type without a list if and only if it is MAX_AMX_REG_MSG |
| EventFilter.MarkClosed | include/amxmodx/CEvent.cpp:236-268 | leaves open exactly the events that were not marked and whose plugin state, flags and stamp match |
| EventFilter.CloseRefused | include/amxmodx/CEvent.cpp:292-324 | marks exactly the open events whose conditions on this parameter all fail, and leaves every stamp |
| EventFilter.RunOpen | include/amxmodx/CEvent.cpp:461-478 | calls the open active events in order, stamps exactly the open ones and clears every mark |
| EventFilter.EventsMngr.ParserInit | include/amxmodx/CEvent.cpp:221-278 | opens the message: the open events are the matching ones and the vault holds the index |
| EventFilter.EventsMngr.ParseValue | include/amxmodx/CEvent.cpp:280-418 | for an integer, float or string alike: an event stays open exactly when it was eligible and has passed every parameter so far, and the vault holds them all |
| EventFilter.EventsMngr.ExecuteEvents | include/amxmodx/CEvent.cpp:420-488 | calls exactly the open active events in order with all parameters, stamps exactly the open ones, and clears every m_Done |
| EventFilter.RunsExactly | include/amxmodx/CEvent.cpp:420-488 | a call is made if and only if it is that of an open active event all of whose conditions' parameters pass |
| EventFilter.EventsMngr.Deliver | include/amxmodx/CEvent.cpp:221-488 | a whole message runs exactly the active events whose flags match at its start and each of whose mentioned parameters satisfies some condition; afterwards nothing is marked and nothing is being parsed |
| EventLaws.LettersPickTargets | include/amxmodx/CEvent.cpp:19-55 | of the registered flag letters a means the world and b clients, of which f and g pick players or bots and d and e the dead or the living, both being meant where neither is given; c means once a frame |
| EventLaws.DeliverInOrder | include/amxmodx/CEvent.cpp:221-488 | a whole message calls, in the order of the list and with the index and all parameters, exactly the events that are active, executable, flagged for the target and not already stamped in this frame if they run once, and whose conditions pass; each is stamped |
| EventLaws.Alternatives | include/amxmodx/CEvent.cpp:300-323 | several conditions pass exactly when for each one that is on a delivered parameter some condition on that parameter would pass alone |
| EventLaws.Comparisons | include/amxmodx/CEvent.cpp:303-323 | what a single condition asks: < > = ! compare integers and floats with its number and = ! strings with its text; & asks for a common bit of integers, or for the text with something before and behind it; any other kind of condition never passes |
| EventLaws.DeliverOne | include/amxmodx/CEvent.cpp:221-488 | a message whose only event has one condition calls it exactly when the event is ready for the target and that comparison holds of the parameter, or the parameter is not delivered |
| EventLaws.EverySigned | include/amxmodx/CEvent.cpp:311-311 | the word whose bits & compares represents the integer in two's complement |
| CommandIndex.CmdList.SetCmdLink | include/amxmodx/CCmd.cpp:123-147 | splices in one new link: behind everything the command does not sort before, or at the end; every other link stays |
| CommandIndex.InsertionKeepsOrder | include/amxmodx/CCmd.cpp:129-140 | such an insertion keeps a sorted list sorted and comes behind all equal commands |
| CommandIndex.LessMeans | include/amxmodx/CCmd.cpp:133-135 | strcmp finds a string smaller exactly when at the first difference it ends or has the smaller character |
| CommandIndex.BeforeMeans | include/amxmodx/CCmd.cpp:133-135 | the command decides, and between equal commands the argument |
| CommandIndex.SortedMeans | include/amxmodx/CCmd.cpp:123-147 | the lists that are kept sorted are those in which, further down, the command is never smaller, nor the argument of an equal command |
| CommandIndex.BuildSorted | include/amxmodx/CCmd.cpp:123-147 | a list to which any commands are linked one after the other holds each of them once: of any two entries the earlier one has the command that ends or has the smaller character at their first difference, or the same command and such an argument, or the same of both and was linked first |
| CommandIndex.Scan | include/amxmodx/CCmd.cpp:90-101 | from any link the scan finds the entry that lies the asked number of shown entries further on, and leaves the cursor there |
| CommandIndex.GoingOnIsFresh | include/amxmodx/CCmd.cpp:79-90 | going on from a cursor that stands at a smaller number finds what a scan from the front finds |
| CommandIndex.ShownMeans | include/amxmodx/CCmd.h:60-62 | a caller may see an entry exactly when it is listable, its plugin runs it, and its flags are 0 or have a bit in common with the caller's |
| CommandIndex.NumberNames | include/amxmodx/CCmd.cpp:79-102 | the numbers from 0 on name exactly the entries the caller may see, in the order of the list, and no others |
| CommandIndex.CmdMngr.Link | include/amxmodx/CCmd.cpp:56-63 | linking a command puts it behind everything it does not sort before, keeps all three lists sorted and linked, and the cursor stays at the link it points to |
| CommandIndex.CmdMngr.FindById | include/amxmodx/CCmd.cpp:68-77 | a negative number finds a command of that id, or none has it |
| CommandIndex.CmdMngr.GetCmd | include/amxmodx/CCmd.cpp:65-102 | the answer is the entry that counting on from the cursor finds, whatever has been linked meanwhile; with a cursor from earlier calls over the same lists and plugin states, or one that has to be set anew, it is the id-th entry the caller may see, as a fresh scan gives it, and the cursor stays good |
| CommandIndex.CmdMngr.GetCmds | include/amxmodx/CCmd.cpp:65-102 | every call of any sequence of calls, while lists and plugin states do not change, is answered as by a fresh scan |
| CommandIndex.CmdMngr.GetCmdNum | include/amxmodx/CCmd.cpp:104-121 | the number of entries the caller may see; a number names a command exactly when it is below it |
| CommandIndex.CmdMngr.ClearBufferedInfo | include/amxmodx/CCmd.cpp:255-263 | afterwards the cursor is good for any lists and plugin states |
| CommandIndex.PrefixTable.FindPrefix | include/amxmodx/CCmd.cpp:220-232 | the slot of the first registered prefix that, with something behind it, is the name, or the end if there is none |
| CommandIndex.FirstIsLongest | include/amxmodx/CCmd.cpp:220-232 | the first match is the longest registered prefix of the name |
| CommandIndex.PrefixTable.RegisterPrefix | include/amxmodx/CCmd.cpp:211-218 | an empty or covered name changes nothing, any other goes to the end, and no name ever begins with an earlier one |
| CommandIndex.PrefixTable.RegisterCmdPrefix | include/amxmodx/CCmd.cpp:197-209 | the command goes to the end of the list of its longest prefix and remembers its length, or nothing changes |

## Left out

- Engine, Metamod, AMX Mod X and ReGameDLL glue, natives, timers and cvars: thin wrappers, or behaviour of code that is not part of this model.
- MySQL calls, sockets and `poll()`: executing a query is an arbitrary success or failure, and whether it has a callback is an arbitrary choice.
- `mysql_mngr::stop()`, the `aborted` flag and `stop_threads`: runs between two stops are modelled; the branches that need an abort are not.
- Query objects are values in a map from id to query, so a pointer to a deleted query is an id that is no longer stored; wrap-around of the id counter and failing allocations are not modelled, nor what free_query does with the result, the data and the connection a query holds.
- The memory model of the C++ threads: each locked region, and each single flag or counter update outside one, is one atomic step; the step that executes a query also records its outcome.
- QueryManager.MysqlMngr.GetFrameQuery: among entries of equal creation time the code's heap picks one that depends on its history, while the method picks the first in the order of pushing; the protocol allows any of them.
- Null pointers handed to the UTF-8 validators, and the wrappers at refsapi_misc.cpp:102-107.
- Substrings.MaxRepLen: lengths beyond a 32-bit int are not modelled.
- Similarity.ScoreInUnit: in exact real arithmetic; float rounding is not modelled, and name normalization is a parameter.
- Entropy, pattern analysis, transliteration and formatting helpers.
- InfoString.InfoRemoveKey: not for texts with a segment of 127 characters or more, since the copy buffers hold 127 with the terminator and the loops admit one more.
- InfoString.InfoFindLargestKey: not for such texts either.
- InfoString.EvictUntilRoom: not for such texts either.
- InfoString.FindRoom: not for such texts either.
- InfoString.PerformAll: not for such texts either.
- InfoString.InfoSetValueForStarKey: not for such texts either.
- InfoString.ValueRing.InfoValueForKey: not for such texts either.
- InfoText.RemoveFilters: what removal, lookup and setting mean for pairs is stated for strings of non-empty keys and values; on other texts the methods are only tied to the functions on texts.
- Locale-dependent lowercasing: ASCII letters only.
- LogWriter.WriterThread: formatting of a line and the pause between batches are not modelled; a stream is open or not for as long as its lock is held.
- LogThrottle.LogMngr.WriteToDisk: the path for a thread id that is already in the table is unreachable in the model, since a new thread's id is asked to be fresh; a failing allocation after the thread has been created is not modelled.
- LogThrottle.ShiftsFit: bounds the shift, not the shifted batch size, which may overflow earlier.
- QueryProgress.EveryQueryCanRetire: says that deletion stays possible, not that the scheduler and the database bring it about.
- CDataPack on a 32-bit target only (4-byte size fields); arithmetic overflow of sizes, `SetPosition`, `ResetSize`, and what the readers make of a pack that was written to after the cursor was moved back are not modelled.
- DataPack.CDataPack.CreateMemory: the caller's later fill of the block is taken as part of the call.
- CEvent's re-entrant delivery, `registerFilter`'s parsing, argument getters, and `clearEvents`.
- EventFilter.EventsMngr.Deliver: not for the message type MAX_AMX_REG_MSG, whose list would lie outside the table.
- EventFilter.EventsMngr.ParserInit: not for that type either; and the game time is a value, not a pointer read again at execution time.
- CCmd's `setCmdType`, parsing of a command line, clearing of lists, and deleting commands; the links of a prefix's own list are seen as a sequence, since splicing is proved once for `CmdList`.
- CommandIndex.CmdMngr.GetCmds: across a change of lists or plugin states without a clearing of the cursor only GetCmd says what is found.
