# Conduit core in Dafny

Conduit is a bridge between Ableton Live (through a Max for Live device) and
large language models. This project models three parts of it and proves
properties of them:

1. **The provider layer** (`Breaker`, `Registry`). This is a per-provider
   circuit breaker with health scoring, plus the registry of chat adapters.
   The registry's `chat_with_failover` tries the active adapter first and
   then every other registered one.
2. **The generation pipeline** (`Prompt`, `Response`, `Notes`, `Session`,
   `Generate`). `/ask` works through these steps:
   - it estimates a token budget from the prompt;
   - it sends the request to the dedicated generation adapter, retrying once with a
     boosted budget, or falls back to failover;
   - it repairs and parses the model's almost-JSON;
   - it clamps the MIDI notes and tiles a short pattern up to the requested note
     count;
   - it records the exchange in the conversation history and saves the pattern
     in the clipboard bank.
3. **The AMPF container writer** (`Ampf`, `Bytes`). This is `wrap_ampf` of the
   device builder. It frames a Max patcher's JSON and its embedded resources
   in the binary `.amxd` layout: the header, the `mx@c` context, the content,
   and the `dlst` directory of `dire` entries.

Every operation is a pure function over immutable datatypes. The outside
world enters as parameters:
- the clock;
- what each adapter call returns and how long it takes (an oracle indexed by
  attempt);
- `json.loads` (a `Parser`, a function from text to an optional JSON value);
- the adapters' own `is_available()`.

Shared modules:
- `Wrappers` holds `Option` and `Result`.
- `Seqs` holds `KeepLast`, the `deque(maxlen=…)` and `list[-n:]` idiom.
- `Text` holds the Python string methods used: `strip`, `find`, `rfind`,
  `split`, `count`, `replace(…, 1)`, and decimal rendering.
- `Json` holds the JSON value and Python's `int()`/`float()` coercions, which take numbers and decimal strings.

## Model

| member | source | states |
|---|---|---|
| Breaker.SpeedPenalty | server/providers.py:365 | the latency penalty never exceeds 40 points |
| Breaker.ScoreIsPercentage | server/providers.py:357-367 | with non-negative latencies the health score lies in 0..100, and without latencies it is at least 40 (only the error rate can cost points) |
| Breaker.HealthScore | server/providers.py:357-367 | the score is never negative and is 100 before any request was recorded |
| Breaker.ScoreFastSuccesses | tests/test_circuit_breaker.py:56-66 | twenty fast successes score 99 |
| Breaker.ScoreAllErrors | tests/test_circuit_breaker.py:68-76 | only errors and no latencies score 40 |
| Breaker.ScoreMixedSlow | tests/test_circuit_breaker.py:78-87 | half errors at 3 s average score 40 |
| Breaker.ScoreSpeedCapped | tests/test_circuit_breaker.py:89-97 | one 10 s success scores 60: the penalty is capped |
| Breaker.Touch | server/providers.py:390-393 | `_get` creates a default record only for a missing name and leaves every other record as it was |
| Breaker.Probe | server/providers.py:397-410 | an open circuit whose recovery window has passed becomes half-open; every other record is unchanged |
| Breaker.IsAvailable | server/providers.py:397-410 | a provider is available exactly when its circuit is not open or its recovery window has elapsed, and the check performs the half-open transition |
| Breaker.RetryIn | server/providers.py:416-417 | the countdown is the truncated remaining recovery time, or 0 once the window has passed |
| Breaker.RetryInDecreases | tests/test_circuit_breaker.py:254-269 | the countdown never grows as the clock advances |
| Breaker.WhyUnavailable | server/providers.py:412-418 | the reason is empty exactly when the circuit is not open; for an open circuit it is the text with the streak and the countdown |
| Breaker.Succeed | server/providers.py:422-429 | a success appends its latency to the 20-entry window, counts one success, clears the streak, and closes a half-open circuit |
| Breaker.Fail | server/providers.py:431-450 | a failure records a positive latency, counts one error, and extends the streak; a half-open circuit re-opens at once; otherwise the circuit opens, stamped with the clock, when the streak reaches the threshold |
| Breaker.RecordSuccess | server/providers.py:422-429 | only the named record changes, as `Succeed` says |
| Breaker.RecordFailure | server/providers.py:431-450 | only the named record changes, as `Fail` says |
| Breaker.Reset | server/providers.py:452-456 | a known name gets a fresh record; an unknown name leaves the breaker untouched |
| Breaker.GetHealth | server/providers.py:460-469 | the report carries the state name, the score, the streak, the mean latency and both counters of the name's record, which is created if missing |
| Breaker.AllHealthAgrees | server/providers.py:471-472 | the overview has one entry per existing record, equal to that name's `get_health` report, and creates no record |
| Breaker.TransitionsKeepHealthOk | server/providers.py:339-456 | every transition keeps the record invariant: the streak is within the error count, the window holds at most 20 entries, and a closed circuit is below the threshold |
| Breaker.OpensExactlyAtThreshold | server/providers.py:443-445 | from a fresh record, n failures leave a streak of n and an open circuit exactly when n reaches the threshold |
| Breaker.SuccessRestartsStreak | tests/test_circuit_breaker.py:137-146 | fail, fail, succeed, fail, fail leaves a closed circuit with a streak of 2 |
| Breaker.HalfOpenTrial | server/providers.py:427-441 | after the recovery window the probe is half-open; a success closes it, and a failure re-opens it stamped with the failure time |
| Breaker.WindowKeepsLatest | server/providers.py:349 | after any run of successes the window holds the last 20 latencies of the whole history |
| Breaker.SucceedAllWindow | server/providers.py:424 | each success pushes its latency onto the bounded window |
| Registry.Register | server/providers.py:491-496 | the adapter is stored under its name, the name is appended to the order even when repeated, and it becomes active when asked to or when nothing is active |
| Registry.RegisterKeepsOk | server/providers.py:486-496 | registration keeps the invariant that the active name is empty or registered and that the order lists exactly the registered names |
| Registry.FirstRegisterActivates | server/providers.py:494-495 | the first adapter becomes active without being asked |
| Registry.DuplicateRegistration | server/providers.py:493 | registering a name twice lists it twice in the failover order |
| Registry.Active | server/providers.py:498-502 | the active adapter is returned exactly when the active name is registered, and otherwise an error |
| Registry.Switch | server/providers.py:504-509 | only a registered name becomes active; an unknown name is an error that changes nothing |
| Registry.SwitchKeepsOk | server/providers.py:504-509 | switching keeps the registry invariant, and the adapter returned is the new active one |
| Registry.KeyOrder | server/providers.py:559 | the dictionary's keys are the registered names found in the registration order, each exactly once |
| Registry.KeyOrderFirstRegistration | server/providers.py:559 | the keys come in the order of their first registration: an earlier key was first registered before a later one |
| Registry.ListNamesRows | server/providers.py:557-568 | each row carries the adapter's name and model, whether it is active, its own availability, and the health report as it stood before the listing |
| Registry.ListNamesTouches | server/providers.py:560 | listing only adds fresh breaker records for the names it visits |
| Registry.ListAvailableCovers | server/providers.py:557-568 | under the registry invariant there is exactly one row per registered adapter |
| Registry.AttemptOrder | server/providers.py:519-521 | the active name comes first, followed by every other registered name and never the active one again |
| Registry.OthersAppend | server/providers.py:519-521 | the fallback filter works element by element: filtering a concatenation concatenates the filtered parts, so the fallback order keeps the registration order |
| Registry.OthersSingle | server/providers.py:519-521 | one registered name is dropped exactly when it is the active name, and kept otherwise |
| Registry.TryCandidate | server/providers.py:524-549 | a candidate is skipped exactly when its breaker says unavailable; otherwise a reply is recorded as a success and tagged "(failover)" unless it is the active one, and an exception is recorded as a failure |
| Registry.WalkTrace | server/providers.py:524-555 | the walk visits candidates in order, stops at the first success, and fails with "all failed" only after visiting every candidate without a success |
| Registry.WalkReply | server/providers.py:533-542 | a returned reply is the text and model of the last candidate tried, which is registered; its provider label is the adapter's own for the active name and "<name> (failover)" for any other |
| Registry.WonWith | server/providers.py:530-542 | a winning turn looked up a registered candidate and returns that candidate's reply, labelled as above |
| Registry.WalkErrors | server/providers.py:543-549 | each candidate's error count grows by exactly the number of its failures in the trace |
| Registry.WalkSuccesses | server/providers.py:532-535 | each candidate's success count grows by exactly the number of its successes in the trace |
| Registry.FailoverFacts | server/providers.py:511-555 | `chat_with_failover` follows the attempt order, succeeds exactly when its last event is a success, returns the reply of the candidate at that position of the attempt order, and changes the counters only as the trace says |
| Registry.NoMissingWhenOk | server/providers.py:530 | with a well-formed registry and an active provider the only outcomes are a reply or "all failed" (no missing-key error) |
| Registry.EmptyRegistryFails | server/providers.py:519-530 | on an empty registry the empty active name is tried and the dictionary lookup fails |
| Registry.TwoProviderOrder | tests/test_providers.py:441-445 | two registrations give the first one as active and the order first, second |
| Registry.FailoverToSecond | tests/test_providers.py:461-467 | when the primary raises and the second replies, the trace is fail-then-succeed and the reply is tagged "(failover)" |
| Registry.OpenCircuitSkipped | tests/test_providers.py:496-514 | a primary with an open circuit is skipped without a call, and its error count stays unchanged |
| Prompt.DigitEnd | server/main.py:242 | the scanner's `\d+` run: the end of the maximal run of digits from a position |
| Prompt.KeywordEnd | server/main.py:242 | a keyword family matches at a position exactly when one of its stems is there case-insensitively, optionally followed by `s` |
| Prompt.ScanRuns | server/main.py:242-243 | `re.findall` reports, in order of position, the value of every whole digit run that spaces, an optional hyphen and a keyword follow, and nothing else |
| Prompt.RunValuesMembers | server/main.py:242-243 | a value is in that reference list exactly when some whole digit run from the position on reads as it and a keyword follows |
| Prompt.FindAllMentions | server/main.py:242-245 | a value is among the counts found exactly when the prompt mentions it as a whole digit run followed by a keyword |
| Prompt.ScanNoDigits | server/main.py:243 | a prompt without digits yields no mention |
| Prompt.SeqMax | server/main.py:245 | the maximum is one of the values and bounds all of them |
| Prompt.CountRequestedNotes | server/main.py:463-476 | the largest "N notes/steps/hits" count; otherwise four times the largest bar count; otherwise 0 |
| Prompt.BudgetFor | server/main.py:246-247 | the budget is clamped to 1000..3200 |
| Prompt.BudgetForShape | server/main.py:246-247 | the budget is 1000 up to 12 notes, 300 + 55 per note from 13 to 52, and 3200 from 53 |
| Prompt.BudgetMonotone | server/main.py:246-247 | asking for more notes never lowers the budget |
| Prompt.EstimateGenerateTokens | server/main.py:234-267 | the budget comes from the largest note/step/hit/event count, else from bars at 8 per bar for drum prompts and 4 otherwise, else from beats, else 1000, always in 1000..3200 |
| Prompt.RequestedWithDefault | server/main.py:572-576 | the dedicated path's target is the requested count, or 16 for a drum prompt (whose words include "beat") and 8 otherwise |
| Prompt.NoDigitsNoCount | server/main.py:463-476 | a prompt without digits requests nothing and gets the base budget of 1000 |
| Prompt.NotesPhrase | server/main.py:466-469 | "N notes" requests N notes and gets the budget for N |
| Prompt.BarsPhrase | server/main.py:471-475 | "N bars" requests 4N notes and gets the budget for 4N |
| Prompt.NotDrum | server/main.py:254 | "N bars" alone is not a drum prompt |
| Response.ExtractJsonBlocks | server/main.py:270-282 | at most one block per "```json" opener |
| Response.ExtractRendered | server/main.py:270-282 | for prose followed by closed json fences, with the reply possibly ending right at the last closing fence, the blocks are exactly the parses of the fenced bodies that parse, in order |
| Response.ExtractProse | server/main.py:273-274 | text with no fence yields no block |
| Response.UnclosedDropped | server/main.py:275-276 | a json fence that is never closed yields nothing |
| Response.FixQuotesSound | server/main.py:289 | the quote fix only turns single quotes into double quotes, and leaves no single quote that the rule would still replace |
| Response.FixQuotesIdempotent | server/main.py:289 | the quote fix is idempotent |
| Response.DropKeeps | server/main.py:291 | removing trailing commas changes only commas and blanks: the text without blanks is unchanged |
| Response.DropCounts | server/main.py:291 | removing trailing commas keeps the count of every other non-blank character |
| Response.RenameNoBrace | server/main.py:302 | the alias rewrite does nothing where no brace precedes a key |
| Response.RenameTopKey | server/main.py:302 | a wrong key right after the opening brace becomes `{ "right"` |
| Response.AliasBareKey | server/main.py:304-305 | a wrong key at the very start of the text is renamed in place |
| Response.NormalizeCounts | server/main.py:285-306 | normalisation never changes how many brackets and braces the text holds |
| Response.CutShape | server/main.py:353-357 | the repair cut ends at the last `}` at index > 0, and exists exactly when there is one |
| Response.CloseOpenBalances | server/main.py:359-361 | closing what is open leaves no unclosed bracket or brace, balances counts that were not over-closed, and changes nothing when nothing is open |
| Response.FirstOpen | server/main.py:333-337 | the smaller of the two `find` results that exist is the first `{` or `[` of the text, and there is none exactly when neither exists |
| Response.SkipPreamble | server/main.py:333-340 | the result is a suffix that starts at the first `{` or `[`, or the whole text when it already starts with one or has none |
| Response.UnfenceFenced | server/main.py:324-330 | for text that starts with a fence, the body of the first fence is kept, without a "json" tag, stripped |
| Response.FencedPrepared | server/main.py:320-340 | a fenced reply whose body starts a JSON value is prepared to exactly that body |
| Response.ParseFenced | server/main.py:309-348 | a fenced reply whose body parses gives that one value, wrapped as `{"midi_notes": …}` when it is not an object |
| Response.ParseChain | server/main.py:342-370 | a direct or repaired parse gives one block: the object itself, or the value under "midi_notes"; otherwise the fenced blocks of the original text |
| Response.ParsedObject | server/main.py:342-348 | a reply whose direct or repaired parse is an object yields exactly that block |
| Response.ParseGenerateResponse | server/main.py:309-370 | the result is a single object or the fallback extraction from the original text |
| Notes.FixNote | server/main.py:393-398 | a kept note ends up valid: pitch and velocity are pulled to the nearer bound of 0..127 and 1..127, the start is raised to 0.0 and the duration to 0.125; missing fields get velocity 100, start 0.0 and duration 0.25; other keys are kept, and a valid note is unchanged |
| Notes.FixCc | server/main.py:407-411 | a kept CC message ends up valid: number and value are pulled to the nearer bound of 0..127 and the beat is raised to 0.0; a missing value is 64 and a missing beat 0.0; other keys are kept, and a valid message is unchanged |
| Notes.FixNotesSingle | server/main.py:389-399 | a dict with a pitch is fixed and kept; anything else is dropped |
| Notes.FixNotesAppend | server/main.py:389-400 | the note list is cleaned element by element |
| Notes.FixCcsSingle | server/main.py:406-411 | a dict with a CC number is fixed and kept; anything else is dropped |
| Notes.FixCcsAppend | server/main.py:405-413 | the CC list is cleaned element by element |
| Notes.StringPitch | server/main.py:395-396 | a pitch written as the string of an integer is read with `int()` and clamped like the number, and the velocity defaults to 100 |
| Notes.StringPitchKept | server/main.py:389-399 | such a note is kept by the list filter |
| Notes.StringPitchBlock | server/main.py:383-400 | a block whose one note has a string pitch can be validated, and comes out with that note clamped and completed |
| Json.IntTextAccepted | server/main.py:395 | `int()` accepts the text `str()` prints for any integer and reads back that integer |
| Json.IntRoundTrip | server/main.py:395 | ... also with whitespace around it |
| Json.ScoredLiteral | server/main.py:395 | `int()` accepts a single underscore between digit runs and skips it in the value |
| Json.PointNotInt | server/main.py:395 | `int()` rejects every string holding a decimal point |
| Json.IntLiteralIsFloat | server/main.py:397 | every string `int()` accepts, `float()` accepts with the same value |
| Json.DecimalPoint | server/main.py:397 | `float()` of "<a>.<digits>" is `a` plus the digits read as a decimal fraction |
| Json.ExponentScales | server/main.py:397 | `float()` of "<a>e<k>" is `a` times ten to the `k`, for a negative `k` too |
| Notes.ValidateBlock | server/main.py:383-413 | a block keeps its keys and every other value; its `midi_notes` and `drum_notes` lists become each note clamped (`FixNotes`) and its `cc_messages` list each CC clamped (`FixCcs`), all of them then valid |
| Notes.ValidateAndFixNotes | server/main.py:373-415 | the result has one block per input block, each being that block validated by `ValidateBlock`; every block keeps its keys and every value that is not a note or CC list |
| Notes.ValidateBlockValidated | server/main.py:383-413 | a block whose lists are already valid is left unchanged |
| Notes.ValidateIdempotent | server/main.py:373-415 | validating twice is the same as validating once |
| Notes.ClampExamples | server/main.py:395-398 | pitch 200 becomes 127 and -5 becomes 0, velocity 0 becomes 1, duration 0 becomes 0.125, and pitch 60.9 truncates to 60 |
| Notes.MaxEnd | server/main.py:435-439 | the latest note end bounds every note's end and is 0 or one of them |
| Notes.PatternLen | server/main.py:440 | the pattern length is a whole number of 4-beat bars, at least 4, above the last end minus 0.01, and at most 3.99 past it |
| Notes.PatternLenUndershoots | server/main.py:440 | with the 3.99 tolerance, a note ending at 4.005 lies past the 4-beat pattern length |
| Notes.Round | server/main.py:446-451 | one pass copies originals shifted by the offset, stopping when the room runs out |
| Notes.TileClosedForm | server/main.py:443-452 | tiling reaches exactly the target, and note i is original i mod k shifted by (i div k) pattern lengths |
| Notes.TileFromStart | server/main.py:443-452 | the tiled list starts with the original notes and holds exactly the target count |
| Notes.ExtendList | server/main.py:429-454 | an empty list or a list already at the target is kept; a shorter one becomes the target count of tiled copies, starting with the originals |
| Notes.TiledValid | server/main.py:443-454 | tiling valid notes gives valid notes |
| Notes.ExtendKey | server/main.py:427-454 | only the named note list is replaced by its extension; other keys and non-lists are kept |
| Notes.ExtendBlock | server/main.py:426-454 | both note lists are extended and every other value is kept |
| Notes.ExtendPattern | server/main.py:418-460 | a non-positive target changes nothing; otherwise each block keeps its keys and non-note values, and its note lists are extended |
| Notes.ExtendNeverShrinks | server/main.py:418-460 | extension never lowers the note count |
| Notes.ExtendReachesTarget | server/main.py:418-460 | blocks with some notes reach at least the target count |
| Session.Truncate | server/main.py:501 | `prompt[:200]`: the first min(len, 200) characters |
| Session.SavePattern | server/main.py:490-511 | nothing is saved without notes; otherwise the id is the incremented counter, the entry records prompt, genre, model, blocks and count, and at most 20 newest entries remain |
| Session.SavePreserves | server/main.py:497-509 | saving keeps the bank invariant: ids increase, stay within the counter, every entry has notes, and there are at most 20 entries |
| Session.SaveIdIsFresh | server/main.py:497 | a new id is larger than every id already in the bank |
| Session.ClearPatterns | server/main.py:932-938 | clearing leaves an empty bank with the counter at 0 |
| Session.GetPattern | server/main.py:923-929 | a found pattern has the id asked for; not found means no entry has it |
| Session.Latest | server/main.py:915-920 | the latest pattern is the last entry, and there is none exactly when the bank is empty |
| Session.Summaries | server/main.py:903-911 | row i summarises entry len-1-i: id, timestamp, prompt, genre and note count |
| Session.ListPatterns | server/main.py:900-912 | the listing has one summary per held pattern, most recent first, and `count` is the number held |
| Session.ListNewestFirst | server/main.py:900-912 | in a well-formed bank the listed ids strictly decrease and the first row is the latest pattern |
| Session.ListedFound | server/main.py:900-929 | every listed id, looked up with `get_pattern`, gives the pattern that row summarises |
| Session.UniqueFound | server/main.py:923-929 | with increasing ids, looking up an entry's id finds that entry |
| Session.SaveThenGet | server/main.py:490-511 | a saved pattern is the latest one and is found by its id |
| Session.AddUserTurn | server/main.py:546-549 | the user turn is appended and the history is cut to its last 40 entries |
| Session.AddAssistantTurn | server/main.py:619 | the assistant turn is appended without a cap |
| Session.ExchangeBounded | server/main.py:546-549 | one exchange keeps a history of at most 41 entries |
| Session.HistoryReaches41 | server/main.py:546-549 | a full history of 40 reaches 41 after the reply is appended |
| Seqs.KeepLast | server/main.py:509 | `xs[-n:]`: the last min(len, n) elements |
| Seqs.PushAllKeepsLast | server/providers.py:349 | pushing onto a bounded deque equals keeping the last n of all pushed values |
| Generate.Boost | server/main.py:639-640 | a retry adds 600 tokens up to 3200 and lowers the temperature to 0.2 |
| Generate.Evaluate | server/main.py:598-599 | parsing then validating succeeds exactly when every parsed block can be validated, and its value is then the parsed blocks validated one by one |
| Generate.EvaluateOne | server/main.py:598-599 | a reply read as one validatable block is answered with that block validated |
| Generate.StringPitchEvaluates | server/main.py:598-599 | a reply such as `{"midi_notes": [{"pitch": "60"}]}` is validated and answered, not a crash |
| Generate.JudgeMeetsTarget | server/main.py:603-617 | a result that needs no retry has notes, and after tiling at least the requested number |
| Generate.Pass | server/main.py:579-640 | one attempt goes round again exactly when the reply needs a retry and it is not the last attempt; a reply records a success, and an exception stops the loop with the current arguments |
| Generate.GenLoop | server/main.py:579-640 | the loop makes between one and two calls, and a kept answer holds only clamped notes |
| Generate.LoopCalls | server/main.py:579-640 | every call sends the same messages, and each retry's arguments are the boost of the previous ones |
| Generate.LoopEnds | server/main.py:590-617 | a break hands on the last call's arguments; a kept answer needed no retry unless it came from the last attempt |
| Generate.LoopBreaker | server/main.py:588 | the dedicated breaker record gains exactly one success per returned reply, and nothing else changes |
| Generate.RetryIff | server/main.py:603-614 | a second call is made exactly when the first reply returned and needed a retry |
| Generate.ResolveGenre | server/main.py:542 | the request's genre wins when set; otherwise the current genre is used |
| Generate.Ask | server/main.py:532-684 | without an active provider `/ask` fails and changes nothing; the dedicated adapter is called exactly when the request takes the generate path |
| Generate.AskRoutes | server/main.py:546-570 | a generate request with the dedicated adapter up sends just the user message, with the estimated budget at temperature 0.4 |
| Generate.DedicatedShape | server/main.py:567-647 | the failover call is made exactly when the loop broke out, with the arguments current at that point; a kept answer carries the loop's blocks |
| Generate.DedicatedCalls | server/main.py:579-647 | the first dedicated call carries the initial arguments, and a fallback reuses the last call's arguments |
| Generate.DedicatedRetry | server/main.py:603-640 | a second dedicated call happens exactly when the first reply needed a retry, with the boosted arguments |
| Generate.DedicatedMeetsTarget | server/main.py:603-617 | a dedicated answer reaches the target note count unless it came from the last attempt |
| Generate.AnswerRecorded | server/main.py:546-665 | a successful `/ask` ends the history with the user turn then the reply, saves a generate answer exactly when it has notes, and saves no chat answer |
| Generate.AskKeepsServerOk | server/main.py:532-684 | `/ask` keeps the server invariant: a valid bank, a valid registry, and at most 41 history entries |
| Generate.ChatRequest | server/main.py:563-667 | a chat request sends the whole history with 4096 tokens through failover, and its blocks are the fenced ones with no pattern saved |
| Generate.SavedAnswer | server/main.py:490-511 | a saved answer is the latest pattern, found by its id, with the answer's blocks |
| Bytes.Pad4 | m4l/build-device.py:607-610 | `_pad4` keeps the input, appends only zeros, and stops at the first multiple of four |
| Bytes.Pad4IsZeros | m4l/build-device.py:607-610 | `_pad4` is the input followed by exactly the missing zeros up to a multiple of four |
| Bytes.BE32RoundTrip | m4l/build-device.py:617-623 | unpacking a big-endian word gives back the packed value |
| Bytes.LE32RoundTrip | m4l/build-device.py:674-680 | unpacking a little-endian word gives back the packed value |
| Bytes.BE32Onto | m4l/build-device.py:617-623 | every four bytes are the big-endian packing of one value |
| Ampf.ChunkIdsDistinct | m4l/build-device.py:594-596 | the three device types have distinct chunk ids, and every other type falls back to the MIDI id |
| Ampf.MdatStamp | m4l/build-device.py:603-605 | the timestamp is the clock plus the HFS epoch offset, reduced to 32 bits |
| Ampf.NameFieldRoundTrip | m4l/build-device.py:615 | the padded name field reads back as the name up to its NUL terminator |
| Ampf.DirePayloadRoundTrip | m4l/build-device.py:612-624 | a `dire` payload reads back as its type, name, size, offset, flags and timestamp, with version 0 |
| Ampf.DiresRoundTrip | m4l/build-device.py:646-649 | the concatenated `dire` chunks read back as the entry list |
| Ampf.ResourceEntriesAt | m4l/build-device.py:637-642 | resource k gets type TEXT, its name and size, and offset 16 + json size + the sizes of the resources before it |
| Ampf.WrapAmpf | m4l/build-device.py:576-682 | the container is produced exactly when every name is ASCII and every packed size fits 32 bits, and it is 32 header bytes plus the patch payload |
| Ampf.PayloadLayout | m4l/build-device.py:651-670 | splitting the `dlst` at 16 bytes around the content boundary lays the payload out as context, JSON, resources, then the whole `dlst` |
| Ampf.WrapLayout | m4l/build-device.py:660-682 | the output is the header for the chosen chunk and payload size followed by that layout |
| Ampf.HeaderRoundTrip | m4l/build-device.py:672-682 | the header reads back as its device chunk and the payload it frames |
| Ampf.ContextRoundTrip | m4l/build-device.py:664-667 | the `mx@c` context reads back the content size |
| Ampf.DlstOfRoundTrip | m4l/build-device.py:651-656 | the `dlst` directory reads back as one record per entry |
| Ampf.PayloadDirOf | m4l/build-device.py:656-670 | the directory found through the context's content size is the entry list |
| Ampf.WrapOffsets | m4l/build-device.py:627-642 | every entry's offset and size select, within the patch payload, exactly the main JSON or that resource's bytes |
| Ampf.WrapSlices | m4l/build-device.py:627-670 | reading each directory entry's slice of the payload gives the JSON then each resource's data |
| Ampf.UnwrapWrap | m4l/build-device.py:576-682 | reading a wrapped container gives back the device chunk, the JSON, the file name, the resources in order, and the timestamp |

## Left out

- The adapters' `chat` bodies, their HTTP calls, and `build_default_registry`. Each call's outcome and duration come from an oracle.
- Logging, and the `timestamp` of answers and patterns, which is a parameter.
- Concurrency: the server's global state is threaded through `/ask` as a value.
- Everything from the HTTP layer except the error results: request validation, the 503 and 502 mapping, and the other endpoints apart from pattern listing, latest, lookup and clear (`/reset`, `/history`, health and warm-up are not modelled).
- `build_system_prompt` and `build_user_message` belong to the prompt module, which is not part of this model. The user message is a field of the request. The system prompt is not sent through the model, since the oracle sees only messages and settings.
- The `is_available()` of the dedicated generation adapter is the `genUp` parameter of `Generate.Ask`. The adapters' `is_available()` in `list_available` is a parameter too.
- Breaker.GetHealth: the average latency is not rounded to one decimal, because floating-point rounding is not modelled.
- Breaker.HealthScore: real arithmetic stands in for Python floats, so `int()` truncation is exact here, while float rounding in the source could differ in the last place.
- Breaker.Touch: health records are created on first use as in `_get`; nothing else about lazily created entries (such as dictionary order) is modelled.
- Registry.FailoverFacts: the error text of the aggregate `RuntimeError` (last error and health dump) is collapsed into one `AllFailed` value. The `KeyError` of a missing provider is an explicit `MissingProvider` result rather than a precondition.
- Prompt.CountRequestedNotes: `\d` matches ASCII digits only, and `re.IGNORECASE` is modelled as ASCII lower-casing. Python's limit on the number of digits `int()` accepts is not modelled.
- Response.FixQuotesSound: the single-quote rule is modelled as it is written (a look-behind or look-ahead on structural characters). Its heuristic misfires inside strings are kept rather than corrected.
- Response.ExtractRendered: it is stated for fenced blocks whose body holds no backtick and whose following prose, possibly empty, holds no backtick and does not start with "j". Other shapes are covered by the general definition but not by this lemma.
- Response.ParseGenerateResponse: `json.loads` is a parameter. JSON objects are maps, so key order and duplicate keys are not modelled. Numbers are exact rationals (`JFloat(real)`), so the parser's NaN and ±Infinity values, from the bare tokens `NaN`, `Infinity` and `-Infinity`, are not representable; nor is `int()` raising on them.
- Notes.ValidateAndFixNotes: its precondition excludes exactly the inputs on which `int()` or `float()` raises, and a block that is not a dict. `/ask` models that exception as a `Crashed` result. Numbers and numeric strings both pass.
- Json.FloatAccepts: `float()` also accepts "inf", "infinity" and "nan" in any case; these are treated as rejected, since they are not finite reals (see `Json.FloatLiteralHasDigit`). Non-ASCII digits and non-ASCII whitespace, which `int()` and `float()` also accept, are treated as rejected too.
- Notes.PatternLen: floats are reals. The 3.99 tolerance is modelled as written, so a pattern whose last note ends just past a bar line is not rounded up (see `Notes.PatternLenUndershoots`).
- Generate.JudgeMeetsTarget: the float test `actual < requested * 0.5` is written as `2 * actual < requested`, which agrees on integers.
- Generate.Ask: request fields that only shape the system prompt (session context) are not modelled.
- Ampf.WrapAmpf: both ways `wrap_ampf` can raise are collapsed into one `Unpackable` error. These are a non-ASCII name in `encode("ascii")` and a value of 2^32 or more in `struct.pack`. `resources=None` is modelled as the empty list.
- Ampf.UnwrapWrap: the reader `Unwrap` is defined only to state the round trip, and the device builder has none. Names must not contain NUL, since the reader stops at the first one.
