# Verified model of clawREFORM's streaming, formatting and record keeping

This Dafny project models the parts of clawREFORM whose behaviour is a property of every input or of every run, and
proves those properties:

- the Markdown-aware stream chunker and the stream deduplicator of the API crate,
- the three Markdown converters of the channels crate (Telegram HTML, Slack mrkdwn, plain text),
- the audit-log event stream, the OpenAI-compatible stream and the event-stream clients of the Python and JavaScript SDKs,
- the company goal and issue handlers, the `secrets.env` helpers with the loader that reads the file, and the directory
  scan for importable items.

Code that changes things step by step is modelled as classes and methods with loops; each is proved against a
specification function or a state machine over values, and the lemmas are about those. `dafny verify dfyconfig.toml`
checks everything. `{:induction false}` marks the lemmas whose proof is an induction written out, and those
about recursive functions where an automatic induction would only cost time.

| file | content |
|---|---|
| `text.dfy` | searching, splitting, joining, trimming, counting |
| `fences.dfy`, `chunker_spec.dfy`, `chunker_runs.dfy`, `chunker_splits.dfy`, `stream_chunker.dfy` | fence counting; the chunker's steps; whole runs; cuts inside code blocks; the class |
| `normalize.dfy`, `stream_dedup.dfy` | text normalisation; the duplicate window |
| `marker_pairs.dfy`, `one_pass.dfy`, `slack_bold.dfy`, `stars.dfy`, `links.dfy`, `formatter.dfy`, `conversions.dfy` | the passes of the formatter, the three conversions, and what they do to a whole message |
| `log_stream.dfy`, `sse_client.dfy`, `openai_forwarder.dfy`, `openai_client.dfy` | polling, parsing and forwarding of streams; what a client makes of a whole response |
| `keyed.dfy`, `company_input.dfy`, `company.dfy`, `company_effects.dfy`, `company_tidy.dfy`, `company_store.dfy` | lists of records with an id; normalised input; goals and issues: specification; what each request leaves; what is always normalised; handlers |
| `secrets_env.dfy` | the key file and its loader |
| `auto_import.dfy` | the directory scan |

## Where the code falls short of its documentation or its use

- The chunker's header says it never splits inside fenced code blocks. `ChunkerSplits.SplitInsideFence` is a run in which
  it does, with a closed block still in the buffer. `ChunkerSplits.LeavesOpenIff` says for every run and its thresholds
  exactly when a flush does so; for pushes that end at line ends (`ChunkerSplits.LeavesOpenWholeLines`) it is when the
  cut leaves an odd number of fence lines behind.
- With min above max the chunker panics at a flush outside a fence as soon as the buffer reaches min
  (`ChunkerSpec.PanicsIff`).
- The tool index of the OpenAI-compatible stream starts again at zero in every LLM iteration, and the chunks do not say
  where an iteration ends. A client that goes by the index alone loses calls when two iterations make some
  (`OpenAiClient.SecondIterationOverwrites`); `OpenAiClient.IndexClientIff` and `OpenAiClient.GroupClientIff` say exactly
  when it, and a client that opens a group at every start with index zero, recover all calls.
- Repeated flushing does not come to rest for every choice of thresholds; `ChunkerSpec.FlushingEnds` has the exact condition.
- The log stream's documentation says only new entries are sent and existing ones are a backfill, so nothing should be
  lost. Entries are numbered from zero and the cursor starts at zero, so a client that connects to an empty log never
  gets entry zero (`LogStream.FirstEntryLost`); `LogStream.CompleteIffLosesNothing` says exactly which runs are complete.
- A write to `secrets.env` is documented to overwrite the key. A line that spells the key with other spacing stays and
  wins when the file is loaded (`SecretsEnv.RespelledWins`); `SecretsEnv.WriteThenLoad` has the exact condition.
- The Slack bold loop reads the stars it writes (`SlackBold.BoldReadsItsOutput`); `SlackBold.BoldIsPaired` says what it
  computes on every text.

## Model

| member | source | states |
|---|---|---|
| StreamChunkerCode.StreamChunker.constructor | crates/clawreform-api/src/stream_chunker.rs:21-29 | a new chunker is empty, outside any fence, at the start of a run with the given thresholds, whatever they are |
| StreamChunkerCode.StreamChunker.Push | crates/clawreform-api/src/stream_chunker.rs:32-50 | the line loop appends the text and flips the fence flag once per fence line in it; the marker is there exactly while a fence is open |
| StreamChunkerCode.StreamChunker.TryFlush | crates/clawreform-api/src/stream_chunker.rs:56-114 | where the call does not panic, it returns the chunk and leaves the state of the specified flush step, and stays on the run of calls made so far |
| ChunkerSpec.PanicsIff | crates/clawreform-api/src/stream_chunker.rs:56-77 | a flush slices past its window exactly when min is above max, no fence is open and the buffer has reached min; otherwise with min above max nothing leaves below min and a forced close happens from there; with min at most max it is the flush step |
| StreamChunkerCode.StreamChunker.FlushRemaining | crates/clawreform-api/src/stream_chunker.rs:117-123 | hands out the whole buffer, or nothing when it is empty, leaves it empty and the fence flag alone, and stays on the run |
| ChunkerSpec.FindLastInRange | crates/clawreform-api/src/stream_chunker.rs:137-140 | the last occurrence that lies inside the range, if there is one |
| ChunkerSpec.UnfencedChunk | crates/clawreform-api/src/stream_chunker.rs:76-114 | an unforced chunk is a prefix of the buffer between min and max long, cut at the best natural break of the window (paragraph, newline, then the three sentence ends; the last of its kind), else exactly at max; nothing leaves exactly when the buffer is below min, or below max without a natural break |
| ChunkerSpec.BreaksInOrder | crates/clawreform-api/src/stream_chunker.rs:79-111 | outside a fence and from min on: a blank line in the window decides before any other newline, that before a full stop, that before an exclamation mark, that before a question mark, each sentence end before a space; the last one counts, and without any the chunk has the length max |
| Fences.FenceLineIff | crates/clawreform-api/src/stream_chunker.rs:36-37 | a fence line has three backticks behind nothing but whitespace |
| ChunkerSpec.FencedFlush | crates/clawreform-api/src/stream_chunker.rs:61-74 | while a fence is open a chunk leaves exactly when the buffer reaches max; it is the buffer and one closing fence line, and the new buffer is one fence line, literally |
| ChunkerSpec.FlushingEnds | crates/clawreform-api/src/stream_chunker.rs:56-114 | repeated flushing without pushes comes to rest exactly when max is positive outside a fence, or inside one when the buffer is below max or max exceeds the four reopened characters; then it does so within buffer length plus one calls and leaves less than max |
| ChunkerRuns.Conservation | crates/clawreform-api/src/stream_chunker.rs:32-123 | over every run, the emitted chunks and the buffer spell the pushed text with one close-and-reopen text inserted at the point each forced close had reached, and nothing else changed |
| ChunkerRuns.NothingInserted | crates/clawreform-api/src/stream_chunker.rs:32-123 | without a forced close the text comes out as it went in |
| ChunkerRuns.NothingIsHeldBack | crates/clawreform-api/src/stream_chunker.rs:117-123 | in every run, flushing the rest emits the buffer as one chunk exactly when there is one and empties it; then all that was emitted is the pushed text with one close-and-reopen text at each forced close |
| ChunkerRuns.FlagIsParity | crates/clawreform-api/src/stream_chunker.rs:32-74 | in every reachable state the flag is the parity of the fence lines pushed, whatever was flushed |
| ChunkerRuns.FencesBalanced | crates/clawreform-api/src/stream_chunker.rs:66-74 | when pushes end at line ends, the emitted text has an even number of fence lines right after every forced close |
| ChunkerRuns.FencesBalancedIff | crates/clawreform-api/src/stream_chunker.rs:66-74 | for pushes of any shape, it is even exactly when the texts pushed between forced closes hold an odd number of fence lines |
| ChunkerRuns.PushInTwo | crates/clawreform-api/src/stream_chunker.rs:32-50 | pushing a text in two goes equals pushing it in one exactly when the cut line neither becomes nor stops being a fence line |
| ChunkerRuns.PushWholeLine | crates/clawreform-api/src/stream_chunker.rs:32-50 | after a whole line it always does |
| ChunkerSplits.LeavesOpenIff | crates/clawreform-api/src/stream_chunker.rs:3-4 | for every run and its thresholds, an unforced flush leaves a code block open in the emitted text exactly when no fence is open and the fence lines behind its cut differ in parity from those pushed between forced closes |
| ChunkerSplits.LeavesOpenWholeLines | crates/clawreform-api/src/stream_chunker.rs:76-111 | when pushes end at line ends, exactly when no fence is open and the cut leaves an odd number of fence lines behind |
| ChunkerSplits.CutsBlockAtLineEnd | crates/clawreform-api/src/stream_chunker.rs:79-88 | when the cut ends a line too, those are the fence lines of the rest of the buffer |
| ChunkerSplits.NoFenceLineNoSplit | crates/clawreform-api/src/stream_chunker.rs:76-111 | a buffer that begins a line and has no fence line is never cut inside a block |
| ChunkerSplits.SplitInsideFence | crates/clawreform-api/src/stream_chunker.rs:79-82 | a literal run, pushing a text with one closed block and flushing, emits the block's first half |
| ChunkerSplits.NeverSplitsIff | crates/clawreform-api/src/stream_chunker.rs:76-111 | for a pushed text whose blocks are closed, no thresholds make the first flush leave one open exactly when the text has no fence line |
| Normalization.NormalizeText | crates/clawreform-api/src/stream_dedup.rs:78-95 | the one-pass loop computes the lowercased words joined with single spaces |
| Normalization.NormalizeIdempotent | crates/clawreform-api/src/stream_dedup.rs:77-95 | normalising twice is normalising once |
| Normalization.SameNormalForm | crates/clawreform-api/src/stream_dedup.rs:77-95 | two texts share a normal form exactly when they have the same words up to case |
| Normalization.WhitespaceRunsAreAlike | crates/clawreform-api/src/stream_dedup.rs:77-95 | a nonempty whitespace run may be replaced by any other |
| Normalization.CaseIsIgnored | crates/clawreform-api/src/stream_dedup.rs:77-95 | a capital and its small letter have the same normal form wherever they stand |
| Normalization.NormalAlready | crates/clawreform-api/src/stream_dedup.rs:77-95 | words without capitals, joined with single spaces, are their own normal form, so nothing else is identified |
| StreamDedupCode.StreamDedup.IsDuplicate | crates/clawreform-api/src/stream_dedup.rs:33-46 | true exactly when the text is long enough and shares its normal form with one of the last 50 long texts recorded since the last clear; the exact comparison never changes the answer |
| StreamDedupCode.StreamDedup.RecordSent | crates/clawreform-api/src/stream_dedup.rs:49-62 | the two lists stay the last 50 long texts recorded since the last clear and their normal forms, place by place |
| StreamDedupCode.StreamDedup.Clear | crates/clawreform-api/src/stream_dedup.rs:65-68 | empties the window |
| StreamDedupCode.RecognisedWhileInWindow | crates/clawreform-api/src/stream_dedup.rs:29-62 | a recorded text is recognised in any spelling with the same words while fewer than 50 long texts follow |
| StreamDedupCode.ForgottenAfterWindow | crates/clawreform-api/src/stream_dedup.rs:54-58 | after 50 others it is not |
| StreamDedupCode.RepeatsIff | crates/clawreform-api/src/stream_dedup.rs:33-68 | over every run of calls, a text repeats exactly when it has ten characters or more and some call recorded a text as long with the same words up to case, since which nothing was cleared and fewer than 50 such long texts were recorded |
| MarkerPairs.ReplacePairs | crates/clawreform-channels/src/formatter.rs:26-35 | the splice-and-rescan loop (bold for Telegram and Slack, inline code) ends and computes the rounds until no pair is left |
| MarkerPairs.RoundCounts | crates/clawreform-channels/src/formatter.rs:107-116 | each round exchanges two markers for the two replacements in the number of every character |
| MarkerPairs.RescanIsNormal | crates/clawreform-channels/src/formatter.rs:61-75 | no text is left with two disjoint markers |
| OnePassPairs.TelegramIsOnePass | crates/clawreform-channels/src/formatter.rs:26-75 | Telegram's bold and code loops equal a single left-to-right pass on every text |
| SlackBold.BoldKeepsText | crates/clawreform-channels/src/formatter.rs:107-116 | the Slack loop keeps every other character in order and the parity of the stars |
| SlackBold.BoldIsNormal | crates/clawreform-channels/src/formatter.rs:107-116 | it leaves no two disjoint double stars and is idempotent |
| SlackBold.BoldIsPaired | crates/clawreform-channels/src/formatter.rs:107-116 | on every text it equals one pass over runs of stars: an opening run shrinks to two or three stars, and every marker met takes a star from it and loses one |
| SlackBold.BoldIsOnePass | crates/clawreform-channels/src/formatter.rs:107-116 | without three stars in a row it equals the pass that never reads what it wrote |
| SlackBold.BoldReadsItsOutput | crates/clawreform-channels/src/formatter.rs:107-116 | with three it need not |
| Stars.Italicize | crates/clawreform-channels/src/formatter.rs:39-59 | the toggle loop shows an isolated star as an opening tag after an even number of them and as a closing tag after an odd number |
| Stars.ItalicNests | crates/clawreform-channels/src/formatter.rs:39-58 | italic tags never overlap, and one stays open exactly when isolated stars are odd in number |
| Stars.StarRunsStay | crates/clawreform-channels/src/formatter.rs:44-46 | where every star has a star beside it the toggle loop changes nothing |
| Stars.RemoveIsolated | crates/clawreform-channels/src/formatter.rs:153-164 | the loop drops exactly the isolated stars |
| Stars.StarsRemoved | crates/clawreform-channels/src/formatter.rs:148-164 | deleting double stars and then isolated stars deletes every star and nothing else |
| Links.ConvertLinks | crates/clawreform-channels/src/formatter.rs:77-98 | the link loop (in all three styles) ends and computes the rounds until no link is left |
| Links.LinkShrinks | crates/clawreform-channels/src/formatter.rs:118-139 | every round leaves exactly one `[` less, whatever text and URL contain |
| Links.LinksIdempotent | crates/clawreform-channels/src/formatter.rs:169-190 | a link pass leaves no `[`, later `](`, later `)`, and running it again in any style changes nothing |
| Links.LinksKeepText | crates/clawreform-channels/src/formatter.rs:77-98 | for every character, its number changes by brackets and frames only: no character of a text or URL is lost or doubled |
| Links.LinksAreOnePass | crates/clawreform-channels/src/formatter.rs:118-139 | when no text or URL holds a `[`, every link is rendered once, left to right |
| Formatter.FormatForChannel | crates/clawreform-channels/src/formatter.rs:11-18 | each format gets its conversion, Markdown the text itself |
| Formatter.MarkdownToTelegramHtml | crates/clawreform-channels/src/formatter.rs:23-101 | bold, italic, code, links, in this order |
| Formatter.MarkdownToSlackMrkdwn | crates/clawreform-channels/src/formatter.rs:104-142 | bold, then links |
| Formatter.MarkdownToPlain | crates/clawreform-channels/src/formatter.rs:145-193 | all stars and backticks go, then the links |
| Formatter.PlainIsPlain | crates/clawreform-channels/src/formatter.rs:145-193 | plain text has no star, backtick or link, and formatting it again changes nothing |
| Formatter.PlainKeepsText | crates/clawreform-channels/src/formatter.rs:145-193 | every character but marks, brackets and spaces is kept in order |
| Formatter.TelegramBackticks | crates/clawreform-channels/src/formatter.rs:23-101 | one backtick is left exactly when the message has an odd number, else none |
| Formatter.TelegramStars | crates/clawreform-channels/src/formatter.rs:23-101 | at most three stars are left, and none when the bold pass left no marker |
| Formatter.TelegramKeepsText | crates/clawreform-channels/src/formatter.rs:23-101 | a character of no marker or tag is as frequent as in the message |
| Conversions.ConvertsMessage | crates/clawreform-channels/src/formatter.rs:3-6 | a message of any number of plain, bold, italic, code and link passages, free of marks themselves and with no two starred ones side by side, comes out passage by passage in the notation of each of the three channels |
| Conversions.PassOver | crates/clawreform-channels/src/formatter.rs:26-35 | a pair loop rewrites every passage of its own marking and no other |
| Conversions.ItalicPassages | crates/clawreform-channels/src/formatter.rs:37-59 | the toggle loop gives every italic passage its own pair of tags and leaves the rest |
| Conversions.LinkPass | crates/clawreform-channels/src/formatter.rs:77-98 | the link loop, in each style, rewrites every link passage and no other |
| Conversions.ConvertsMarks | crates/clawreform-channels/src/formatter.rs:23-116 | among any words, double stars, single stars and backticks around a text become the bold, italic and code notation of each channel, spelled out |
| Conversions.ConvertsLink | crates/clawreform-channels/src/formatter.rs:77-190 | among any words, a link becomes an anchor with the URL in front, Slack's bracket with the URL in front, and text with the URL behind, spelled out |
| Conversions.ThreeStars | crates/clawreform-channels/src/formatter.rs:26-59 | bold goes before italic: of three stars around a text the outer two become bold |
| Conversions.MarksBeforeLinks | crates/clawreform-channels/src/formatter.rs:26-98 | links go last: bold, italic and code marks that pair up across text and URL are replaced before these change places |
| LogStream.LogPoller.Poll | crates/clawreform-api/src/routes.rs:3868-3915 | one poll sends, in order, the recent entries past the cursor that pass the filters, and moves the cursor to the last entry |
| LogStream.PollSends | crates/clawreform-api/src/routes.rs:3868-3939 | one poll sends, each once and in order, exactly the entries among the last 200 that are newer than the cursor (any on the first poll), whose lowercased action names the level's words, spelled out for error, warn and info, and in whose lowercased action, detail and agent the text filter occurs |
| LogStream.LogHoldsAppends | crates/clawreform-runtime/src/audit.rs:100-135 | the k-th append stays entry k with its own fields in every run |
| LogStream.SentIncreasing | crates/clawreform-api/src/routes.rs:3861-3917 | over every run of appends and polls the numbers sent are strictly increasing |
| LogStream.SentOrMissed | crates/clawreform-api/src/routes.rs:3861-3917 | the filtered log from the first backfill to the last poll is, as a multiset, the sent entries and the missed entries that pass; when none of these passes, what was sent is that log in order |
| LogStream.CompleteIffLosesNothing | crates/clawreform-api/src/routes.rs:3861-3917 | whatever the filters, the client's list is complete exactly when at no poll an entry passes that came after the poll before and is out of reach |
| LogStream.MissedNothing | crates/clawreform-api/src/routes.rs:3868-3875 | nothing is missed exactly when, at every poll after the first, the log has grown by at most 200 entries since the poll before and was not empty then unless it still is |
| LogStream.CompleteWhenInTime | crates/clawreform-api/src/routes.rs:3838-3843 | then the client has exactly the filtered log |
| LogStream.CompleteIffInTime | crates/clawreform-api/src/routes.rs:3838-3843 | without filters the client's list is complete exactly in those runs |
| LogStream.FirstEntryLost | crates/clawreform-api/src/routes.rs:3862-3875 | a client that polls an empty log first never gets entry zero |
| SseClient.PythonStream | sdk/python/clawreform_client.py:95-112 | however the text is cut into chunks, the events are those of the whole text's complete lines, up to the done line |
| SseClient.JavaScriptStream | sdk/javascript/index.js:85-104 | the same for the JavaScript loop |
| SseClient.MoreText | sdk/python/clawreform_client.py:100-102 | complete lines only grow with more text, and the tail is all a later chunk can change |
| SseClient.DataLine | sdk/python/clawreform_client.py:103-112 | a line with the data prefix comes out parsed, raw when it does not parse, or ends the stream when it is the done mark, and the rest of the text follows |
| SseClient.OtherLine | sdk/python/clawreform_client.py:103-105 | any other line, and a data line with nothing but whitespace, is nothing |
| SseClient.NoLineYet | sdk/python/clawreform_client.py:101-102 | a line without its line feed is nothing yet |
| SseClient.PythonEnds | sdk/python/clawreform_client.py:96-99 | a Python stream is the chunks before the first empty one |
| SseClient.LanguagesAgree | sdk/javascript/index.js:93-102 | where no complete line has one of six special characters in its outer whitespace, the two SDKs yield the same events |
| SseClient.SameStripIff | sdk/javascript/index.js:93-102 | the two languages strip a line alike exactly when its outer whitespace has none of the six |
| SseClient.LanguagesDiffer | sdk/javascript/index.js:93-102 | each of the six can make an event in one language only |
| SseClient.SpacesAgainstUnicode | sdk/python/clawreform_client.py:103 | Python's strip also takes the four separators, JavaScript's trim leaves NEL and takes the byte order mark: these are the six characters |
| OpenAiForwarder.StreamResponse | crates/clawreform-api/src/openai_compat.rs:387-526 | a client that takes n messages gets the first n of: role, one chunk per forwarded event, finish, end marker |
| OpenAiForwarder.EndsOnce | crates/clawreform-api/src/openai_compat.rs:512-525 | one finish and then one end marker, at the very end |
| OpenAiClient.OneChunkAnEvent | crates/clawreform-api/src/openai_compat.rs:437-502 | each event adds one literal chunk or none: text, a start numbered by the calls of its iteration so far, input with the number of the last of them, and nothing for any other event |
| OpenAiForwarder.TextArrives | crates/clawreform-api/src/openai_compat.rs:439-449 | the content deltas spell the agent's text |
| OpenAiForwarder.IndexCountsCalls | crates/clawreform-api/src/openai_compat.rs:450-452 | within an iteration start chunks carry 0, 1, 2, and so on |
| OpenAiForwarder.RoundTrip | crates/clawreform-api/src/openai_compat.rs:433-510 | a client that appends by index recovers every call's id, name and whole input in start order, exactly when no input came before the first start, or only empty input and then a start |
| OpenAiForwarder.WholeRun | crates/clawreform-api/src/openai_compat.rs:431-526 | the response is the iterations' chunks one after the other, each numbered from zero; a client that is told the cuts recovers every iteration without orphan input |
| OpenAiClient.MeantAppend | crates/clawreform-api/src/openai_compat.rs:450-474 | the calls of all iterations grow event by event: a start adds a call, and input extends the last one unless it is an orphan, that is, comes at index zero |
| OpenAiClient.IndexClientIff | crates/clawreform-api/src/openai_compat.rs:492-502 | from the chunks alone, a client that goes by the index recovers the calls of the whole response exactly when calls start in at most one iteration, orphan input is empty, and there is none unless a call starts |
| OpenAiClient.IndexClientCounts | crates/clawreform-api/src/openai_compat.rs:433-510 | it keeps every character of input, and with calls in more than one iteration it has fewer calls than were started |
| OpenAiClient.SecondIterationOverwrites | crates/clawreform-api/src/openai_compat.rs:497-499 | for any two calls in two iterations, it is left with the second alone, with the inputs of both |
| OpenAiClient.GroupClientIff | crates/clawreform-api/src/openai_compat.rs:450-474 | a client that opens a group at every start with index zero recovers the calls of any run, however many iterations it has, exactly when orphan input is empty and none comes before the first start |
| CompanyStoreCode.CompanyStore.CreateCompanyGoal | crates/clawreform-api/src/routes.rs:8774-8806 | appends the goal, or rejects and changes nothing |
| CompanyStoreCode.CompanyStore.UpdateCompanyGoal | crates/clawreform-api/src/routes.rs:8809-8860 | changes the named fields of that goal alone; a rejected update leaves the lists as they were |
| CompanyStoreCode.CompanyStore.DeleteCompanyGoal | crates/clawreform-api/src/routes.rs:8863-8893 | removes the goal, detaches its issues and reports how many there were |
| CompanyStoreCode.CompanyStore.CreateCompanyIssue | crates/clawreform-api/src/routes.rs:8922-8962 | appends the issue, or rejects an unknown goal or blank title |
| CompanyStoreCode.CompanyStore.UpdateCompanyIssue | crates/clawreform-api/src/routes.rs:8965-9022 | changes the named fields of that issue alone; a rejected update leaves the lists as they were |
| CompanyStoreCode.CompanyStore.DeleteCompanyIssue | crates/clawreform-api/src/routes.rs:9025-9044 | takes that issue out of the list, leaves the others in order and the goals alone, or reports that there is none |
| CompanyStoreCode.CompanyStore.AddCompanyIssueComment | crates/clawreform-api/src/routes.rs:9047-9080 | appends the trimmed comment to that issue alone |
| CompanyStoreCode.NormalizeLabels | crates/clawreform-api/src/routes.rs:9170-9183 | the loop yields the trimmed nonblank labels, each once, in order of first appearance |
| CompanySpec.StepKeepsConsistent | crates/clawreform-api/src/routes.rs:8774-9080 | every request keeps ids unique and every issue detached or on an existing goal |
| CompanySpec.RunsStayConsistent | crates/clawreform-api/src/routes.rs:8774-9080 | so does every run of requests |
| CompanyEffects.DeleteDetaches | crates/clawreform-api/src/routes.rs:8863-8893 | deleting a goal takes it alone out of the list, detaches exactly the issues that name it and changes nothing else in any issue |
| CompanyEffects.DeleteIssueRemoves | crates/clawreform-api/src/routes.rs:9025-9044 | deleting an issue takes it alone out of the list; order and goals stay |
| CompanyEffects.DeletionLeaves | crates/clawreform-api/src/routes.rs:8863-9044 | after a deletion a goal or issue is there exactly when it was and has another id |
| CompanyEffects.UpdateGoalEffect | crates/clawreform-api/src/routes.rs:8809-8860 | field by field, what an update leaves in that goal, that nothing else changes, and exactly when it is rejected |
| CompanyEffects.UpdateIssueEffect | crates/clawreform-api/src/routes.rs:8965-9022 | the same for an issue, the goal named in it included |
| CompanyEffects.CreateGoalEffect | crates/clawreform-api/src/routes.rs:8774-8806 | field by field, the goal that is appended, and exactly when none is |
| CompanyEffects.CreateIssueEffect | crates/clawreform-api/src/routes.rs:8922-8962 | the same for an issue |
| CompanyEffects.CommentEffect | crates/clawreform-api/src/routes.rs:9047-9080 | one trimmed comment behind the others of that issue, and nothing else anywhere |
| CompanyEffects.UnknownRecord | crates/clawreform-api/src/routes.rs:8809-9080 | a request for a record that is not there changes nothing |
| CompanyInput.StoredOptional | crates/clawreform-api/src/routes.rs:9164-9168 | an optional text is stored trimmed, and not at all when it is blank |
| CompanyInput.LabelsInOrder | crates/clawreform-api/src/routes.rs:9170-9183 | labels stand in the order of first appearance |
| CompanyTidy.RunsStayTidy | crates/clawreform-api/src/routes.rs:9164-9183 | in every reachable store the texts of goals, issues and comments are trimmed, titles, comment authors and comment bodies present, amounts not negative and labels normal |
| CompanyTidy.GoalWriteBack | crates/clawreform-api/src/routes.rs:8809-8860 | an update with a goal's own fields is accepted and changes nothing |
| CompanyTidy.IssueWriteBack | crates/clawreform-api/src/routes.rs:8965-9022 | the same for an issue |
| CompanyTidy.RetryIsHarmless | crates/clawreform-api/src/routes.rs:8809-9044 | sending an update or deletion twice is sending it once |
| CompanyInput.LabelsIdempotent | crates/clawreform-api/src/routes.rs:9170-9183 | normalising labels twice is normalising them once |
| SecretsEnv.SecretsFile.WriteSecretEnv | crates/clawreform-api/src/routes.rs:6125-6156 | the file holds the other lines in order and the key's line last; a missing file counts as empty |
| SecretsEnv.SecretsFile.RemoveSecretEnv | crates/clawreform-api/src/routes.rs:6159-6173 | the file holds the other lines; a missing file stays missing |
| SecretsEnv.LinesOfUnlines | crates/clawreform-api/src/routes.rs:6146 | reading lines undoes writing them exactly when there is a line and none ends with a carriage return; no lines read back as one blank line |
| SecretsEnv.LinesOfUnterminated | crates/clawreform-api/src/routes.rs:6126-6130 | a last line without line feed is read as it stands, the others without one carriage return at their ends |
| SecretsEnv.LinesOfTerminated | crates/clawreform-api/src/routes.rs:6126-6130 | with a line feed at the end every line is read without one carriage return at its end |
| SecretsEnv.WrittenLines | crates/clawreform-api/src/routes.rs:6135-6146 | after a write the key has exactly one line, the last |
| SecretsEnv.WriteAppends | crates/clawreform-api/src/routes.rs:6125-6156 | a write to a file without the key leaves its text and adds one line, behind a line feed when the last line had none |
| SecretsEnv.LineReplaced | crates/clawreform-api/src/routes.rs:6125-6173 | the key's line is taken out where it stands, and after a write the new one is the last |
| SecretsEnv.OthersKeep | crates/clawreform-api/src/routes.rs:6136 | exactly the lines that begin with the key and an equals sign go; comments and blank lines stay, all in order |
| SecretsEnv.AfterWrite | crates/clawreform-api/src/routes.rs:6123-6156 | loading after a write gives the key's cleaned value unless a respelled line comes first, and every other key what it had |
| SecretsEnv.AfterRemove | crates/clawreform-api/src/routes.rs:6158-6173 | loading after a removal gives the key nothing unless from a respelled line, and every other key what it had |
| SecretsEnv.UnterminatedIsKept | crates/clawreform-api/src/routes.rs:6125-6156 | a key on an unterminated last line loads its value before and after a write of another key |
| SecretsEnv.LoaderReads | crates/clawreform-cli/src/dotenv.rs:43-120 | whitespace in front of a line and around the key is no matter |
| SecretsEnv.LoaderSkips | crates/clawreform-cli/src/dotenv.rs:43-49 | blank lines, comments, lines without an equals sign and lines with nothing in front of it are not read |
| SecretsEnv.LoadedValue | crates/clawreform-cli/src/dotenv.rs:115-133 | a value in equal quotes is what is inside them, and another one loses its outer whitespace |
| SecretsEnv.WriteThenLoad | crates/clawreform-cli/src/dotenv.rs:31-54 | the loader returns the written value exactly when it has no outer whitespace or quotes and no respelled line has another value |
| SecretsEnv.RespelledWins | crates/clawreform-cli/src/dotenv.rs:115-133 | a line with a space before the equals sign survives the write and wins |
| SecretsEnv.WriteThenRemoveIff | crates/clawreform-api/src/routes.rs:6125-6173 | writing and then removing a key equals removing it exactly when no other line ends with a carriage return |
| AutoImport.ScanRecursive | crates/clawreform-api/src/auto_import.rs:253-299 | the recursive loop appends to each list the specified items of that kind in directory order |
| AutoImport.PerformScan | crates/clawreform-api/src/auto_import.rs:219-251 | the three lists are the scan's items by kind and the total counts each item once |
| AutoImport.ScanFinds | crates/clawreform-api/src/auto_import.rs:263-296 | a directory is reported exactly when it is marked, its manifest parses and no directory on the way to it below the root is marked |
| AutoImport.McpDirectory | crates/clawreform-api/src/auto_import.rs:269-274 | a directory with mcp_config.json is an MCP server if that is a file that parses, whatever else is in it, installed when its name is configured |
| AutoImport.SkillTomlDirectory | crates/clawreform-api/src/auto_import.rs:276-286 | without that, skill.toml makes a skill if it is a file that parses, installed when its name is among the skills |
| AutoImport.SkillMdDirectory | crates/clawreform-api/src/auto_import.rs:276-286 | without these, SKILL.md makes a skill if it is a file |
| AutoImport.PluginDirectory | crates/clawreform-api/src/auto_import.rs:288-293 | without these, package.json makes a plugin if it is a file that qualifies, never installed already |
| AutoImport.PlainDirectory | crates/clawreform-api/src/auto_import.rs:295 | without any of the four a directory is entered, and a file is nothing |
| AutoImport.ScanAppend | crates/clawreform-api/src/auto_import.rs:259-296 | items come in directory order |
| AutoImport.ScanIsExactly | crates/clawreform-api/src/auto_import.rs:253-299 | and nothing else: an item is reported exactly when it is the item of such a directory, under its path |
| AutoImport.ScanIsAntichain | crates/clawreform-api/src/auto_import.rs:253-299 | no reported directory is another one or lies below another |
| AutoImport.KindsCover | crates/clawreform-api/src/auto_import.rs:249 | every item is in the list of its kind and in no other |
| AutoImport.KindsInOrder | crates/clawreform-api/src/auto_import.rs:269-293 | each list keeps the order in which its items were found |

## Left out

- Lengths and positions count characters; UTF-8 bytes, cuts inside a character and decoding errors are not modelled.
- StreamChunkerCode.StreamChunker.TryFlush: is not called where the code panics; ChunkerSpec.PanicsIff says where that is, and runs are those of thresholds with min at most max.
- Normalization.NormalizeText: lowercases ASCII letters only; other characters are left alone.
- SlackBold.BoldIsOnePass: one direction only; some texts with three stars in a row also come out as a single pass leaves them, and what the loop computes on all texts is in SlackBold.BoldIsPaired.
- Links.LinksAreOnePass: one direction only; a `[` in a link text can be harmless when no later link follows.
- Conversions.ConvertsMessage: passages inside one another, starred neighbours and unpaired marks are not covered; what the loops do to any text is in the lemmas on the single passes.
- LogStream.LogPoller.Poll: a client that disconnects during a poll ends the loop; what it had received by then is not modelled, nor are the sleep between polls and the keep-alive pings.
- Audit entries are modelled without timestamp, outcome and hashes; the hash chain is not part of this model.
- SseClient.PythonStream: the JSON parser is a parameter, and the same one for both languages; the HTTP request, its errors and the decoding of bytes are left out.
- OpenAiForwarder.StreamResponse: the tool index has no 32-bit bound, and JSON serialisation, ids and timestamps of chunks are left out; chunks carry only role, content, calls, finish and end.
- Amounts are real numbers, so a budget that is not a number does not exist; ids and times come from outside, and a new id is assumed not to be in use.
- Company handlers are atomic steps on a store that never fails to load or save; concurrent handlers and malformed stored entries are left out.
- SecretsEnv.SecretsFile.WriteSecretEnv: file errors, directory creation and file permissions are left out.
- AutoImport.ScanRecursive: reads succeed and there are no links; the contents of manifests are judged by parameters, and descriptions, versions and the import itself are left out.
- HTTP routing, authentication, rate limits, the agent kernel, the remaining channel adapters and the other SDK methods would add only easy members or need code that is not here.
