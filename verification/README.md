# Streaming chat reader of the English tutor front end

This project models the client-side logic of a browser English tutor. The
tutor's two panels talk to a chat-completion service that streams its answer
as server-sent-event lines (`data: {...}` and a final `data: [DONE]`). The
model covers:

- **The line decoder.** It appears three times in the source, in
  `streamChat` in `VoiceTutor.tsx` and in the two handlers of
  `ParaphraseTools.tsx`. Chunks are appended to a buffer and complete lines
  are cut off the front. One trailing carriage return is stripped, comments,
  blank lines and lines without the exact `"data: "` prefix are skipped, and
  the trimmed payload is compared with `[DONE]` and otherwise handed to a
  JSON parser.
- **The two treatments of a payload the parser rejects.** VoiceTutor pushes
  the line back onto the buffer and ends the pass (`Rebuffer`).
  ParaphraseTools drops it (`Drop`). One decoder serves all three copies,
  selected by a parameter.
- **The transcript updater of VoiceTutor and the send step around it.** The
  send step chooses the message text, appends the user's message, clears the
  input, sends the request, folds the reply into the transcript and speaks
  it.
- **The response gate.** A status outside 2xx or a missing body fails the
  request. VoiceTutor shows a notice for 429 and for 402.
- **The ParaphraseTools handlers.** They refuse blank input, clear the
  output, send one prompt and append every delta to the output.
- **The dashboard's `formatTime` and its streak divisor
  `Math.max(longest_streak, 1)`.**

Modules follow the structure of the program:

| module | file | contents |
|---|---|---|
| `Wrappers` | wrappers.dfy | `Option` |
| `Text` | text.dfy | JavaScript `trim`, `indexOf`, prefixes and suffixes, concatenation of deltas |
| `Frames` | frames.dfy | one line: cutting, `'\r'` stripping, classification, interpretation |
| `Decoder` | decoder.dfy | the inner pass, one read step, the whole read loop, and the two failure modes |
| `ChunkBoundaries` | boundaries.dfy | a chunk-free reading of the concatenated text, and chunk-split invariance |
| `FinishedResponse` | finished.dfy | chunk-split invariance on a response that ends with `[DONE]` |
| `Transcript` | transcript.dfy | messages, the tail updater, and folding deltas into the transcript |
| `Gate` | gate.dfy | the response gate |
| `Chat` | chat.dfy | sending one message in the tutor panel |
| `Paraphrase` | paraphrase.dfy | the paraphrase and formula tools |
| `Dashboard` | dashboard.dfy | `formatTime` and the streak divisor |

`JSON.parse` and the read of `parsed.choices?.[0]?.delta?.content` are
foreign code. They are a function-valued parameter
`parse: string -> ParseResult`, so every property holds for every parser. A
thrown exception, including the `TypeError` of reading `choices` off `null`,
is `Malformed`. The chunks the reader delivers are modelled as strings that
are already decoded.

Two behaviours of the code deserve a note:

- **`[DONE]`.** `break` on the sentinel leaves only the inner `while`. The
  outer loop keeps reading, and a line buffered after the sentinel is read
  when the next chunk arrives (`Decoder.DoneEndsOnlyThePass`,
  `Decoder.BufferedLineReadNext`).
- **Rejected lines.** VoiceTutor pushes a rejected line back onto the
  buffer; ParaphraseTools drops it. Both are modelled. Push-back never
  recovers: once a complete line has been rejected, the same line is parsed
  again on every later pass, and no further delta arrives in that response
  (`Decoder.StallIsFinal`).

How the body is split into chunks does not change the reply, in two cases.
On a body with no `[DONE]` line (and, for VoiceTutor, no rejected line) the
reply is the content of its complete lines (`ChunkBoundaries.SplitInvariance`).
On a finished body, made of such lines, the `[DONE]` line and then lines that
carry no delta, the reply is the content of the lines before `[DONE]`
(`FinishedResponse.FinishedReply`): the pass that meets the sentinel stops
there, and the passes after it find nothing to emit.

The tail updater's guard `prev.length > 1` also has an edge case. On an empty
transcript, a second delta appends a second assistant message instead of
overwriting the first (`Transcript.EmptyTranscriptKeepsFirstReply`). The tutor
panel never reaches this case, because its transcript starts with the
greeting.

## Model

| member | source | states |
|---|---|---|
| Text.TrimSpec | src/components/VoiceTutor.tsx:136 | `trim` removes exactly the leading and trailing whitespace: the result is a contiguous slice with only whitespace outside it and none at its ends; it is empty exactly when the text is all whitespace |
| Text.IndexOf | src/components/VoiceTutor.tsx:128 | `indexOf` returns no index exactly when the character is absent, and otherwise returns the position of its first occurrence |
| Text.ConcatAppend | src/components/VoiceTutor.tsx:143 | accumulating the deltas of two runs one after the other gives the first run's text followed by the second's |
| Text.ConcatEmpty | src/components/VoiceTutor.tsx:162 | with no empty delta, the accumulated reply is empty only when no delta arrived, so the check `if (assistantSoFar)` means "some delta arrived" |
| Frames.CutLine | src/components/VoiceTutor.tsx:127-130 | a line is cut exactly when the buffer holds a newline; the line has no newline, and line + newline + new buffer is the old buffer |
| Frames.CutLineUnique | src/components/VoiceTutor.tsx:128-130 | any split of the buffer into a newline-free line, a newline and the rest is the one the cut finds |
| Frames.StripCR | src/components/VoiceTutor.tsx:132 | at most one carriage return is removed, and only from the end; it is removed exactly when the line ends in one |
| Frames.Classify | src/components/VoiceTutor.tsx:133-137 | a line is ignored exactly when it lacks the exact `"data: "` prefix (comment and blank lines included); it is the sentinel exactly when its trimmed payload is `[DONE]`; otherwise its payload is the trimmed text after the prefix |
| Frames.InterpretMeaning | src/components/VoiceTutor.tsx:133-153 | what a line does, read off the line: only `"data: "` lines act; the sentinel is recognised before any parse; a rejected payload is `Unparsable`; a delta is produced exactly for non-empty content, and it is that content |
| Frames.StripCRKeepsOutcome | src/components/VoiceTutor.tsx:132-136 | stripping the carriage return never changes what a line does, because `trim` removes it anyway |
| Decoder.Pass | src/components/VoiceTutor.tsx:128-158 | every emitted delta carries text; a pass that runs out of lines leaves only newline-free text in the buffer |
| Decoder.PassKeepsUnreadText | src/components/VoiceTutor.tsx:128-158 | only whole lines are consumed: a pass that is not stalled leaves its whole input or the text after one of its newlines, and only push-back mode stalls, leaving the rejected line first in the buffer |
| Decoder.PassLeavesWholeLines | src/components/VoiceTutor.tsx:128-137 | a pass that is not stalled stops at a line boundary: it leaves its whole input or the text after one of its newlines |
| Decoder.Step | src/components/VoiceTutor.tsx:122-158 | one chunk never revises the deltas already emitted, and every new delta carries text |
| Decoder.Feed | src/components/VoiceTutor.tsx:122-159 | the read loop from any state never revises the deltas already emitted, and every new delta carries text |
| Decoder.Run | src/components/VoiceTutor.tsx:117-159 | every delta of a response carries text |
| Decoder.FeedAppend | src/components/VoiceTutor.tsx:122-125 | reading chunks `a` and then `b` is reading `a + b`: the loop keeps no state besides the buffer and the deltas |
| Decoder.RunExtends | src/components/VoiceTutor.tsx:141-143 | the deltas after any number of chunks are a prefix of the deltas of the whole response, so the accumulated text only grows by appending |
| Decoder.SkippedLineEmitsNothing | src/components/VoiceTutor.tsx:133-134 | a comment line, a blank line or a line without the exact `"data: "` prefix is passed over with nothing emitted, in both modes |
| Decoder.DoneEndsOnlyThePass | src/components/VoiceTutor.tsx:136-137 | `[DONE]` ends only the current pass: nothing is emitted, the pass reports the sentinel, the text buffered after the line stays in the buffer untouched, and the deltas so far are kept |
| Decoder.BufferedLineReadNext | src/components/VoiceTutor.tsx:122-143 | a delta line left in the buffer (after `[DONE]`, say) is read by the next chunk's pass, whatever that chunk holds: its content is the first new delta |
| Decoder.DeltaLineEmitsFirst | src/components/VoiceTutor.tsx:128-143 | a pass over a buffer whose first line carries a delta emits that delta first |
| Decoder.RebufferPushesLineBack | src/components/VoiceTutor.tsx:154-157 | a rejected line goes back to the front of the buffer without its carriage return, followed by a newline and the unread rest, and the pass ends with nothing emitted |
| Decoder.DropForgetsLine | src/components/ParaphraseTools.tsx:84-86 | in drop mode a rejected line is consumed, and the pass goes on exactly as if that line had never been received |
| Decoder.PushedBackLineJams | src/components/VoiceTutor.tsx:155 | the pushed-back text again starts with the rejected line |
| Decoder.JammedPassStalls | src/components/VoiceTutor.tsx:154-157 | whatever chunk arrives, a pass over a jammed buffer stalls again with nothing emitted and leaves it jammed |
| Decoder.JammedPassStallsAt | src/components/VoiceTutor.tsx:154-157 | the same, for a buffer given as its rejected first line and the rest |
| Decoder.JammedFeedEmitsNothing | src/components/VoiceTutor.tsx:122-157 | once the buffer is jammed, no further chunks add a delta and the buffer stays jammed |
| Decoder.StallIsFinal | src/components/VoiceTutor.tsx:154-157 | once a response has jammed, its deltas are the ones read up to that point, whatever follows |
| ChunkBoundaries.Remainder | src/components/VoiceTutor.tsx:128-130 | the text a pass leaves behind is newline-free and is a suffix of the buffer that is either all of it or starts right after a newline, so it is exactly the text after the last newline |
| ChunkBoundaries.PassOnClean | src/components/VoiceTutor.tsx:128-158 | on text with no sentinel line (and in push-back mode no rejected line), one pass reads every complete line, emits exactly their deltas in order and leaves the unterminated tail |
| ChunkBoundaries.CutLineAppend | src/components/VoiceTutor.tsx:125-130 | appending a chunk does not change the first complete line of the buffer |
| ChunkBoundaries.RemainderAppend | src/components/VoiceTutor.tsx:125-130 | the unterminated tail after appending `t` is the tail of the old tail followed by `t` |
| ChunkBoundaries.ReferenceAppend | src/components/VoiceTutor.tsx:125-143 | the deltas of `s + t` are those of `s`, then those of the lines formed by the tail of `s` followed by `t` |
| ChunkBoundaries.CleanAppend | src/components/VoiceTutor.tsx:125-137 | `s + t` has no sentinel or rejected line exactly when `s` has none and neither do the lines formed by its tail followed by `t` |
| ChunkBoundaries.RunOnClean | src/components/VoiceTutor.tsx:122-158 | on a clean response, the state of the read loop is determined by the text read so far: the buffer is its unterminated tail and the deltas are those of its complete lines |
| ChunkBoundaries.SplitInvariance | src/components/VoiceTutor.tsx:122-158 | on a clean response, how the text is split into chunks changes neither the deltas nor the final buffer |
| ChunkBoundaries.TailNeverRead | src/components/VoiceTutor.tsx:125-158 | in any buffer, newline-free text at the end is never read: the pass emits and reports the same as without it, and the text is left after what the pass leaves |
| ChunkBoundaries.FinalTailNeverRead | src/components/VoiceTutor.tsx:122-130 | on any response, a final chunk without a newline, after which the reader reports done, adds exactly the deltas an empty chunk would add |
| ChunkBoundaries.UnterminatedTailIgnored | src/components/VoiceTutor.tsx:122-130 | on a response with no `[DONE]` line (and in push-back mode no rejected line), a final chunk without a newline adds no delta at all |
| FinishedResponse.PassToSentinel | src/components/VoiceTutor.tsx:128-143 | a pass over clean complete lines followed by the `[DONE]` line emits the deltas of those lines, stops on the sentinel and leaves exactly the text after it |
| FinishedResponse.PassSilent | src/components/VoiceTutor.tsx:128-158 | on text whose complete lines carry no delta, a pass emits nothing and what it leaves, with the text still to come, stays silent (a pushed-back line included) |
| FinishedResponse.FeedSilent | src/components/VoiceTutor.tsx:122-158 | after the sentinel line, chunks whose complete lines carry no delta add no delta |
| FinishedResponse.FinishedReply | src/components/VoiceTutor.tsx:122-158 | on a finished response (clean lines, `[DONE]`, then lines without a delta) the deltas are those of the lines before `[DONE]`, whatever the split into chunks and in either mode |
| FinishedResponse.FinishedSplitInvariance | src/components/VoiceTutor.tsx:122-158 | on a finished response, any split into chunks gives the deltas of receiving the body in one chunk |
| Transcript.TailUpdate | src/components/VoiceTutor.tsx:144-152 | every message but the last is unchanged; the list grows by at most one; it ends with an assistant message holding the reply so far; it grows exactly when the tail is not an assistant message or the list has at most one message, and then the old list is a prefix |
| Transcript.Absorb | src/components/VoiceTutor.tsx:142-152 | one delta is appended to the reply, and the transcript ends with the whole reply so far |
| Transcript.AbsorbAllText | src/components/VoiceTutor.tsx:141-143 | the accumulated reply is every delta, in order |
| Transcript.TailUpdateSupersedes | src/components/VoiceTutor.tsx:144-152 | on a non-empty transcript a later update overwrites an earlier one: applying two updates is applying the second |
| Transcript.EmptyTranscriptKeepsFirstReply | src/components/VoiceTutor.tsx:144-152 | because of the guard `prev.length > 1`, on an empty transcript a second delta appends a second assistant message instead of overwriting the first |
| Transcript.ReplyAppendsOneMessage | src/components/VoiceTutor.tsx:141-152 | answering a transcript that ends in the user's message adds exactly one assistant message, and it holds all the deltas in order |
| Gate.Admit | src/components/VoiceTutor.tsx:100-115 | the body is read exactly when the status is 2xx and a body exists; status 429 and status 402 each select their own notice, and other failures select none |
| Gate.NoticeMeansFailure | src/components/VoiceTutor.tsx:101-113 | a notice is shown exactly for statuses 429 and 402, whatever the body, and only with a failure |
| Chat.MessageText | src/components/VoiceTutor.tsx:168-169 | an explicit non-empty text is sent as given; otherwise the trimmed input is sent; nothing is sent exactly when there is no explicit text and the input is all whitespace |
| Chat.Send | src/components/VoiceTutor.tsx:167-177 | with nothing to send, nothing changes; otherwise the input is cleared, the request is the transcript plus the user's message, and the transcript afterwards starts with that request; a failure leaves exactly the request, speaks nothing, and is the only case with a notice |
| Chat.ReplyKeepsRequest | src/components/VoiceTutor.tsx:172-177 | folding the reply into the transcript never touches the request it answers |
| Chat.SendReply | src/components/VoiceTutor.tsx:141-164 | after a successful request the transcript is the request plus one assistant message holding every delta in order, and that text is spoken; with no delta nothing is added and nothing is spoken |
| Chat.SendCleanReply | src/components/VoiceTutor.tsx:117-177 | on a clean response, the assistant's message is the content of the complete lines of the whole body, however it was chunked |
| Chat.SendFinishedReply | src/components/VoiceTutor.tsx:117-177 | on a finished response, the assistant's message, spoken as well, is the content of the lines before `[DONE]`, or nothing is added when they carry no text, however the body was split |
| Chat.GreetingStays | src/components/VoiceTutor.tsx:15-21 | the first message typed into the opening panel follows the greeting, which stays first |
| Paraphrase.PromptRoundTrip | src/components/ParaphraseTools.tsx:45 | the typed text can be read back out of either tool's prompt, so different texts give different prompts |
| Paraphrase.AccumulateConcat | src/components/ParaphraseTools.tsx:80-82 | appending deltas one by one with `prev + content` gives the starting output followed by all the deltas, in order |
| Paraphrase.Submit | src/components/ParaphraseTools.tsx:19-88 | blank input sends nothing, shows the warning and leaves the output as it was; any other input sends the tool's prompt; a failed gate, with no status-specific notice, leaves the output empty |
| Paraphrase.SubmitShowsReply | src/components/ParaphraseTools.tsx:30-88 | after a successful request the output is every delta in order, and nothing of what was shown before |
| Paraphrase.SubmitCleanReply | src/components/ParaphraseTools.tsx:60-88 | on a response without a sentinel line, the output is the content of the complete lines of the whole body, however it was chunked; rejected lines contribute nothing |
| Paraphrase.SubmitFinishedReply | src/components/ParaphraseTools.tsx:60-88 | on a finished response, the output is the content of the lines before `[DONE]`, however the body was split |
| Paraphrase.ToolsDecodeAlike | src/components/ParaphraseTools.tsx:60-88 | records a modelling choice rather than a fact checked against both loops: the read loops at lines 60-88 and 142-170 differ only in the output setter, so the model shares one decoder, and with the same input and response both tools show the same output |
| Dashboard.DigitChar | src/components/ProgressDashboard.tsx:58 | each digit is printed as the character that denotes it |
| Dashboard.DecimalRoundTrip | src/components/ProgressDashboard.tsx:58 | a printed number reads back as itself |
| Dashboard.DecimalUnpadded | src/components/ProgressDashboard.tsx:58 | a template literal never pads: a numeral starts with `0` exactly when the number is zero |
| Dashboard.Split | src/components/ProgressDashboard.tsx:56-57 | minutes are below 60, and hours and minutes account for the seconds up to fewer than 60 dropped seconds |
| Dashboard.SplitUnique | src/components/ProgressDashboard.tsx:56-57 | those bounds single out the hours and minutes, so they are the floor divisions of the source |
| Dashboard.FormatTime | src/components/ProgressDashboard.tsx:55-59 | the label ends in `m` and has an hours part exactly when there is at least a whole hour |
| Dashboard.FormatRoundTrip | src/components/ProgressDashboard.tsx:55-59 | the label reads back as exactly the hours and minutes it was made from |
| Dashboard.StreakDivisor | src/components/ProgressDashboard.tsx:123 | the divisor is at least 1 and at least the longest streak, and it is one of the two, so the ratio is always defined |

## Left out

- `fetch`, `reader.read()` and `TextDecoder`: I/O and a library. Chunks are already-decoded strings, and a response is its status plus the chunks of its body.
- Errors thrown by the reader in the middle of a stream: they are not modelled, so partial output left behind by such an error is not covered.
- `JSON.parse` and the optional-chaining read of the content: foreign code, modelled as the parameter `parse`. Content that is present but not a string is out of scope; `Parsed` carries only string content.
- React `setState` batching, stale closures over `messages`, `isLoading`, scrolling and effects: UI scheduling. Each updater is applied in order, as a pure function.
- Speech synthesis, voice selection and the `voiceschanged` listener: a browser API. `Chat.Send` records only the text it would speak.
- The voice recorder and its placeholder message: browser API. A supplied text is modelled only as the optional `text` argument of `Chat.MessageText`.
- Toasts and console logging: `Outcome` records only which notice or error would be shown.
- The Supabase query that loads progress, and `src/pages/Index.tsx`: backend and layout.
- FinishedResponse.FinishedReply: the lines after `[DONE]` must carry no delta. A delta line after `[DONE]` is read only if another chunk arrives after it is buffered (`Decoder.BufferedLineReadNext`), so its fate depends on the split and no split-free reply exists to promise.
- Dashboard.FormatTime: seconds are a natural number. In the source, non-negative fractional seconds behave like their floor (90.5 prints "1m", as 90 does), and negative seconds print negative minutes (-30 prints "-1m"); neither is modelled. The model also takes seconds to be safe integers (below 2^53): above that the source's divisions round, and from 1e21 on the numbers print in exponent notation.
- Dashboard.StreakDivisor: only the divisor is modelled. The percentage it divides is floating point and is left out.
