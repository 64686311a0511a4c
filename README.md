# Gen-Z Conversational Bot — a Dafny model of its chat core

The system is a chat application. A React front end (frontend/src/App.jsx and
its pages) talks to a Flask back end (app.py), which forwards each message to a
language model primed with one of six personality presets (APIs/gemini_api.py).
The reply comes back as a Server-Sent-Events stream. Each event is a line
`data: {json}` followed by a blank line. The client reads the body in arbitrary
pieces and keeps a line buffer. It folds the records into the one bot message
that is still streaming.

The project models that core:

- `Text`: the JavaScript and Python string operations the code uses.
- `Json`: the JSON the two ends exchange. Encoding follows `json.dumps` with
  its default `ensure_ascii` escaping. Decoding follows `JSON.parse` for the
  layout `json.dumps` writes and refuses a raw control character inside a
  string, as `JSON.parse` does. The round trip is proved for every string.
- `Markdown`: `parseMarkdown`, the escaper and `**bold**`/`*italic*` rewriter
  applied to bot messages.
- `Personalities`: the instruction presets, the greeting table, the personality
  table and `get_personality_instruction`. The personality table names each
  instruction by a tag (`Preset`) and `InstructionText` maps a tag to its full
  text, so the lemmas about the tables never have to spell the long texts out.
- `Server`: the two chat endpoints of app.py. This covers request validation,
  the get-or-create of `chat_sessions` (a `class` with a `map` field) and the
  `generate()` loop (a method proved against a reference function `Emitted`).
- `Lines`: the reader's line buffer (`split('\n')` and `pop()`).
- `Reconciler`: the specification of how records rewrite the message list.
- `App`: the chat screen as a `class` whose fields are the React state. It
  covers `sendMessage` split into its steps (start, read loop, catch, finally), the two personality-change
  handlers, logout and the personality-fetch outcome. Its read loops are proved
  against `Reconciler`.
- `Protocol`: both ends together. However the server's frames are cut into
  reads, the client ends with the reply text, or with the error text, in the
  message that was streaming.
- `Chats`: the history page's mock list and its search filter.
- `Login`: the login form's submit handler and the user record it builds.

React's `setState` updaters are applied at the moment they are queued. A
network request, a model call, a clock reading or a timer firing becomes a
parameter of the method that would perform it.

Where the written description of the system and the code disagree, the model
follows the code:

- `handlePersonalityChange` (frontend/src/App.jsx:137-159) does not clear the
  loading flag. `App.ChatApp.ChangePersonality` leaves `isLoading` unchanged.
- A stream that ends without a completion or error record does not finalize the
  streaming message. It stays in progress; see `Protocol.EmptyBodyLeavesStreaming`.
- Every update goes to the first streaming bot message (`findIndex`). After a
  turn has left its bot message streaming, the next turn appends a new one, but
  that turn's reply, or its connection error, goes into the older message, and
  the new one stays empty and streaming. `Protocol.FullTurn` and
  `Protocol.RefusedTurn` state both cases. `Protocol.StaleBubbleTakesNextReply`
  shows the sequence of an empty body followed by a successful turn.
- A record with a non-empty chunk and `done` set finalizes the message with the
  accumulated text. When no other bot message is streaming, the chunk's own
  update already clears `isStreaming`, so `full_response` is never consulted
  (`Reconciler.ChunkAndDone`). When a second bot message streams after the
  first one, the chunk's update finalizes the first one, and the `done` update
  writes `full_response` (or the accumulated text) into the second
  (`Reconciler.ChunkAndDoneTwoStreaming`). This is the case of an earlier
  turn's message left streaming, in front of the new turn's message. The server
  never sends such a record: its completion record has an empty chunk.

## Model

| member | source | states |
|---|---|---|
| Text.TrimSpec | frontend/src/App.jsx:163-171 | `trim` yields a contiguous part of the input cut only at white space; the part neither starts nor ends with white space; it is empty exactly when the input is all white space |
| Text.TrimStartSpec | frontend/src/App.jsx:163 | the result is a suffix of the input, what is removed is white space, and the result does not start with white space |
| Text.TrimEndSpec | frontend/src/App.jsx:163 | the result is a prefix of the input, what is removed is white space, and the result does not end with white space |
| Text.IndexOf | frontend/src/pages/Chats.jsx:16-17 | for a pattern that `includes` finds, returns the leftmost position where the pattern occurs: it occurs there and at no earlier position |
| Text.ReplaceAllAbsent | frontend/src/App.jsx:14-16 | a global replace of a pattern that does not occur changes nothing |
| Text.ReplaceAllSkipsPrefix | frontend/src/App.jsx:14-16 | a prefix without the pattern's first character passes through a global replace untouched |
| Text.ReplaceCharDistributes | frontend/src/App.jsx:14-16 | a global replace of one character distributes over concatenation |
| Text.LowerKeepsContains | frontend/src/pages/Chats.jsx:16-17 | lower-casing both sides keeps an occurrence an occurrence |
| Text.ConcatAppend | app.py:74 | joining two lists of chunk texts equals joining each and concatenating |
| Text.NatToString | frontend/src/Login.jsx:28 | `Date.now().toString()` is a non-empty string of decimal digits |
| Text.NatToStringValue | frontend/src/Login.jsx:28 | the digits `toString()` writes spell the number, most significant first |
| Text.NatToStringInjective | frontend/src/Login.jsx:28 | different numbers print as different strings |
| Json.Get | frontend/src/App.jsx:230-276 | a field read finds nothing exactly when no member has that key, and yields the value of a member with that key otherwise |
| Json.ParseStringBody | frontend/src/App.jsx:228 | a successful string parse consumes input; every parse function below makes the same promise, which is their termination measure |
| Json.StringRoundTrip | frontend/src/App.jsx:228 | parsing an escaped string literal gives back the string and exactly the text after the closing quote, for every character: short escapes, `\uXXXX` escapes and surrogate pairs included |
| Json.CharRoundTrip | app.py:76-82 | each character `json.dumps` escapes (`\"`, `\\`, `\n`, `\r`, `\t`, `\b`, `\f`, printable ASCII as itself, `\uXXXX` for the rest of the Basic Multilingual Plane, a surrogate pair above it) is read back as that character |
| Json.HexRoundTrip | app.py:76-82 | the lower-case hexadecimal digits of a `\u` escape read back as the number they were written from |
| Json.ValueRoundTrip | frontend/src/App.jsx:228 | parsing an encoded string or boolean gives back the value and the rest |
| Json.MemberRoundTrip | frontend/src/App.jsx:228 | parsing an encoded `"key": value` member gives back the member and the rest |
| Json.MembersRoundTrip | frontend/src/App.jsx:228 | parsing encoded members up to the closing brace gives back every member in order |
| Json.DecodeEncode | app.py:76-82 | `JSON.parse` gives back exactly the object that `json.dumps` wrote |
| Json.EncodeNoNewline | app.py:76-82 | an encoded object holds no newline, so every record is one line of the stream |
| Markdown.EmptyMessage | frontend/src/App.jsx:11 | an empty message renders as the empty string |
| Markdown.EscapeHtmlIsPerCharacter | frontend/src/App.jsx:14-17 | the three chained replaces equal escaping each character once; the `&` of an entity is never escaped again |
| Markdown.CharEscape | frontend/src/App.jsx:14-17 | on one character, the chained replaces produce that character's entity |
| Markdown.EscapeEachAppend | frontend/src/App.jsx:14-17 | per-character escaping distributes over concatenation |
| Markdown.EscapeEachPlain | frontend/src/App.jsx:14-17 | text without `&`, `<` and `>` is unchanged by escaping |
| Markdown.EscapeEachAddsNoMarks | frontend/src/App.jsx:14-17 | escaping introduces no `*` and no `_`, and never shortens the text |
| Markdown.RunLength | frontend/src/App.jsx:24 | the `[^*]+?` part of the pattern: the longest leading run without `*`, stopped by a `*` when one follows |
| Markdown.RunLengthAppend | frontend/src/App.jsx:24 | a run without `*` extends the leading run by its length |
| Markdown.EmphasisSkipsPrefix | frontend/src/App.jsx:24-27 | either emphasis pass copies a prefix without `*` through unchanged |
| Markdown.EmphasisPlain | frontend/src/App.jsx:24-27 | either emphasis pass leaves text without `*` unchanged |
| Markdown.EmphasisToken | frontend/src/App.jsx:24-27 | an emphasis pass rewrites a delimited non-empty run without `*` into open and close tags and resumes after it |
| Markdown.BoldPassToken | frontend/src/App.jsx:24 | `**y**` becomes the bold placeholders around `y` |
| Markdown.BoldPassSingle | frontend/src/App.jsx:24 | the `**` pass, whatever tags it writes, leaves a singly delimited run alone |
| Markdown.BoldPassTriple | frontend/src/App.jsx:24 | on `***y***` the `**` pass, whatever tags it writes, consumes the inner `**` pairs and leaves one `*` on each side |
| Markdown.ItalicPassToken | frontend/src/App.jsx:27 | `*y*` becomes `<em>y</em>` |
| Markdown.RestoreWrapped | frontend/src/App.jsx:30-31 | when the run and the text around it hold no `_`, restoring turns the placeholders around the run into `<strong>` tags and leaves the surrounding text alone |
| Markdown.RestorePlain | frontend/src/App.jsx:30-31 | restoring leaves text without `_` unchanged |
| Markdown.OpenNotInClose | frontend/src/App.jsx:20-21 | the opening placeholder occurs neither inside the closing one nor across its end |
| Markdown.PlainTextUnchanged | frontend/src/App.jsx:10-34 | text without `*`, `&`, `<`, `>` and without a placeholder renders unchanged |
| Markdown.EscapeDelimited | frontend/src/App.jsx:14-17 | escaping a run between `*` delimiters escapes the run and keeps the delimiters |
| Markdown.BoldOfEscaped | frontend/src/App.jsx:10-34 | text that escapes to `**y**`, with `y` free of `*` and `_`, renders as `<strong>y</strong>` |
| Markdown.BoldText | frontend/src/App.jsx:10-34 | `**x**` renders as `<strong>` around the escaped `x` |
| Markdown.ItalicText | frontend/src/App.jsx:10-34 | `*x*` renders as `<em>` around the escaped `x` |
| Markdown.BoldItalicOfEscaped | frontend/src/App.jsx:10-34 | text that escapes to `***y***`, with `y` free of `*` and `_`, renders as `<em><strong>y</strong></em>` |
| Markdown.BoldBeforeItalic | frontend/src/App.jsx:10-34 | `***x***` renders as `<em><strong>x</strong></em>`: bold is resolved before italic |
| Markdown.PlaceholderCollision | frontend/src/App.jsx:19-31 | `**a___BOLD_OPEN**` renders as `<strong>a<strong>BOLD_CLOSE___`, not as `<strong>` around the escaped text: a `_` in the text completes a second opening placeholder and the closing one is lost |
| Markdown.CollisionRestore | frontend/src/App.jsx:30-31 | the restoring replaces turn an opening placeholder, one character and the text's own `___BOLD_OPEN` followed by the first underscores of the closing placeholder into two `<strong>` tags, and leave the rest of the closing placeholder |
| Markdown.IntendedBoldText | frontend/src/App.jsx:10-34 | in the rendering that writes the tags in the bold pass, `**x**` becomes `<strong>` around the escaped `x` for every `x` without `*`, `_` included |
| Markdown.IntendedItalicText | frontend/src/App.jsx:10-34 | in that rendering `*x*` becomes `<em>` around the escaped `x` for every `x` without `*` |
| Markdown.IntendedBoldBeforeItalic | frontend/src/App.jsx:10-34 | in that rendering `***x***` becomes `<em><strong>x</strong></em>` for every `x` without `*`: the tags hold no `*`, so the italic pass leaves them alone |
| Markdown.IntendedBoldOfEscaped | frontend/src/App.jsx:10-34 | in that rendering text that escapes to `**y**` becomes `<strong>y</strong>` |
| Markdown.IntendedItalicOfEscaped | frontend/src/App.jsx:10-34 | in that rendering text that escapes to `*y*` becomes `<em>y</em>` |
| Markdown.IntendedBoldItalicOfEscaped | frontend/src/App.jsx:10-34 | in that rendering text that escapes to `***y***` becomes `<em><strong>y</strong></em>` |
| Personalities.PresetFor | APIs/gemini_api.py:217-219 | a known key yields its table entry's instruction; any other key yields the default entry's instruction, the general Gen-Z one, and the lookup never fails |
| Personalities.DefaultIsSystemInstruction | APIs/gemini_api.py:183-188 | the default entry holds the general Gen-Z instruction (`SYSTEM_INSTRUCTION`), and its greeting is the greeting table's default one |
| Personalities.TablesShareKeys | APIs/gemini_api.py:173-214 | the greeting table and the personality table have the same six keys, `default` among them |
| Personalities.GreetingsAgree | APIs/gemini_api.py:183-214 | every personality's greeting is the one the greeting table holds for its key |
| Server.Frames | app.py:76-82 | one `data: ` frame per record, in order |
| Server.NonEmpty | app.py:73 | the kept chunk texts are all non-empty and no more than the chunks yielded |
| Server.NonEmptyConcat | app.py:73-74 | skipping the empty chunk texts does not change the text they form |
| Server.ChunkPayloads | app.py:76 | one chunk record per kept chunk text, in order |
| Server.Generate | app.py:68-82 | `generate()` yields exactly the frames of the reference records: a chunk record per non-empty chunk text, then the completion record with `full_response` or the error record |
| Server.SuccessEndsWithFullResponse | app.py:79 | on success the last record is `{chunk: '', done: true, full_response}` and its `full_response` is all the text yielded |
| Server.FailureEndsWithOneError | app.py:80-82 | on failure exactly one record carries `error`, and it is the last |
| Server.FrameIsDataLine | app.py:76-82 | a frame is one newline-free data line and a blank line; the client reads its payload back unchanged |
| Server.SessionKey | app.py:17 | a missing `session_id` becomes `'default'`, a present one is used as given |
| Server.Validate | app.py:14-20 | acceptance exactly when a body is present and its `message` is truthy; no body gives 500, a falsy message gives 400 `Message is required`; an accepted request yields the session key |
| Server.EmptyMessageRefused | app.py:19-20 | a missing or empty `message` is refused with 400 whatever else the body holds |
| Server.ChatServer.constructor | app.py:10 | the session table starts empty |
| Server.ChatServer.GetOrCreate | app.py:23-29 | a known key keeps its chat; a new key gains exactly one entry; a raising `start_chat` leaves the table as it was |
| Server.ChatServer.ChatStream | app.py:46-99 | a refused request changes nothing; otherwise the table is updated by get-or-create, and the answer is the event stream of `generate()` or the 500 reply of the exception raised |
| Server.ChatServer.Chat | app.py:12-44 | the same validation and get-or-create, then 200 with the whole reply text and the session id, or 500 with the exception text |
| Server.AsWrittenNewSessionFails | app.py:23-29 | with `model` the string of APIs/gemini_api.py:23, both endpoints answer a valid request for a new session with the 500 reply of the raised error and store nothing |
| Server.AsWrittenServesNothing | app.py:12-99 | starting from the empty table, every request in any sequence, to `/api/chat` or `/api/chat/stream`, is answered 400 or 500: no session is ever created, so no reply is ever sent |
| Lines.Split | frontend/src/App.jsx:222 | `split('\n')` yields at least one piece, and no piece holds a newline |
| Lines.JoinSplit | frontend/src/App.jsx:222 | joining the pieces with newlines gives back the text |
| Lines.SplitUnique | frontend/src/App.jsx:222 | the pieces are the only newline-free list that joins to the text |
| Lines.SplitNoNewline | frontend/src/App.jsx:222 | text without a newline splits into itself |
| Lines.LinesAndRest | frontend/src/App.jsx:221-223 | the complete lines, each with its newline, then the kept piece give back the buffer; the kept piece has no newline |
| Lines.LinesUnique | frontend/src/App.jsx:221-223 | that decomposition is unique: the kept piece is the text after the last newline |
| Lines.LinesOfTwoReads | frontend/src/App.jsx:216-223 | two reads take out the same lines as one read of both |
| Lines.NoLineWithoutNewline | frontend/src/App.jsx:221-223 | text without a newline completes no line and is kept whole |
| Reconciler.FirstStreaming | frontend/src/App.jsx:233 | `findIndex`: the first streaming bot message, or none exactly when none streams |
| Reconciler.RewriteFrame | frontend/src/App.jsx:232-242 | an update replaces the first streaming bot message and nothing else; the length is kept |
| Reconciler.RewriteKeepsStreaming | frontend/src/App.jsx:248-259 | replacing it with a message that still streams keeps it the first streaming one |
| Reconciler.FirstStreamingAt | frontend/src/App.jsx:233 | a streaming message with none streaming before it is the one `findIndex` returns |
| Reconciler.InertLine | frontend/src/App.jsx:226-279 | a line that is not a `data: ` line, or whose payload does not parse, changes nothing |
| Reconciler.StopIffError | frontend/src/App.jsx:230-244 | a line ends the read's loop exactly when its record has a truthy `error` |
| Reconciler.ErrorRecord | frontend/src/App.jsx:230-244 | an error record finalizes the first streaming message with `Error: ` and the error text, whatever else it holds, changes no other message, keeps the accumulated text and stops the read |
| Reconciler.ChunkAccumulates | frontend/src/App.jsx:246-261 | a truthy chunk is appended to the accumulated text; otherwise that text stays |
| Reconciler.DoneRecord | frontend/src/App.jsx:263-276 | a `done` record without chunk finalizes with `full_response` when truthy, with the accumulated text otherwise |
| Reconciler.ChunkAndDone | frontend/src/App.jsx:246-276 | with one streaming message, a record with chunk and `done` finalizes it with the accumulated text and ignores `full_response` |
| Reconciler.ChunkAndDoneTwoStreaming | frontend/src/App.jsx:246-276 | with a second streaming message, the chunk finalizes the first and the `done` update writes `full_response` (or the accumulated text) into the second |
| Reconciler.FrozenAfterFinal | frontend/src/App.jsx:232-275 | once no bot message streams, later lines change no message |
| Reconciler.ErrorDropsRestOfRead | frontend/src/App.jsx:225-244 | an error line ends the read; the lines after it in that read are dropped |
| Reconciler.ProcessLinesNoStop | frontend/src/App.jsx:225-281 | without an error line every line of the read is applied |
| Reconciler.FoldInertLines | frontend/src/App.jsx:226-279 | skipped lines leave the state as it is |
| Reconciler.ProcessLinesIsFold | frontend/src/App.jsx:225-281 | when only skipped lines follow an error line, the `break` loses nothing |
| Reconciler.FoldLinesAppend | frontend/src/App.jsx:216-281 | folding two runs of lines equals folding them one after the other |
| Reconciler.ReadsAsOneStream | frontend/src/App.jsx:216-282 | when only skipped lines follow an error line, the reads fold all complete lines of the text received, however it is cut |
| Reconciler.RecordSplitAcrossReads | frontend/src/App.jsx:216-282 | a record split across two reads is handled once, as the whole line |
| Reconciler.ErrorKeepsReading | frontend/src/App.jsx:243-244 | after an error record the rest of that read is skipped, but the next read is still handled |
| Reconciler.TrailingPartialIgnored | frontend/src/App.jsx:218-223 | a last read with no newline completes no line and changes nothing |
| Reconciler.StepAccumulates | frontend/src/App.jsx:246-247 | one line adds its chunk text to the accumulated text |
| Reconciler.AccumulatesInOrder | frontend/src/App.jsx:246-247 | the accumulated text is the chunk texts of the lines in the order they arrive |
| App.FindPersonality | frontend/src/App.jsx:47 | `find` by key: the first entry with that key, or none exactly when no entry has it |
| App.GreetingFor | frontend/src/App.jsx:46-49 | the found entry's greeting when it has one, the fixed default greeting otherwise; never empty |
| App.FallbackGreetingIsServerDefault | frontend/src/App.jsx:48 | the client's fallback greeting is the server table's default greeting |
| App.FallbackListGreets | frontend/src/App.jsx:92-100 | with the fallback list every key greets with the default greeting |
| App.AppendedStreaming | frontend/src/App.jsx:176-192 | starting a turn appends the user text and a new empty bot message; from a list with no streaming message the new one becomes the message records update, from a list that still has one the older one stays it; when the same user text is last, nothing is appended |
| App.SessionNameInjective | frontend/src/App.jsx:145 | different session numbers give different `session_id` strings, so a new number is a new key for the server |
| App.ChatApp.constructor | frontend/src/App.jsx:38-60 | the initial state: the saved user, no messages, empty input, not loading, personality `default`, the session stamp |
| App.ChatApp.BeginTurn | frontend/src/App.jsx:161-205 | blank input or a running turn changes nothing; otherwise the input is cleared, loading is on, the messages are appended and the request body is built |
| App.ChatApp.HandleRecord | frontend/src/App.jsx:228-276 | the three `if`s of a record, as the reference `ApplyRecord` states them |
| App.ChatApp.TakeLines | frontend/src/App.jsx:221-223 | the text joins the buffer; the complete lines come out and the text after the last newline stays |
| App.ChatApp.HandleLines | frontend/src/App.jsx:225-281 | the loop over one read's lines equals the reference `ProcessLines`, `break` included |
| App.ChatApp.ConsumeRead | frontend/src/App.jsx:216-282 | one read: the buffer is always the text after the last newline received, and the lines handled are all complete lines, in order |
| App.ChatApp.FailTransport | frontend/src/App.jsx:283-295 | the `catch` puts the connection error into the streaming message |
| App.ChatApp.EndTurn | frontend/src/App.jsx:296-299 | the `finally` clears the loading flag |
| App.ChatApp.ReadAll | frontend/src/App.jsx:216-282 | the read loop leaves the list and the accumulated text that `ProcessReads` gives for the reads, keeping the line buffer's invariant; the text received grows by the reads joined |
| App.ChatApp.RunTurn | frontend/src/App.jsx:206-295 | the `try` and `catch` of a started turn leave the list `TurnMessages` describes for the transport outcome, and the text received is the reads joined |
| App.ChatApp.SendMessage | frontend/src/App.jsx:161-300 | a refused submit changes nothing, the turn's buffers included; otherwise the whole turn leaves the list `TurnMessages` describes for the transport outcome, with loading off and the line buffer's invariant kept |
| App.ChatApp.ChangePersonality | frontend/src/App.jsx:137-159 | the current key changes nothing; another key is selected, starts a new session and leaves only its greeting; loading is untouched |
| App.ChatApp.SelectMode | frontend/src/App.jsx:443-458 | the same reset for any key, the current one included |
| App.ChatApp.Logout | frontend/src/App.jsx:306-311 | no user and no messages |
| App.ChatApp.LoadPersonalities | frontend/src/App.jsx:63-108 | a failed fetch installs the fallback list; a non-empty list keeps a listed selection, selects the first key otherwise, and shows that entry's greeting |
| Protocol.DataLines | app.py:76-82 | the lines of a stream of frames: two per record |
| Protocol.StreamLines | frontend/src/App.jsx:221-223 | the reader takes out exactly each record's data line and a blank line, and the buffer ends empty |
| Protocol.DataLineStep | frontend/src/App.jsx:226-228 | a data line always parses, and stops a read exactly when its record has a truthy `error` |
| Protocol.FoldDataLines | frontend/src/App.jsx:225-281 | folding the lines of the frames equals folding the records |
| Protocol.NoErrorBeforeLast | app.py:72-82 | no record before a reply's last has an `error` field |
| Protocol.ReplyStopsLast | app.py:72-82 | only the last data line of a reply can stop a read |
| Protocol.AnyReadsFoldRecords | frontend/src/App.jsx:216-282 | however the body is cut into reads, the reader folds the reply's records in order |
| Protocol.ChunkRecords | frontend/src/App.jsx:246-261 | the chunk records stream their text into the streaming message and touch nothing else |
| Protocol.DoneFinalizes | frontend/src/App.jsx:263-276 | the completion record finalizes the streaming message with `full_response` |
| Protocol.ErrorFinalizes | frontend/src/App.jsx:230-244 | the error record finalizes with `Error: ` and the text; an empty text is falsy and `done` finalizes with the streamed text |
| Protocol.SuccessfulReply | frontend/src/App.jsx:216-282 | a successful reply, in any reads, leaves the streaming message with the whole reply text, no longer streaming, and the others unchanged |
| Protocol.FailedReply | frontend/src/App.jsx:216-282 | a failing reply, in any reads, leaves `Error: ` and the error text, or the streamed text when the error text is empty |
| Protocol.FullTurn | frontend/src/App.jsx:161-300 | from a list with no streaming message, a turn against a succeeding server adds the user text and the bot reply, with nothing left streaming; from a list that still has one, the reply goes into that older message and the new bot message stays empty and streaming |
| Protocol.RefusedTurn | frontend/src/App.jsx:207-209 | from a list with no streaming message, a refused request or an error status adds the user text and the connection error; from a list that still has one, the connection error goes into that older message and the new one stays empty and streaming |
| Protocol.EmptyBodyLeavesStreaming | frontend/src/App.jsx:216-299 | from a list with no streaming message, a body that ends before any record leaves the new bot message empty and still streaming |
| Protocol.StaleBubbleTakesNextReply | frontend/src/App.jsx:161-300 | after a turn whose body ends before any record, the next successful turn writes its reply into the earlier bot message and leaves its own empty and streaming |
| Protocol.AsWrittenTurnFails | frontend/src/App.jsx:207-209 | whatever transport delivers the as-written server's 500 reply, the turn ends as a refused one: with the user text and the connection error from a list with no streaming message, with the connection error in the older streaming message otherwise |
| Protocol.AsWrittenTurn | app.py:58-59 | the request the client posts for a new session is answered by the as-written server with a non-`ok` 500 reply, the table is unchanged, and however that reply is delivered the connection error goes into the first streaming message, as for a refused turn |
| Protocol.NothingStreams | frontend/src/App.jsx:176-192 | from a list with no streaming message, once the new bot message is replaced by a finalized one, the list is the old list, the user message and that reply, and no message streams |
| Protocol.RequestAccepted | frontend/src/App.jsx:200-204 | the body the client posts for non-blank input passes the server's validation under its own session id |
| Chats.Filter | frontend/src/pages/Chats.jsx:15-18 | the filtered list is no longer than the list |
| Chats.ListView | frontend/src/pages/Chats.jsx:47-53 | the list area shows the filtered chats, which are then non-empty, or the notice |
| Chats.ContainsEmpty | frontend/src/pages/Chats.jsx:16-17 | `includes('')` holds for every string |
| Chats.EmptyQueryKeepsAll | frontend/src/pages/Chats.jsx:15-18 | an empty search keeps every chat |
| Chats.FilterIsSubsequence | frontend/src/pages/Chats.jsx:15-18 | the filtered list keeps chats in their order and adds none |
| Chats.FilterMembership | frontend/src/pages/Chats.jsx:15-18 | a chat is kept exactly when it is listed and matches in title or last message |
| Chats.CaseInsensitive | frontend/src/pages/Chats.jsx:16-17 | queries that lower-case alike give the same list |
| Chats.LowerQuerySameResult | frontend/src/pages/Chats.jsx:16-17 | a query and its lower-cased form give the same list |
| Chats.MatchesNarrowing | frontend/src/pages/Chats.jsx:16-17 | a chat matching a longer query matches any query inside it |
| Chats.Narrowing | frontend/src/pages/Chats.jsx:15-18 | typing more narrows the list |
| Chats.NoChatsFoundIff | frontend/src/pages/Chats.jsx:47-51 | "No chats found" is shown exactly when no chat of the history matches |
| Chats.EmptySearchShowsHistory | frontend/src/pages/Chats.jsx:8-13 | an empty search shows the whole mock history |
| Login.NameOf | frontend/src/Login.jsx:27 | `email.split('@')[0]`: a prefix of the email without `@`, the whole email or the text up to its first `@` |
| Login.NameWithoutAt | frontend/src/Login.jsx:27 | an email without `@` is its own name |
| Login.NameOfAddress | frontend/src/Login.jsx:27 | the name of `local@domain` is `local` |
| Login.MakeUser | frontend/src/Login.jsx:25-29 | the user keeps the email, takes the name as above and the stamp's digits as id |
| Login.SubmitError | frontend/src/Login.jsx:14-17 | the error is reported exactly when a field is empty, and it is `Please fill in all fields` |
| Login.LoginForm.constructor | frontend/src/Login.jsx:5-8 | empty fields, no error, not loading |
| Login.LoginForm.HandleSubmit | frontend/src/Login.jsx:10-20 | the error is cleared; an empty field reports the error with no loading and no login; otherwise loading starts and the email is handed to the timer |
| Login.LoginForm.FinishLogin | frontend/src/Login.jsx:22-33 | the timer builds the user from the captured email and the stamp, and loading ends |

## Left out

- Json: only string and boolean values and only the layout `json.dumps` writes by default. `Decode` does not read the other white space, numbers, arrays or nested objects that `JSON.parse` accepts; none occur in the exchanged records. A `\u` escape of a lone surrogate, which `JSON.parse` turns into a lone UTF-16 code unit, is refused, because a Dafny `char` is a Unicode scalar value; `json.dumps` writes a surrogate only as half of a pair.
- Json.Get: a key given twice yields its last value, the JavaScript rule. The Python side never reads duplicated keys.
- Text.ToLower: lower-cases the ASCII letters only; Unicode case mapping is not modelled.
- Text.TrimSpec: the white-space set is the ECMAScript one; Python's `str.strip` is not used by the core.
- Markdown.BoldText: requires `x` to hold no `_` as well as no `*`. With a `_` the property is false for `parseMarkdown` as written: `**a___BOLD_OPEN**` renders as `<strong>a<strong>BOLD_CLOSE___` (`Markdown.PlaceholderCollision`, listed under Findings). The `_`-free form holds for every `x` in the corrected rendering (`Markdown.IntendedBoldText`).
- Markdown.ItalicText: the same extra `_`-free requirement as `Markdown.BoldText`; `Markdown.IntendedItalicText` drops it for the corrected rendering.
- Markdown.BoldBeforeItalic: the same extra `_`-free requirement as `Markdown.BoldText`; `Markdown.IntendedBoldBeforeItalic` drops it for the corrected rendering.
- Markdown.RestoreWrapped: requires the run and the text around it to hold no `_`, for the reason given under `Markdown.BoldText`.
- Markdown.BoldOfEscaped: requires the escaped run to hold no `_`, for the same reason.
- Markdown.BoldItalicOfEscaped: requires the escaped run to hold no `_`, for the same reason.
- Protocol.NothingStreams: stated only for a list with no streaming message; with an older streaming message the new one is not the one replaced, and `Protocol.FullTurn` and `Protocol.RefusedTurn` state that case.
- Protocol.EmptyBodyLeavesStreaming: stated only for a list with no streaming message; from a list that has one, an empty body leaves both messages streaming, the older one still first.
- Markdown regular expressions: each global replace is modelled as a leftmost, non-overlapping scan that resumes after a match. This is the behaviour of the lazy `[^*]+?` patterns, not a general regular-expression engine.
- Rendering: JSX layout, `dangerouslySetInnerHTML`, focus, scrolling, the emoji picker, the sidebar and page switching (`currentPage`, `sidebarOpen`) are UI and are not modelled.
- Time: message timestamps are not modelled. `Date.now()` is a `nat` parameter, the session counter of `App.ChatApp` (incremented where a new stamp is taken), and the `MakeUser` stamp. The one-second `setTimeout` delay is not modelled: the timer is `FinishLogin`.
- Storage: `localStorage` reads and writes are out of the model. The saved user is a constructor parameter and `Logout` does not touch storage.
- Concurrency: React batching and the asynchronous interleaving of `await` points with other events are not modelled. Updaters are applied as they are queued, and a turn runs as one method.
- Decoder: `TextDecoder` is not modelled; the reads are already-decoded text.
- Fetch effect: the personality fetch (frontend/src/App.jsx:63-108) re-runs whenever `user` or `selectedPersonality` changes. The model has one `LoadPersonalities` call per outcome and no effect scheduling. `personalitiesLoading` is not modelled.
- Personality endpoint: app.py defines no `/api/personalities` route, so no server member produces the list the client fetches. `LoadPersonalities` takes the outcome as a parameter.
- Personality field: app.py never reads the `personality` field the client posts, and always primes a session with `SYSTEM_INSTRUCTION`. The model does the same: `Personalities.PresetFor` and `Personalities.InstructionFor` are modelled but not called by `Server`.
- Language model: the model library is abstracted as `Server.Backend` (how `start_chat` ends, whether priming succeeds) and `Server.Reply` (the chunk texts and a possible exception). A `chunk.text` of `None` is modelled as the empty text.
- Error details: the traceback text under `details` in the 500 replies is not modelled, and neither are the `print` calls.
- Server.Validate: a missing body is modelled as `data` being `None`, with the `AttributeError` text. Newer Flask versions raise an HTTP error from `request.json` instead; the message differs, but that is also caught and answered with 500.
- Health and root routes (app.py:101-107) are constant answers outside the chat core.

## Findings

| source | as written | input that shows it | evidently intended | confidence | as-written member | corrected member |
|---|---|---|---|---|---|---|
| app.py:24 and app.py:59, with APIs/gemini_api.py:23 | `model.start_chat()` is called on `model`, which APIs/gemini_api.py:23 binds to the string `"openai/gpt-oss-20b"` | any request to `/api/chat` or `/api/chat/stream` with a `message` and a `session_id` not yet in the table: `start_chat` raises `AttributeError`, the client gets 500, nothing is stored, and the chat shows the connection error | `model` is a chat-capable model object, so a new session is created, primed and stored | not executed | Server.AsWrittenNewSessionFails, Server.AsWrittenServesNothing, Protocol.AsWrittenTurn, Protocol.AsWrittenTurnFails | Server.ChatServer.ChatStream and Server.ChatServer.GetOrCreate with a backend whose `startError` is `None`, and Protocol.FullTurn |
| frontend/src/App.jsx:19-31 | the bold pass writes the placeholders `___BOLD_OPEN___` and `___BOLD_CLOSE___` into the text, and the restoring replaces run over the whole text, so underscores in a message can join them | the message `**a___BOLD_OPEN**`: the text's `___BOLD_OPEN` and the first three underscores of the closing placeholder form a second opening one, and the result is `<strong>a<strong>BOLD_CLOSE___` with no closing tag | bold text renders as `<strong>` around the escaped text whatever characters it holds, for instance by writing the tags in the bold pass, since they hold no `*` | not executed | Markdown.PlaceholderCollision, with Markdown.ParseMarkdown | Markdown.ParseMarkdownIntended, with Markdown.IntendedBoldText, Markdown.IntendedItalicText and Markdown.IntendedBoldBeforeItalic |
