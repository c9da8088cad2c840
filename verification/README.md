# Black-bird core, modelled in Dafny

Black-bird is a desktop IDE with a local AI assistant. This project models the parts of it that hold decisions rather than plumbing. The file system, the vector store, the model server, HTTP transport, base64 and JSON parsing all become inputs or oracles.

- **The workspace indexer** (`FileFilter`, `Chunking`, `Processing`, `Tally`).
  - Discovery is a top-down walk. It prunes excluded directory names, rejects blacklisted extensions before consulting the whitelist, and admits four special names.
  - Each file is fingerprinted by its `"<mtime>_<size>"` hash and skipped on a cache hit.
  - Otherwise a non-blank file is cut into 2000-character chunks. The chunks are stored as `path_i` one by one until the store first rejects one.
  - The per-file results are tallied into three counters. The cache is updated for indexed files only.
- **The backend endpoints** (`Auth`, `Routes`, over `Http` and `JsonValue`).
  - Bearer-token extraction, then the auth service, then the JWT-payload fallback.
  - `/ai/status`, `/ai/models` and `/ai/chat`. For chat this covers the augmented prompt, the `generate` request, the reply text for each upstream outcome, and the history row.
- **The frontend client** (`Client`). Three calls never raise and collapse every failure to `offline`, `[]` or `null`, plus the credential headers.
- **The chat panel** (`ChatPanel`). An event-driven state machine covering the load effect, typing, send, reply, the stop button and model choice.
- **The session gate** (`SessionGate`). A loading screen, then the sign-in screen or the IDE.
- **End to end** (`EndToEnd`). Lemmas that compose client, backend and panel: what the user sees for each upstream outcome.

Python and JavaScript builtins the code relies on are written out in `Text`:
- `str.strip` and `String.prototype.trim`, each with its own whitespace set;
- `str.lower` on file names, `str.rfind`, `str.split`/`join` and `str.replace(p, "")`;
- decimal formatting of integers.

`pathlib.PurePath.suffix` follows the rule of Python 3.12: the text from the last dot on, when that dot is neither the first nor the last character.

## Model

| member | source | states |
|---|---|---|
| Text.Trim | backend/core/indexer.py:124 | stripping yields nothing iff the text is all whitespace; otherwise the result neither starts nor ends with whitespace |
| Text.TrimIsSlice | backend/core/main.py:87 | the stripped text is a slice of the original with only whitespace before and after it |
| Text.Split | backend/core/main.py:71 | splitting on a character gives one more part than there are separators, and no part holds the separator |
| Text.JoinSplit | backend/core/main.py:71 | joining the parts with the separator gives back the original string |
| Text.Lower | backend/core/indexer.py:84-88 | the lower-cased name has the same length and no ASCII capital letter; only A-Z and the Kelvin sign change |
| Text.RemoveAll | backend/core/main.py:87 | removing every `"Bearer "` never lengthens the header |
| Text.RemoveAllAbsent | backend/core/main.py:87 | removing every `"Bearer "` from a string that holds none leaves it unchanged |
| Text.RemoveAllShrinks | backend/core/main.py:87 | a string that holds `"Bearer "` loses at least its length; with `RemoveAllAbsent`, removal changes a string iff it holds the pattern |
| Text.RemoveAllLeading | backend/core/main.py:87 | a leading `"Bearer "` is removed and the scan goes on after it |
| Text.RemoveAllKeeps | backend/core/main.py:87 | a character where no `"Bearer "` starts is kept and the scan moves on by one; with the leading case and the empty string this fixes `replace` as one left-to-right pass, so a `"Bearer "` that only forms once an occurrence is cut out stays |
| Text.TrimAppendSpace | src/services/ai.ts:12 | trailing whitespace appended to a string does not change its trim |
| Text.TrimAfterTrimEnd | backend/core/main.py:87 | `strip()` after the header value's trailing HTTP whitespace was already removed gives the same token |
| Text.TrimWordSpaceTail | src/services/ai.ts:12 | a word, a space and a tail trim to the word when the tail is blank, and otherwise keep the tail without its trailing whitespace |
| Text.DecimalRoundTrip | backend/core/indexer.py:72 | the decimal text of a size reads back to the same number |
| Text.NatToStringInjective | backend/core/indexer.py:104 | distinct numbers have distinct decimal texts |
| FileFilter.Suffix | backend/core/indexer.py:83-84 | the suffix is non-empty iff the name has a dot after its first character and before its last that no later dot follows; then it is the tail from that dot, with no other dot, shorter than the name |
| FileFilter.LowerSuffix | backend/core/indexer.py:84 | lower-casing then taking the suffix equals taking the suffix then lower-casing |
| FileFilter.SpecialNamesHaveNoSuffix | backend/core/indexer.py:88 | `.env`, `.gitignore`, `dockerfile` and `makefile` have an empty suffix |
| FileFilter.BlacklistOrderIrrelevant | backend/core/indexer.py:84-89 | a file is selected iff its lower-cased suffix is whitelisted or its lower-cased name is special; the blacklist, checked first, never overrides either |
| FileFilter.Selected | backend/core/indexer.py:84-89 | a file is kept only if its lower-cased suffix is whitelisted or its lower-cased name is special; either of those keeps it; a blacklisted suffix drops it |
| FileFilter.SelectFiles | backend/core/indexer.py:82-89 | a directory contributes exactly its own files that pass the selection rule |
| FileFilter.WalkExact | backend/core/indexer.py:79-89 | a file is listed iff it is in the tree, no directory on its path has an excluded name, and it passes the selection rule; nothing beneath a pruned directory is listed |
| FileFilter.WalkExactNested | backend/core/indexer.py:79-80 | a file below a subdirectory is listed iff it lies in the tree under no excluded name and passes the selection rule |
| FileFilter.Walk | backend/core/indexer.py:79-89 | a directory's own selected files are listed, among those of its subtrees |
| FileFilter.GetFiles | backend/core/indexer.py:76-90 | one path per listed file, in walk order |
| FileFilter.GetFilesExact | backend/core/indexer.py:76-90 | every reported path is that of a selected file under no excluded directory, and every such file's path is reported |
| Chunking.Chunks | backend/core/indexer.py:127-128 | the number of chunks is the ceiling of length/2000; each chunk is non-empty and at most 2000 characters; all but the last are exactly 2000 |
| Chunking.ChunksUnfold | backend/core/indexer.py:128 | content longer than 2000 characters chunks as its first 2000 characters followed by the chunks of the rest |
| Chunking.ChunksConcat | backend/core/indexer.py:128 | the chunks joined with no separator give back the content exactly |
| Processing.FileHash | backend/core/indexer.py:68-74 | the hash is empty iff `os.stat` failed |
| Processing.FileHashInjective | backend/core/indexer.py:72 | equal hashes mean equal modification time and size, so a change of either defeats the cache |
| Processing.ReadFile | backend/core/indexer.py:92-101 | an unreadable or undecodable file reads as the empty string |
| Processing.ChunkIdsDistinct | backend/core/indexer.py:104 | the chunk ids `path_i` of one file are pairwise distinct |
| Processing.Records | backend/core/indexer.py:103-110 | one upsert record per chunk |
| Processing.RecordsFaithful | backend/core/indexer.py:103-110 | record `i` has id `path_i`, metadata path and index `i`, and chunk `i` as its document; the documents concatenate back to the content |
| Processing.UpsertChunks | backend/core/indexer.py:129-134 | all chunks are stored iff the store accepts every one; otherwise the run stops at the first rejected chunk, after accepted ones |
| Processing.AttemptedPrefix | backend/core/indexer.py:131-134 | the upserts issued are all records, or a prefix ending in the first rejected one |
| Processing.StoreChunks | backend/core/indexer.py:127-138 | `indexed` iff the store accepts every chunk record, all of them issued; otherwise `error`, with the issued records a prefix ending in the first rejected one |
| Processing.ProcessFile | backend/core/indexer.py:115-138 | skipped iff the cache holds the current hash, with no read or upsert; `error_or_empty` iff the content is blank or unreadable, with no upsert; otherwise the chunks are stored as above; the hash is reported in every case |
| Tally.TallyResults | backend/core/indexer.py:156-169 | the three counters sum to the number of results and each counts the results charged to it; the cache changes only through `indexed` results |
| Tally.CountPermutation | backend/core/indexer.py:156 | the counters do not depend on the order in which results complete |
| Tally.CacheKeysAndUntouched | backend/core/indexer.py:160-162 | the cache afterwards holds the old keys plus the indexed paths, and every other entry keeps its value |
| Tally.CacheHoldsLastIndexedHash | backend/core/indexer.py:160-162 | an indexed path holds the hash of its last `indexed` result |
| Tally.ProcessAll | backend/core/indexer.py:153-154 | one finished result per discovered file, for that file |
| Tally.IndexedHashesCurrent | backend/core/indexer.py:159-162 | every indexed path is a discovered file, and its cache entry is its current hash |
| Tally.CompletedFromFiles | backend/core/indexer.py:152-158 | when the completed results are a rearrangement of the per-file results, each one is some discovered file's result and carries that file's current hash |
| Tally.TallyMatchesFiles | backend/core/indexer.py:156-168 | tallying any rearrangement of the per-file results sees one result per file, gives the counters of the file-order results, and changes the cache only at listed files, each then holding its current hash, with every indexed file among them |
| Tally.IndexedFilesCached | backend/core/indexer.py:160-162 | in any completion order, every file whose worker reported `indexed` ends up in the tallied cache with its current hash |
| Tally.NotIndexedNotApplied | backend/core/indexer.py:153-162 | a file its worker did not report indexed gets no `indexed` result among the completed ones |
| Tally.IndexFiles | backend/core/indexer.py:152-180 | for any completion order: the counters sum to the number of listed files and equal those of the per-file results; the cache changes only for listed files, each then holding its current hash; every listed file this run indexed is a cache hit on the saved cache; every other listed file keeps its old entry, or stays absent |
| Tally.IndexParallel | backend/core/indexer.py:140-180 | exposes, as `files`, the files `get_files` discovers (the source only prints their number); every one is charged to exactly one counter, and the counters equal those of the per-file results; the saved cache differs from the old one only at discovered files, each then holding its current hash; each file indexed now is a cache hit on it, so a re-run skips it; every other file keeps its old entry, or stays absent |
| Tally.SecondRunSkips | backend/core/indexer.py:117-121 | given a saved cache on which every file the run indexed is a cache hit, re-processing any file this run indexed, with its stat unchanged, skips it |
| Auth.Padding | backend/core/main.py:76 | 1 to 4 `=` characters, four for an aligned segment, making the length a multiple of 4 |
| Auth.DecodeJwtPayload | backend/core/main.py:67-81 | no payload unless the token has exactly two dots; for a two-dot token, the payload is the parse of the padded middle segment when that decodes, and none when it does not |
| Auth.JwtSegments | backend/core/main.py:71-74 | a two-dot token is its three dot-free segments joined by dots |
| Auth.ExtractBearer | backend/core/main.py:84-87 | a missing or empty header is refused; otherwise the token is the header with every `"Bearer "` removed and whitespace stripped, no longer than the header |
| Auth.ServiceAccepts | backend/core/main.py:91-99 | the auth service vouches only with status 200 and a JSON object body holding `user`; a call that raised, another status, a body that is not JSON, or one whose `["user"]` raises (array, string, number, `null`, or an object without `user`) falls through to the JWT |
| Auth.BearerTokenOfStandardHeader | backend/core/main.py:87 | the header `"Bearer " + t` yields the token of `t` with its own `"Bearer "`s removed, which is `t` stripped when it holds none |
| Auth.ShortTokenExtracted | backend/core/main.py:87 | a token shorter than `"Bearer "` without surrounding whitespace comes back unchanged from a standard header |
| Auth.ShortHeaderExtracted | backend/core/main.py:84-87 | a non-empty header shorter than `"Bearer "` without surrounding whitespace is its own token |
| Auth.PayloadIdentity | backend/core/main.py:104 | the identity is `{id: sub, email: email or "unknown"}` |
| Auth.BareSchemeNoPayload | backend/core/main.py:71-73 | the token `"Bearer"` has no dot, so it has no JWT payload |
| Auth.BareSchemeRefused | backend/core/main.py:83-106 | the header `"Bearer"` yields the token `"Bearer"`, which is refused with 401 unless the auth service vouches for the caller |
| Auth.VerifyTokenAsWritten | backend/core/main.py:83-106 | as written: a missing header gives 401, an accepting auth service wins, and the call raises exactly when the service does not accept and the decoded payload is truthy but not an object |
| Auth.FallbackAsWritten | backend/core/main.py:102-106 | as written, the fallback raises exactly on a truthy payload that is not an object |
| Auth.VerifyTokenCrashes | backend/core/main.py:102-104 | as written, the token `x.MQ.y` (payload `1`) with the auth service down raises instead of answering 401 |
| Auth.RaisesOnNonObjectPayload | backend/core/main.py:102-104 | as written, any truthy non-object payload raises when the auth service does not accept the caller |
| Auth.Fallback | backend/core/main.py:102-106 | an object payload with a truthy `sub` yields `{id: sub, email: email or "unknown"}`; every other outcome, decoding failure included, gives 401 "Invalid or expired token" |
| Auth.FallbackAgreesUnlessCrash | backend/core/main.py:102-106 | the intended fallback equals the written one wherever the latter does not raise, and refuses where it does |
| Auth.VerifyToken | backend/core/main.py:83-106 | the corrected `verify_token`, with `Auth.VerifyTokenAsWritten` as the code as written: it never raises; a missing or empty header gives 401; an accepting auth service wins; otherwise the decoded payload decides through the corrected fallback |
| Auth.VerifyTokenAgreesUnlessCrash | backend/core/main.py:102-106 | the corrected verdict equals the original wherever the original does not raise, and is 401 where it does |
| Auth.NoIdentityWithoutSub | backend/core/main.py:102-106 | with the auth service down, a payload without a truthy `sub` is refused |
| Routes.StatusBody | backend/core/main.py:114-124 | `ollama` is `running` iff the upstream tags call answered 200, `offline` otherwise; `url` is always present |
| Routes.ModelNames | backend/core/main.py:133-134 | an array of objects with `name` yields their names in order; an element without `name` makes it fail; of the other values only `{}` and `""` succeed (with no names), since iterating them yields nothing, and `null`, numbers, booleans and non-empty objects or strings raise |
| Routes.TagsMalformed | backend/core/main.py:131-135 | a 200 tags reply is malformed iff its body did not decode, is not an object, or has a `models` member that yields no names: for an array, some element lacks `name`; for any other value, it is not `{}` or `""`, so iterating it raises (`null`, numbers, booleans, non-empty strings and objects); a missing `models` reads as `[]` and is not malformed |
| Routes.NamesOf | backend/core/main.py:134 | the names exist iff every element has a `name`, and are in element order |
| Routes.ModelsBody | backend/core/main.py:126-137 | always a `models` array; an error is reported iff the call raised, did not answer 200, or its body did not decode, is not an object or yields no names; then the list is empty with the error text, and otherwise the body is exactly the upstream names |
| Routes.ModelsInUpstreamOrder | backend/core/main.py:131-134 | a well-formed tags reply yields exactly its model names in upstream order and no error |
| Routes.Prompt | backend/core/main.py:152-153 | the prompt starts with the context header and ends with the question marker and the message |
| Routes.PromptLayout | backend/core/main.py:152-153 | the prompt is the header, the documents joined by `\n---\n`, the question marker and the message, at fixed offsets |
| Routes.ParseChatBody | backend/core/main.py:60-62 | a body validates iff its `message` and `model` are strings, and then carries exactly them |
| Routes.GenerateBody | backend/core/main.py:158-165 | the upstream request carries the caller's model, the augmented prompt, `stream: false` and the system prompt |
| Routes.ResponseText | backend/core/main.py:156-172 | the upstream `response` (or the fixed text) on 200, the status and body text otherwise, the connect-failure text when the call raised |
| Routes.SqliteBindable | backend/core/main.py:176-180 | `sqlite3` binds `None`, booleans, strings and integers in the signed 64-bit range; a list or dict (`ProgrammingError`) or an integer outside that range (`OverflowError`) cannot be bound |
| Routes.UpstreamErrorText | backend/core/main.py:170 | the message starts with `"Ollama error: "`, ends with `" - "` and the upstream body verbatim, and between them the decimal digits of the status code, which read back as the code |
| Routes.ChatEndpoint | backend/core/main.py:140-206 | 401 with the detail iff the caller is refused, and then nothing is sent upstream; an accepted caller's prompt is built from the index's matches; 200 with `{"response": ...}` iff the caller is accepted and the history row can be stored, which it then is; 500 with no body in every other case |
| Routes.ChatPromptContext | backend/core/main.py:141-153 | the prompt sent upstream holds the index's matches joined by `\n---\n` between the header and the question when the index is running and its query succeeded, and an empty context otherwise; it always ends with the user's message |
| Client.AccessToken | src/services/ai.ts:13 | the session's access token, or empty when there is none |
| Http.FetchHeaderValue | src/services/ai.ts:21-25 | the header value `fetch` sends neither starts nor ends with HTTP whitespace, is empty iff the given value is all HTTP whitespace, and is the given value when that has no such whitespace at either end |
| Client.SentAuthorization | src/services/ai.ts:9-15 | the `Authorization` value that leaves `fetch`: `"Bearer"` for a missing or blank token, and otherwise `"Bearer "` and the token without its trailing HTTP whitespace |
| Client.AuthHeaders | src/services/ai.ts:9-15 | exactly `Content-Type: application/json` and `Authorization: Bearer <token>`, which is `"Bearer "` without a token |
| Client.ChatRequest | src/services/ai.ts:18-25 | a POST to `/ai/chat` with the auth headers and a body of exactly `message` and `model` |
| Client.PublicRequest | src/services/ai.ts:41-52 | `getModels` and `getStatus` send a bare GET of their route, without credentials or body |
| Client.Chat | src/services/ai.ts:18-37 | the parsed body iff the response is ok and parses; `null` otherwise |
| Client.GetModels | src/services/ai.ts:39-48 | `data.models` when ok and neither null nor undefined; `[]` in every other case |
| Client.GetStatus | src/services/ai.ts:50-59 | `running` iff the response is ok and `data.ollama === 'running'` |
| Client.FailuresCollapse | src/services/ai.ts:30-58 | a raised call or a non-ok status gives `null`, `[]` and `offline` |
| ChatPanel.Initial | src/components/MainIDE.tsx:31-38 | one AI greeting, empty input, not sending, no model, status loading |
| ChatPanel.Load | src/components/MainIDE.tsx:45-51 | status and models taken over; the active model becomes the first model iff there is one |
| ChatPanel.HandleSend | src/components/MainIDE.tsx:65-71 | no change unless the trimmed input is non-empty and nothing is sending; otherwise exactly one user message with the trimmed input, input cleared, sending |
| ChatPanel.ReplyText | src/components/MainIDE.tsx:75-79 | the response text, or the apology for `null` |
| ChatPanel.Reply | src/components/MainIDE.tsx:73-81 | exactly one AI message appended and sending cleared |
| ChatPanel.OutgoingIsShown | src/components/MainIDE.tsx:66-73 | what a send passes to `chat` is what the panel shows: an accepted send appends one user message with exactly that text and starts sending; a refused one changes nothing |
| ChatPanel.SendDisabled | src/components/MainIDE.tsx:285 | the button is disabled only when not sending, and then exactly when a send would be refused |
| ChatPanel.Press | src/components/MainIDE.tsx:282-286 | while sending the button only clears `isSending`; otherwise it sends |
| ChatPanel.Step | src/components/MainIDE.tsx:43-82 | every event keeps the history as a prefix and adds at most one message |
| ChatPanel.RunAppendOnly | src/components/MainIDE.tsx:69-78 | over any run the history is only appended to |
| ChatPanel.StepKeepsInv | src/components/MainIDE.tsx:65-82 | every event preserves the pairing of user messages with replies or pending requests |
| ChatPanel.RunKeepsInv | src/components/MainIDE.tsx:65-82 | once nothing is pending, there is one AI message per user message plus the greeting |
| ChatPanel.InitialInv | src/components/MainIDE.tsx:36-38 | the pairing holds at mount |
| ChatPanel.StopThenReplyStillAppends | src/components/MainIDE.tsx:284 | stop leaves the history alone, and the pending reply is still appended |
| ChatPanel.DisabledMeansNoSend | src/components/MainIDE.tsx:285 | a disabled button does nothing; an enabled one that is not stopping sends |
| ChatPanel.BadgeLabel | src/components/MainIDE.tsx:297 | the label is the longest colon-free prefix of the model id |
| SessionGate.Initial | src/App.tsx:7-8 | loading, no session, listener subscribed |
| SessionGate.Step | src/App.tsx:10-23 | the initial lookup sets the session and ends loading; an auth change replaces the session only; after teardown nothing changes; loading never restarts |
| SessionGate.RunMonotone | src/App.tsx:12-22 | over any run loading never restarts, and a torn-down gate never changes |
| SessionGate.LoadingStays | src/App.tsx:18-20 | auth changes and teardown alone never end loading |
| SessionGate.LoadingEndsOnlyByInitialLookup | src/App.tsx:12-20 | from mount, loading ends only through the initial lookup |
| SessionGate.Render | src/App.tsx:25-47 | the loading view while loading; then the sign-in screen iff there is no session, the IDE iff there is one |
| SessionGate.SignInScenario | src/App.tsx:12-46 | mount shows loading, then sign-in with no session, then the IDE after a sign-in event |
| SessionGate.NoRenderAfterTeardown | src/App.tsx:22 | after teardown no event changes the view |
| EndToEnd.StatusEndToEnd | src/services/ai.ts:50-59 | the client reports running iff the backend said running, iff the upstream probe answered 200; an unreachable backend reads as offline |
| EndToEnd.ModelsEndToEnd | backend/core/main.py:131-134 | upstream model names reach the client unchanged and in order |
| EndToEnd.ModelsFailureEndToEnd | src/services/ai.ts:43-44 | a failed upstream call reaches the client as an empty list |
| EndToEnd.PanelReply | src/components/MainIDE.tsx:75-76 | the panel reads `null` as no response and an object as its `response` text |
| EndToEnd.ChatBodyRoundTrip | src/services/ai.ts:24 | the body the client sends validates into exactly its message and model |
| EndToEnd.ChatAnswerShown | src/components/MainIDE.tsx:73-76 | an accepted chat with a string upstream answer stores the exchange and shows that answer |
| EndToEnd.RefusedChatShowsApology | src/components/MainIDE.tsx:77-78 | a refused chat sends nothing upstream and shows the apology |
| EndToEnd.TokenRoundTrip | src/services/ai.ts:9-15 | after `fetch` normalizes the header, the backend extracts a non-blank token that holds no `"Bearer "` as the token stripped of whitespace |
| EndToEnd.NoSessionRefused | backend/core/main.py:83-106 | without a session, or with a blank token, the header arrives as `"Bearer"`, the extracted token is `"Bearer"`, and the chat is refused with 401 unless the auth service vouches for the caller |

## Left out

- File-system walking, `os.stat`, file reads and the cache file: they are inputs (a directory tree, stat and read results per path). Loading and saving the cache is not modelled.
- Path syntax: `os.path.join` is modelled as POSIX `posixpath.join`, joining with `/`; Windows paths with `\` separators and drive letters are not modelled, and no stated property depends on the separator.
- Symbolic links: the tree is given as names only, and what reading a file returns is an input (`open` already applies newline translation).
- The vector store: `upsert` is an oracle that accepts or rejects a record. Embeddings and `query` are inputs (`Routes.ContextDocs` takes the query's outcome).
- The thread pool and `as_completed`: the pool is one pass over the per-file results, which may come in any order. The per-file work is assumed not to raise, as `_process_file` catches every failure it anticipates.
- The watchdog observer: it re-runs the per-file work on file events and saves the cache, but never updates the cache. Being concurrent, it is left out.
- Progress lines, timings and rates in `index_parallel`: floating point, and only printed.
- Processing.FileHash: the modification time is taken as its printed text. How Python prints the float is not modelled.
- JSON numbers are integers: no decision in the code depends on a fractional part. Routes.SqliteBindable therefore omits floats, which SQLite accepts.
- JSON object key order, and the raw text of responses, are not modelled.
- Header validity in `fetch`: a header value holding NUL, CR or LF inside, or a character above U+00FF, makes `fetch` throw. Only the trimming of HTTP whitespace (`Client.SentAuthorization`) is modelled.
- Request-body validation errors (422) of `/ai/chat`: the client always sends a valid body (`EndToEnd.ChatBodyRoundTrip`).
- The JWT signature is not verified: the code deliberately skips it. Base64url decoding and JSON parsing are oracles. The auth service is an abstract exchange.
- The Supabase sync after a chat: its failure is caught and does not change the reply.
- SQLite connection failures: only the binding of the row's values is modelled.
- Text.Lower: lower-cases only A-Z and the Kelvin sign. Every other character that lower-cases differently yields a non-ASCII character in Python, so no name containing one can match the all-ASCII extension and name sets. The selection therefore agrees with Python's `str.lower`.
- ChatPanel: the panel takes values of the types the TypeScript code declares. A chat result that is neither `null` nor an object with a string `response` is not modelled (`EndToEnd.PanelReply` requires a conforming one).
- ChatPanel: `response` from the backend is shown as is. `Promise.all` in the load effect is one event.
- Rendering, animations, scrolling, the settings page, the sign-in screen, the identity-provider client setup and the card component are presentation or configuration only.

## Findings

| source | as written | input that shows it | evidently intended | confidence | as-written member | corrected member |
|---|---|---|---|---|---|---|
| backend/core/main.py:102-104 | `payload and payload.get("sub")` calls `.get` on any truthy payload; a payload that is not an object raises `AttributeError`, and the request fails with 500 | bearer token `x.MQ.y`, whose middle segment decodes to the JSON number `1`, while the auth service is unreachable (`Auth.VerifyTokenCrashes`) | every payload that is not an object with a truthy `sub` is refused with 401 "Invalid or expired token" | not executed; high | Auth.FallbackAsWritten | Auth.Fallback |
