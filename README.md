# site-concierge in Dafny

site-concierge turns a website into a small retrieval-augmented chat
assistant. An admin tool scrapes a page and saves its cleaned text. It then
cuts the text into sentence chunks and stores them in a Weaviate collection.
A chat widget embedded in the site searches that collection for each
question, builds a prompt from the results and asks Gemini for the answer.

This project models the parts of that system that are its own logic:

- **Chunking** (`chunkText`):
  - `Chunker.Chunks` is the specification. It is built from the sentence list `Sentences` and the greedy grouping `Groups`.
  - `Chunker.ChunkText` is the source's accumulator loop, proved equal to it.
  - Lemmas state what the chunks guarantee: length, shape, sentence preservation, the size bound and greedy maximality.
- **Index preparation** (`weaviate.ts`, the Express server, the indexing script):
  - The vector store is a class, `VectorStore.Store`. Its state is the collection flag, the stored objects, and a log of the calls made.
  - Each call of the store may fail, as fixed by a `Service` value that says which calls fail.
  - The three callers (`Weaviate`, `AdminServer`, `Indexer`) are methods over that store. They follow the code's step order and its error handling.
- **The chat turn and its prompt**:
  - The prompt template is `Prompt`.
  - The Preact component is `ChatWidget.Widget`.
  - The embeddable script is `WidgetScript.Widget`.
  - Search and generation are abstract replies. Only what the code makes of a reply is modelled.
- **Small string functions**:
  - the scraper's selector choice and white-space clean-up (`Scraper`);
  - the GraphQL query escape of the embeddable widget (`QueryEscape`).

Modules and files:

- `text.dfy`: `Results` (the `Option` and `Result` outcomes) and `Text` (JavaScript white space, `trim`, `join`).
- `chunker.dfy`: `Chunker`.
- `scraper.dfy`: `Scraper`.
- `store.dfy`: `VectorStore`.
- `weaviate.dfy`: `Weaviate`.
- `admin_server.dfy`: `AdminServer`.
- `indexer.dfy`: `Indexer`.
- `prompt.dfy`: `Prompt`.
- `chat_widget.dfy`: `ChatWidget`.
- `query_escape.dfy`: `QueryEscape`.
- `widget_script.dfy`: `WidgetScript`.

Inputs that come from outside the program are parameters:

- the environment, as a map;
- the rendered page, as the text of the first match of each selector;
- the content file, as present or absent, with what reading it gives and its modification time;
- the behaviour of the Weaviate service;
- the replies of the search and generation endpoints.

## Model

| member | source | states |
|---|---|---|
| Text.Trim | packages/admin/src/lib/chunker.ts:4 | `trim()` leaves no white space at either end, is empty exactly when the string is all white space, and never lengthens the string |
| Text.TrimDecompose | packages/admin/src/lib/chunker.ts:9 | the trimmed string is a contiguous slice of the input with only white space cut off before and after it |
| Text.TrimChars | packages/admin/src/lib/chunker.ts:9 | trimming introduces no character that was not in the input |
| Text.TrimOfTrimmed | packages/admin/src/lib/scraper.ts:48 | trimming a string without white space at its ends leaves it unchanged |
| Text.JoinAppend | packages/chat-widget/src/components/ChatWidget.tsx:66 | joining two non-empty lists is joining each and putting one separator between them |
| Chunker.Split | packages/admin/src/lib/chunker.ts:3 | splitting at terminators always yields at least one fragment |
| Chunker.SplitCount | packages/admin/src/lib/chunker.ts:3 | there is one fragment more than there are terminators |
| Chunker.SplitNoTerminator | packages/admin/src/lib/chunker.ts:3 | no fragment contains `.`, `!` or `?` |
| Chunker.SplitAtTerminator | packages/admin/src/lib/chunker.ts:3 | the cuts fall exactly at the terminators: the text before the first terminator is the first fragment, and splitting goes on after it |
| Chunker.SplitWithoutTerminator | packages/admin/src/lib/chunker.ts:3 | text without a terminator is a single fragment, itself |
| Chunker.SplitFlatten | packages/admin/src/lib/chunker.ts:3 | the fragments, concatenated, are the text with its terminators removed: no character is lost or reordered |
| Chunker.NonBlankKeeps | packages/admin/src/lib/chunker.ts:4 | the blank filter keeps exactly the fragments whose trimmed text is non-empty |
| Chunker.SentencesOfCount | packages/admin/src/lib/chunker.ts:4-10 | the trimmed sentences are as many as the non-blank fragments |
| Chunker.SentencesOfFiltered | packages/admin/src/lib/chunker.ts:4-10 | the i-th sentence is the trimmed i-th non-blank fragment |
| Chunker.Sentences | packages/admin/src/lib/chunker.ts:2-10 | every sentence is non-empty, trimmed and free of terminators, and there are at most one more sentences than terminators |
| Chunker.SentencesByFragment | packages/admin/src/lib/chunker.ts:2-10 | the sentences of a text are its non-blank fragments, trimmed, in order |
| Chunker.Closed | packages/admin/src/lib/chunker.ts:19-28 | one closed chunk per group |
| Chunker.ClosedAt | packages/admin/src/lib/chunker.ts:19-28 | the i-th closed chunk is the i-th group's body followed by one `.` |
| Chunker.NonBlank | packages/admin/src/lib/chunker.ts:4 | the blank filter never lengthens the list of fragments (`NonBlankKeeps` says which it keeps) |
| Chunker.KeepLong | packages/admin/src/lib/chunker.ts:31 | the final filter never lengthens the list of chunks (`KeepLongKeeps` says which it keeps) |
| Chunker.KeepLongKeeps | packages/admin/src/lib/chunker.ts:31 | the final filter keeps exactly the chunks longer than 20 characters |
| Chunker.BodyShape | packages/admin/src/lib/chunker.ts:12-13 | a body of sentences does not start with white space, and its only terminators are the `.` of the `". "` joiners |
| Chunker.BodyContains | packages/admin/src/lib/chunker.ts:12-13 | a body is at least as long as each of its sentences, and strictly longer when it has more than one |
| Chunker.GroupFromCovers | packages/admin/src/lib/chunker.ts:8-29 | the groups, concatenated, are the sentences in their original order |
| Chunker.GroupFromShape | packages/admin/src/lib/chunker.ts:8-29 | no group is empty, and a group being filled stays at the front of the result |
| Chunker.GroupFromBounded | packages/admin/src/lib/chunker.ts:15-22 | every group's body fits in `maxChunkSize`, or the group is a single sentence |
| Chunker.GroupFromGreedy | packages/admin/src/lib/chunker.ts:15-21 | each flushed group plus `". "` plus the next group's first sentence would have exceeded `maxChunkSize` |
| Chunker.SentencesPreserved | packages/admin/src/lib/chunker.ts:8-29 | before filtering, the chunk bodies joined with `". "` are the sentences joined with `". "`; there are no more groups than sentences, and each chunk is its body plus `.` |
| Chunker.ChunksBounded | packages/admin/src/lib/chunker.ts:15-22 | each chunk body is within `maxChunkSize` unless it is one sentence |
| Chunker.OversizedSentenceAlone | packages/admin/src/lib/chunker.ts:17-22 | a sentence longer than `maxChunkSize` is a chunk of its own, never split |
| Chunker.ChunksGreedy | packages/admin/src/lib/chunker.ts:12-21 | greedy maximality: a chunk is flushed only when the next sentence would not have fitted |
| Chunker.ChunksShape | packages/admin/src/lib/chunker.ts:12-31 | every returned chunk is longer than 20 characters and is one `.` appended to a body whose only terminators are the joiners' `.` |
| Chunker.BlankTextHasNoChunks | packages/admin/src/lib/chunker.ts:2-4 | a text of white space and punctuation only gives no sentences and no chunks |
| Chunker.ChunkCountBound | packages/admin/src/lib/chunker.ts:8-31 | there are never more chunks than non-empty sentences |
| Chunker.PackIsGrouping | packages/admin/src/lib/chunker.ts:8-29 | the string-level packing of the loop computes exactly the closed bodies of the greedy grouping |
| Chunker.ExtendedEnd | packages/admin/src/lib/chunker.ts:12-13 | `potentialChunk` ends with the last character of the sentence just added |
| Chunker.ChunksByPacking | packages/admin/src/lib/chunker.ts:1-32 | `chunkText` is the packing loop followed by the length filter |
| Chunker.PackSentences | packages/admin/src/lib/chunker.ts:8-29 | the loop over the sentences and its final flush give the closed chunks of the greedy grouping; the `endsWith('.')` test is never true |
| Chunker.ChunkText | packages/admin/src/lib/chunker.ts:1-32 | the result is `Chunks(text, maxChunkSize)`: every chunk has the shape above, and there are no more chunks than sentences |
| Scraper.MainContentIsFirstMatch | packages/admin/src/lib/scraper.ts:23-42 | the main content is the text of the first selector in the fixed order that matches, and empty when none matches |
| Scraper.SelectMainContent | packages/admin/src/lib/scraper.ts:34-42 | the loop that breaks at the first match returns the text of the first matching selector |
| Scraper.LeadingSpace | packages/admin/src/lib/scraper.ts:46 | the leading white-space run is all white space and ends at a non-space or the end |
| Scraper.Collapse | packages/admin/src/lib/scraper.ts:46 | collapsing is empty only for the empty string, and keeps whether the text starts with white space |
| Scraper.LeadingSpaceOfRun | packages/admin/src/lib/scraper.ts:46 | a white-space run followed by a visible character or the end is exactly the text's leading white space |
| Scraper.LeadingSpaceAppend | packages/admin/src/lib/scraper.ts:46 | the leading white space of a text ending in a visible character stops before its end, whatever follows |
| Scraper.CollapseSpaceStep | packages/admin/src/lib/scraper.ts:46 | a leading white-space run becomes one space, with or without text after it |
| Scraper.CollapseCharStep | packages/admin/src/lib/scraper.ts:46 | a leading visible character is kept, with or without text after it |
| Scraper.CollapseAppend | packages/admin/src/lib/scraper.ts:46 | cut just after a visible character, the text collapses piece by piece |
| Scraper.CollapseLeadingRun | packages/admin/src/lib/scraper.ts:46 | a white-space run at the start becomes exactly one space |
| Scraper.CollapseRun | packages/admin/src/lib/scraper.ts:46 | every maximal white-space run, of any length and mix of spaces, tabs and line breaks, becomes exactly one space, and the text on each side collapses on its own |
| Scraper.CollapseIsCollapsed | packages/admin/src/lib/scraper.ts:46 | after `replace(/\s+/g, ' ')` the only white space is single plain spaces |
| Scraper.CollapseKeepsVisible | packages/admin/src/lib/scraper.ts:46 | collapsing keeps every non-space character, in order |
| Scraper.RemoveBlankLines | packages/admin/src/lib/scraper.ts:47 | removing blank lines changes nothing in a text without a line feed |
| Scraper.CollapsedHasNoNewline | packages/admin/src/lib/scraper.ts:46-47 | a collapsed text contains no line feed |
| Scraper.TrimKeepsVisible | packages/admin/src/lib/scraper.ts:48 | trimming keeps every non-space character, in order |
| Scraper.CleanShape | packages/admin/src/lib/scraper.ts:45-48 | the cleaned text has no white space at its ends, no two white-space characters in a row and no line feed; the blank-line replace changes nothing |
| Scraper.CleanKeepsVisible | packages/admin/src/lib/scraper.ts:45-48 | cleaning keeps every non-space character of the page text, in order |
| Scraper.CleanIdempotent | packages/admin/src/lib/scraper.ts:45-48 | cleaning cleaned text changes nothing |
| Scraper.ReadScrapedContent | packages/admin/src/lib/scraper.ts:71-77 | the read succeeds exactly when the file exists and can be read; an absent file is an error, not empty text |
| Scraper.ScrapedContentStats | packages/admin/src/lib/scraper.ts:83-104 | `hasContent` is whether the file exists; an absent file or a failing read gives length 0 and a null timestamp; a readable file gives its text's length and its modification time, which is null when `statSync` fails; the error is swallowed |
| VectorStore.AcceptedFromBatch | packages/admin/src/lib/weaviate.ts:90-96 | a batch insert stores only objects of the batch |
| VectorStore.AcceptedAll | packages/admin/src/lib/weaviate.ts:90 | with no per-object errors the whole batch is stored, in order |
| VectorStore.AcceptedNone | packages/admin/src/lib/weaviate.ts:90-96 | when every object is rejected nothing is stored |
| VectorStore.Store.Connect | packages/admin/src/lib/weaviate.ts:9-17 | connecting fails or succeeds as the service does; it changes neither the collection nor its objects |
| VectorStore.Store.Exists | packages/admin/src/lib/weaviate.ts:24 | `exists` reports whether the collection exists, or throws |
| VectorStore.Store.Delete | packages/admin/src/lib/weaviate.ts:26 | a successful delete removes the collection and all its objects |
| VectorStore.Store.Create | packages/admin/src/lib/weaviate.ts:34-55 | a successful create leaves an existing, empty collection; creating over an existing collection fails |
| VectorStore.Store.InsertMany | packages/admin/src/lib/weaviate.ts:90-96 | an insert throws when the service fails or there is no collection; otherwise the objects not rejected are appended, and the rejected positions of the batch are reported |
| VectorStore.Store.FetchObjects | scripts/indexer.js:170-173 | the fetch throws when the service fails or there is no collection; otherwise it returns `limit` of the stored objects, or all of them when there are fewer, and changes nothing stored |
| VectorStore.Store.Close | packages/admin/server.js:291 | closing fails or succeeds as the service does and changes nothing stored |
| Weaviate.MissingFrom | packages/admin/src/lib/weaviate.ts:113 | the filter keeps exactly the names that are unset or empty, as a sublist in the original order |
| Weaviate.ValidateEnvironmentVariables | packages/admin/src/lib/weaviate.ts:106-119 | `missing` is exactly the sublist of the three required names that are unset or empty, and `valid` holds iff `missing` is empty |
| Weaviate.CreateCollection | packages/admin/src/lib/weaviate.ts:19-63 | `delete` is called only when `exists` answers true; a failing `exists` or `delete` is swallowed and `create` is still called; only a failing `create` is an error; success leaves an empty collection |
| Weaviate.ObjectsFrom | packages/admin/src/lib/weaviate.ts:81-86 | one object per chunk, in order, the i-th holding chunk i with index `start + i` |
| Weaviate.ToDataObjects | packages/admin/src/lib/weaviate.ts:81-86 | exactly one object per chunk, in chunk order; the i-th has text `chunks[i]` and `chunkIndex` i |
| Weaviate.ChunkIndexLocates | packages/admin/src/lib/weaviate.ts:81-86 | every object's `chunkIndex` is a valid position whose chunk is the object's text |
| Weaviate.StoredObjectsLocate | packages/admin/src/lib/weaviate.ts:81-96 | every object a batch insert stores names, by its `chunkIndex`, the chunk it holds |
| Weaviate.IndexChunks | packages/admin/src/lib/weaviate.ts:71-103 | no chunks: "No chunks created" and no store call; otherwise exactly one batch insert; a throwing insert is passed on; on success the chunk count is returned even when objects were rejected |
| Weaviate.IndexContent | packages/admin/src/lib/weaviate.ts:65-104 | a read error of the content file is passed on before any chunking or store call; otherwise as `IndexChunks` |
| AdminServer.ScrapeWebsite | packages/admin/server.js:30-90 | the scraped content is the cleaned text of the first matching selector, or a failure when the page cannot be loaded |
| AdminServer.HandleScrape | packages/admin/server.js:230-254 | no URL: 400 and no scraping; a failed scrape: 500; otherwise 200 with the cleaned content's length |
| AdminServer.IndexContent | packages/admin/server.js:181-227 | an unreadable file: "Please run scraping first" before any chunking or store call; otherwise as `Weaviate.IndexChunks` |
| AdminServer.IndexAndClose | packages/admin/server.js:286-304 | success iff the file is readable, has chunks, the insert does not throw and close succeeds; a failure answers 500 |
| AdminServer.ConnectAndIndex | packages/admin/server.js:277-304 | connect, recreate the collection, then index and close; a missing file after a successful recreation leaves an existing, empty collection and answers 500 |
| AdminServer.HandleIndex | packages/admin/server.js:257-305 | a missing variable answers 400 with the missing names and makes no store call; otherwise the first call is connect; 200 exactly when every step succeeds, with the chunk count and the calls made in order; any other status is 500 |
| AdminServer.Status | packages/admin/server.js:308-327 | an absent file: length 0 and timestamp null; a failed read leaves length 0; a failing `statSync` escapes the handler |
| Indexer.IndexContent | scripts/indexer.js:122-166 | an unreadable file or no chunks only returns, without a store call or error; only a throwing insert is an error; on success the accepted objects are appended |
| Indexer.VerifyData | scripts/indexer.js:168-188 | the sample is five of the stored objects, or all of them when there are fewer; a failure is swallowed and nothing stored changes |
| Indexer.VerifyAndClose | scripts/indexer.js:204-210 | fetch a sample, then close; only a failing close ends with exit code 1 |
| Indexer.FinishRun | scripts/indexer.js:201-214 | indexing, the sample and the close, in order; the run completes unless the insert throws, even when indexing returned early |
| Indexer.RunIndexer | scripts/indexer.js:190-215 | a missing variable exits with 1 before any store call; a completed run made exactly the calls connect, recreate, insert, fetch, close, and leaves the accepted objects stored; the exit code is 0 exactly when the run completed and close succeeded |
| Prompt.ContextEmpty | packages/chat-widget/src/components/ChatWidget.tsx:64-67 | the joined context is empty exactly when there are no results or the only result is empty |
| Prompt.Information | packages/chat-widget/src/components/ChatWidget.tsx:73 | a non-empty context fills the slot as it is; the fallback literal fills it exactly when the context is empty, or is that literal itself; the slot is never empty |
| Prompt.ConcatLayout | packages/chat-widget/src/components/ChatWidget.tsx:70-76 | sequence helper for `PromptLayout`: in any five strings laid end to end, each is found again at its offset |
| Prompt.PromptLayout | packages/chat-widget/src/components/ChatWidget.tsx:70-76 | the prompt opens with the preamble, holds the site information after its header and the question header after that, and ends with the message verbatim |
| Prompt.PromptDeterminesMessage | packages/chat-widget/src/components/ChatWidget.tsx:70-76 | for the same context, different messages give different prompts |
| ChatWidget.Reply | packages/chat-widget/src/components/ChatWidget.tsx:59-88 | the reply is never the user's; it is the apology exactly when a call failed or the model itself answered with the apology text; otherwise it is the generated text |
| ChatWidget.ExtendsTransitive | packages/chat-widget/src/components/ChatWidget.tsx:57-88 | the transcript only grows, so what was shown stays shown across any number of steps |
| ChatWidget.Widget.ToggleChat | packages/chat-widget/src/components/ChatWidget.tsx:43-45 | toggling flips `isOpen` and changes nothing else, so toggling twice restores it; the transcript is kept |
| ChatWidget.Widget.CloseChat | packages/chat-widget/src/components/ChatWidget.tsx:47-49 | closing sets `isOpen` false whatever it was, so closing is idempotent; the transcript is kept |
| ChatWidget.Widget.Submit | packages/chat-widget/src/components/ChatWidget.tsx:51-61 | a message sent while loading is ignored; otherwise the user's message is appended and loading starts; the earlier transcript is a prefix of the new one |
| ChatWidget.Widget.SearchDone | packages/chat-widget/src/components/ChatWidget.tsx:61-88 | a failed search appends the apology and ends loading, without a generation; otherwise the generation is asked for the prompt built from the joined results; the earlier transcript is a prefix of the new one |
| ChatWidget.Widget.GenerationDone | packages/chat-widget/src/components/ChatWidget.tsx:79-91 | the answer or the apology is appended and loading ends; the earlier transcript is a prefix of the new one |
| ChatWidget.Widget.HandleUserMessage | packages/chat-widget/src/components/ChatWidget.tsx:51-92 | an accepted turn appends exactly the user's message and one reply, leaving earlier messages unchanged and `isLoading` false; a rejected one changes nothing; either way the earlier transcript is a prefix of the new one, by transitivity over the steps |
| QueryEscape.EscapeQuotes | public/chat-widget.js:242 | the escape as written never shortens the query, and every `"` in its output has a backslash right before it; with `UnquoteEscapeQuotes` this pins the replacement to every `"` |
| QueryEscape.UnquoteEscapeQuotes | public/chat-widget.js:242 | undoing exactly the `"` to `\"` replacement gives the query back: only `"` is changed |
| QueryEscape.ReadString | public/chat-widget.js:242 | reading a GraphQL string literal consumes input: what follows the closing quote is shorter than what was read; the body rejects a raw line terminator or other character below U+0020 but tab, and reads the short and `\u` escapes |
| QueryEscape.TrailingBackslashBreaksLiteral | public/chat-widget.js:242 | a query ending in a backslash makes the concept literal malformed |
| QueryEscape.NewlineBreaksLiteral | public/chat-widget.js:242 | a query with a line break makes the concept literal malformed |
| QueryEscape.ControlCharacterBreaksLiteral | public/chat-widget.js:242 | a query holding U+0001 makes the concept literal malformed |
| QueryEscape.BackslashQuoteMisread | public/chat-widget.js:242 | for the message `\"` the server reads the concept as a lone backslash; the literal ends early, and the `"]` and line end left over open a literal that is never closed, so the query is rejected |
| QueryEscape.ReadEscapeQuotes | public/chat-widget.js:242 | a query without backslashes or control characters other than tab, escaped as written and closed by `"`, reads back as exactly the query |
| QueryEscape.HexChar | public/chat-widget.js:242 | a digit written in hexadecimal reads back as that digit |
| QueryEscape.EscapeChar | public/chat-widget.js:242 | the corrected escape of a character is never empty and holds no character below U+0020 |
| QueryEscape.ReadUnicodeEscape | public/chat-widget.js:242 | a control character written as `\u00` and two hexadecimal digits reads back as itself |
| QueryEscape.ReadEscapedChar | public/chat-widget.js:242 | each escaped character reads back as itself |
| QueryEscape.ReadEscapeGraphQL | public/chat-widget.js:242 | the corrected escape, closed by `"`, reads back as exactly the query, control characters included, and reading stops right after that quote |
| QueryEscape.EscapesAgreeOnPlainText | public/chat-widget.js:242 | without backslashes or characters below U+0020, the corrected escape is the escape as written |
| QueryEscape.SentLiteral | public/chat-widget.js:242 | the literal the widget sends is `"`, the message with each `"` escaped, and `"` |
| QueryEscape.SentLiteralReadsBackPlain | public/chat-widget.js:242 | that literal reads back as the message when the message has no backslash and no character below U+0020 but tab |
| QueryEscape.EscapeGraphQL | public/chat-widget.js:242 | the corrected escape, `JSON.stringify` without its quotes, never shortens the query and leaves no character below U+0020 raw |
| QueryEscape.ConceptLiteral | public/chat-widget.js:242 | the corrected literal starts with `"` and reads back as exactly the message, whatever characters it holds |
| QueryEscape.FormFeedEscaped | public/chat-widget.js:242 | a form feed is sent raw by line 242 and written `\f` by the corrected literal |
| QueryEscape.ConceptLiteralReadsBack | public/chat-widget.js:242 | the corrected literal reads back as the message whatever follows it, for every message |
| WidgetScript.SearchResults | public/chat-widget.js:255-284 | the search throws on no response, a non-OK status or an `errors` member; otherwise it gives `data.Get.WebsiteContent`, or the empty list when that is absent |
| WidgetScript.GeneratedText | public/chat-widget.js:324-346 | the generation gives the first part of the first candidate's content, and throws exactly when any of the response, its OK status, the first candidate, its content or its first part is missing |
| WidgetScript.Outcome | public/chat-widget.js:374-403 | the placeholder ends with the generated text, or with the apology when either call threw |
| WidgetScript.SameReplyAsComponent | public/chat-widget.js:374-403 | the script and the Preact component end a turn with the same text for the same replies |
| WidgetScript.Widget.Toggle | public/chat-widget.js:452-466 | toggling flips `isOpen` and changes nothing else |
| WidgetScript.Widget.Close | public/chat-widget.js:468-475 | closing sets `isOpen` false whatever it was |
| WidgetScript.Widget.Type | public/chat-widget.js:373 | a disabled textarea cannot be edited |
| WidgetScript.Widget.Start | public/chat-widget.js:350-373 | a second call during a turn returns at once; otherwise one user element and the placeholder are appended, loading starts, the textarea is disabled, and the concept literal sent is `"`, the message with its quotes escaped, `"` (line 242) |
| WidgetScript.Widget.Finish | public/chat-widget.js:404-409 | the placeholder gets its final text, and `isLoading` and the disabled textarea are both reset |
| WidgetScript.Widget.SearchDone | public/chat-widget.js:375-392 | a failed search puts the apology in the placeholder and ends the turn; otherwise the prompt is built from the joined results |
| WidgetScript.Widget.GenerationDone | public/chat-widget.js:394-409 | the placeholder gets the generated text or the apology, and the turn ends |
| WidgetScript.Widget.HandleUserMessage | public/chat-widget.js:350-410 | an accepted turn adds exactly one user element and one assistant element holding the final text, leaves no placeholder, and re-enables the textarea; a rejected one changes nothing |
| WidgetScript.Widget.KeyDown | public/chat-widget.js:434-443 | Enter without Shift sends the trimmed input only when it is non-empty and no turn is loading, and then clears the input; otherwise nothing changes |

## Left out

- Browser automation is not part of this model: launching Chromium, navigating, waiting, and removing `script` and `style` elements. A page is the `innerText` of the first match of each selector.
- Writing the content file is not modelled. The content file is a value: absent, or present with the outcome of reading it and of `statSync`.
- The HTTP requests, the Gemini and Weaviate SDK calls, and their JSON bodies are left out. Each is a reply value or a flag of `VectorStore.Service`.
- Request parsing and CORS in the Next.js route handlers are left out. The index route's step order is the same as the Express handler's, which is modelled.
- `hasScrapedContent`, the health endpoint and the admin server's child processes are left out.
- Logging, scrolling, focus, CSS classes and textarea resizing are left out.
- The floating-point parameters (distance, temperature, topP, topK) are left out.
- `Scraper.ScrapedContentStats`, `AdminServer.HandleScrape` and `AdminServer.Status` report `content.length` as the number of Dafny characters, which differs from JavaScript's UTF-16 count for characters outside the Basic Multilingual Plane, as for `Chunker.ChunkText` below.
- `Chunker.ChunkText`: lengths count Dafny characters, that is Unicode scalar values. JavaScript counts UTF-16 code units, so chunks with characters outside the Basic Multilingual Plane meet the size bound by a different measure.
- `Chunker.Split` splits at every single terminator, where the source splits at runs of them. The extra fragments are empty, and the blank filter removes them, so the sentences are the same.
- `Chunker.PackSentences` receives the trimmed sentences as a ghost parameter, only to state its result. It trims each fragment itself, as the loop does.
- `AdminServer.HandleIndex` follows the code's order: connect and recreate the collection, then read the content file. In the code, a missing file leaves an empty, recreated collection and a 500 answer, and the model states that.
- `VectorStore.Store.FetchObjects` does not promise which objects a fetch returns or in what order: Weaviate returns them in its own order. Only their number and that they are stored objects are stated; the model's body happens to return them from the front.
- `Indexer.VerifyData`: the same holds for the sample, which is any five of the stored objects, not the first five inserted.
- `ChatWidget.Widget.Submit` reads `isLoading` as the current state. In Preact the handler sees the `isLoading` of the render it was created in, so two submissions before a re-render could both pass the guard.
- `ChatWidget.Widget.HandleUserMessage` and `WidgetScript.Widget.HandleUserMessage` run a turn with no other event in between. Interleavings are modelled only through the separate steps (`Submit`/`Start`, `SearchDone`, `GenerationDone`), whose `Valid` invariant holds between events.
- `QueryEscape.ReadString` does not read block strings, and rejects a `\u` escape of a surrogate half, where GraphQL reads one code unit. A Dafny character is a Unicode scalar value, so a character outside the Basic Multilingual Plane stands raw as one character rather than as two UTF-16 units. Neither escape writes a block string or a surrogate escape, so the round trips and the counterexamples are unaffected.
- `WidgetScript.GeneratedText` takes the first part's text as a string. A part without `text` would give `undefined`, which the script shows as empty text.
- The greeting element's text is taken without the surrounding white space of the HTML.

## Findings

| source | as written | input that shows it | evidently intended | confidence | as-written member | corrected member |
|---|---|---|---|---|---|---|
| public/chat-widget.js:242 | only `"` is escaped before the message is put in the GraphQL string literal `concepts: ["..."]`; backslashes, line breaks and other control characters are copied as they are | the message `a\`: the backslash escapes the closing quote and the literal is never closed. A two-line message (Shift+Enter): a line terminator is not allowed in a string literal. A message holding U+0001: no character below U+0020 but tab may stand raw in one either. The message `\"`: the first literal is read as the concept `\` and ends early; the `"]` and line end left over open a second literal that is never closed, so the server rejects the query | the server reads back exactly the message, whatever it contains | not executed; follows from the StringValue rule of section 2.9.4 of the GraphQL specification (October 2021) | QueryEscape.TrailingBackslashBreaksLiteral | QueryEscape.ReadEscapeGraphQL |

`QueryEscape.NewlineBreaksLiteral`, `QueryEscape.ControlCharacterBreaksLiteral` and `QueryEscape.BackslashQuoteMisread` show the other inputs.

The corrected escape, `EscapeGraphQL`, writes each character as `JSON.stringify` does: it also escapes `\`, gives backspace, tab, line feed, form feed and carriage return their short escapes, and writes every other character below U+0020 as a `\u00` escape. `ConceptLiteral`, `JSON.stringify(message)`, is the literal built with it, and `ConceptLiteralReadsBack` proves it reads back as the message for every message. `WidgetScript.Widget.Start` models the code as written: it sends `SentLiteral`, which `SentLiteralReadsBackPlain` shows is read back intact for messages without a backslash and without a character below U+0020 but tab.
