# YouTube upload assistant — a Dafny model of its server core

The application lets a signed-in Google user upload a video. It has an LLM
draft a title, description, hashtags and category for the video, and then
publishes the video to YouTube through the user's OAuth tokens. This project
models the server side of that flow:

- **Metadata generation** (`lib/openai.ts`, `lib/grok.ts`). The generator
  builds a prompt from a fixed template, grounded in up to three similar
  records from a vector index in the OpenAI variant. It then calls a chat
  completion up to three times with linear backoff. Each reply is cleaned:
  code fences are removed, the text is trimmed, and the span from the first
  `{` to the last `}` is taken. That span is parsed as JSON and checked
  against a schema: title ≤ 100 characters, description ≤ 500, 3 to 5
  hashtags, and an optional category ≤ 50 characters.
- **Staging a video** (`POST /api/generateMetadata`). The handler checks the
  session and the file size, writes the video under a time-stamped name and
  has a thumbnail made. It then generates metadata and records a `PENDING`
  `Video` row.
- **Publishing** (`POST /api/upload` and `lib/Youtube.ts`). The upload handler
  receives the video again and calls `uploadVideo`. `uploadVideo` sets the
  shared OAuth client's credentials and refreshes an expired access token,
  writing the new token back to the `User` row first. It then inserts the
  video on YouTube, sets its thumbnail and marks the `Video` row "uploaded".
  The handler then removes both files.
- **Sign-in** (`lib/auth.ts`). The NextAuth `jwt` callback stores the Google
  tokens in the token and upserts the `User` row by email. The `session`
  callback copies the claims whose JavaScript type fits.

How the model is built:

- Pure code (text handling, the schema, the per-attempt logic, prompts,
  callbacks) is written as functions.
- Code that changes things step by step is written as methods. The retry loop
  is one. So is every handler or library call that writes the database, the
  disk or the OAuth client: each is a module-level method that takes a
  `Store.Backend` object and `modifies` it. Its fields are the `User` table, the `Video` table, the set of files, the
  client's credentials and a log of effects in order.
- Each method is proved equal to a specification function over a `World`
  value: `Step(result, new state) == Spec(old state, …)`. The lemmas state
  the source's promises about those functions.
- Everything outside the process is a parameter:
  - the chat endpoint's answer to each attempt;
  - `JSON.parse`;
  - the vector index's matches;
  - Google's answers;
  - formidable's parse result;
  - thumbnail generation;
  - `Date.now()`.

## Model

| member | source | states |
|---|---|---|
| JsText.IndexOf | lib/openai.ts:58 | the result is the first position where the pattern occurs, and `None` exactly when it does not occur |
| JsText.Replace | lib/openai.ts:58 | `String.prototype.replace` with a string pattern: only the first occurrence is replaced, with `$$`, `$&`, `` $` `` and `$'` expanded; the text is unchanged when the pattern is absent |
| JsText.Substitution | lib/openai.ts:58 | the replacement patterns of `replace`: `$$` inserts `$`, `$&` the matched text, `` $` `` the text before the match and `$'` the text after it |
| JsText.SubstitutionLiteral | lib/grok.ts:62 | a replacement without `$` is inserted verbatim |
| JsText.ReplaceAfterPrefix | lib/grok.ts:62 | when the pattern's first character is absent from the prefix, the replacement lands right after the prefix |
| JsText.ReplaceInserts | lib/openai.ts:58 | when the pattern occurs, a `$`-free replacement appears in the result |
| JsText.ReplaceWithMatch | lib/grok.ts:62 | the replacement `$&` puts the matched slot back, so the text is unchanged |
| JsText.ReplaceKeepsPrefix | lib/openai.ts:58 | a prefix that lacks the pattern's first character survives `replace` untouched, whatever the replacement |
| JsText.ReplaceKeepsSuffix | lib/openai.ts:58 | text after an occurrence of the pattern still ends the result, whatever the replacement |
| JsText.SlotFrame | lib/grok.ts:62 | filling a one-slot template with any value keeps the text before and after the slot |
| JsText.TwoSlotFrame | lib/openai.ts:58 | filling both slots of a two-slot template with any values keeps the text before the first slot and after the second |
| JsText.FillTwoSlots | lib/openai.ts:58 | replacing two slots in turn with `$`-free values puts each value exactly where its slot was |
| JsText.SecondSlotLands | lib/openai.ts:58 | whatever the first value is, a `$`-free second value always appears |
| JsText.Join | lib/openai.ts:54-56 | `Array.prototype.join`: empty for no parts, and otherwise starting with the first part |
| JsText.JoinLength | lib/openai.ts:54-56 | the joined text is as long as all the parts plus one separator between each neighbouring pair |
| JsText.JoinItem | lib/openai.ts:54-56 | part `i` sits at the offset given by the earlier parts, each followed by one separator, and every part but the last is followed by the separator |
| JsText.Trim | lib/openai.ts:81 | the result is the input with its leading and trailing ECMAScript white space and line terminators removed |
| JsText.IsWhitespace | lib/openai.ts:81 | the characters `trim` removes include space, tab, newline and carriage return, and never a digit, a letter, a brace or a quote |
| JsText.TrimIdempotent | lib/grok.ts:80 | trimming twice is trimming once |
| JsText.Decimal | app/api/generateMetadata/route.ts:36 | `${n}` for a non-negative integer: a non-empty string of digits with no leading zero |
| JsText.DecimalRoundTrip | app/api/generateMetadata/route.ts:36 | reading the numeral back gives the time stamp |
| JsText.Basename | app/api/generateMetadata/route.ts:86-87 | `path.basename` returns a segment without `/` |
| JsText.BasenameOfJoin | app/api/generateMetadata/route.ts:87 | the base name of `dir/name` is `name` when `name` is a non-empty file name |
| JsText.EncodeUriComponent | app/api/upload/route.ts:56 | percent-encodes (section 2.1 of RFC 3986) the UTF-8 bytes of every character outside A–Z a–z 0–9 `- _ . ! ~ * ' ( )`; the output holds only those characters and `%` |
| JsText.EncodeConcat | app/api/upload/route.ts:56 | encoding is character by character: the encoding of `a + b` is the encoding of `a` followed by that of `b` |
| JsText.EncodeUnreserved | app/api/upload/route.ts:56 | text made only of unreserved characters is left unchanged |
| JsText.EncodeTwoSegments | app/api/upload/route.ts:56 | `/a/b` with plain segments encodes as `%2Fa%2Fb` |
| ResponseText.StripFences | lib/openai.ts:81 | removing the fences never lengthens the text |
| ResponseText.StripIsSubsequence | lib/openai.ts:81 | fence removal only deletes characters: what is kept stays in order |
| ResponseText.StripWithoutFences | lib/grok.ts:80 | text containing neither fence is left untouched |
| ResponseText.FencedBlock | lib/openai.ts:81 | for prose followed by a fenced block, the fences disappear and the prose and body are kept |
| ResponseText.FenceAfterNewline | lib/openai.ts:81 | when the prose before the block ends in a newline, that newline and the backquotes match the closing fence, so `json\n` stays in the text |
| ResponseText.ExtractObject | lib/openai.ts:82-86 | the match exists exactly when some `{` comes before some `}`, and is then the slice from the first `{` to the last `}` |
| ResponseText.CandidateJson | lib/grok.ts:80-85 | the candidate, when present, starts with `{` and ends with `}` |
| ResponseText.FencedObjectIsCandidate | lib/openai.ts:81-86 | a reply that is exactly one fenced object yields that object |
| MetadataSchema.WithinBounds | lib/openai.ts:26-31 | title at most 100 characters, description at most 500, 3 to 5 hashtags, and a category, when present, at most 50 |
| MetadataSchema.ToJson | lib/openai.ts:26-31 | the JSON object written for metadata carries exactly its fields |
| MetadataSchema.Validate | lib/openai.ts:26-31 | anything the schema accepts is within the bounds and is what the object describes; a rejection carries the schema error |
| MetadataSchema.ValidateAccepts | lib/grok.ts:22-27 | an object describing metadata is accepted exactly when the metadata is within the bounds, and that metadata is returned (unknown keys are dropped) |
| MetadataSchema.ValidateToJson | lib/openai.ts:96 | writing metadata out and validating it gives it back exactly when it is within the bounds |
| MetadataSchema.StringItems | lib/openai.ts:29 | an array is read as strings exactly when every item is a string, and the strings are returned in order |
| Completion.ModelName | lib/openai.ts:38 | `GROQ_MODEL` when set and non-empty, otherwise "llama3-8b-8192" |
| Completion.Attempt | lib/openai.ts:74-96 | one attempt: null or empty content fails with its message; no object gives "No valid JSON object found in response"; success means the candidate parsed and passed the schema, so the bounds hold; a thrown error passes through with its status |
| Completion.StopsRetry | lib/openai.ts:99 | an error ends the loop early exactly when its status is set, non-zero and not 429; a missing status, a 0 or a 429 lets the loop retry |
| Completion.RunFrom | lib/openai.ts:60-104 | the loop makes at most 3 attempts and stops at the first success, on attempt 3, or on an error whose status is set and is not 429; every earlier attempt failed with a retryable error; the wait before attempt k+1 is 1000·k ms |
| Completion.RunWithinBounds | lib/openai.ts:96 | whatever the loop returns satisfies the schema bounds |
| Completion.PersistentFailure | lib/openai.ts:99-102 | when every attempt fails retryably, there are exactly 3 attempts, the waits are 1000 ms and 2000 ms (3000 ms in all), and the third error is thrown |
| Completion.FirstErrorStops | lib/openai.ts:99 | a non-429 status on the first attempt ends the run after one call with no wait |
| Completion.Retry | lib/openai.ts:60-106 | the loop method computes exactly `RunFrom`; the throw after the loop is unreachable (proved by `assert false`) |
| OpenAi.DescribeMatch | lib/openai.ts:52-55 | each retrieved match is rendered as a line that starts with "Title: " |
| OpenAi.RetrievedText | lib/openai.ts:51-56 | the retrieved text is empty exactly when there are no matches |
| OpenAi.GroundingText | lib/openai.ts:58 | the grounding text is never empty: the retrieved lines when there are matches, "No similar metadata found." when there are none |
| OpenAi.Prompt | lib/openai.ts:58 | for any context and any matches, even text holding `$` patterns or a slot name, the prompt starts with the instructions before the context slot and ends with the output instructions |
| OpenAi.PromptFillsSlots | lib/openai.ts:9-24 | for a context without `{` or `$` and grounding text without `$`, the prompt is the template with both slots filled verbatim |
| OpenAi.PromptWithoutMatches | lib/openai.ts:58 | with no matches the prompt contains "No similar metadata found." |
| OpenAi.Request | lib/openai.ts:62-72 | every attempt sends the chosen model and one user message holding the prompt, with temperature 0.7 and 4000 max tokens |
| OpenAi.Generated | lib/openai.ts:107-110 | returned metadata is within the bounds; every failure message starts with "Failed to generate metadata: "; a failed retrieval fails before any call |
| OpenAi.GenerateMetadata | lib/openai.ts:33-111 | a failed retrieval makes no request; otherwise it sends the same request once per attempt of the loop, waits as the loop does, and returns its metadata or its error prefixed with "Failed to generate metadata: " |
| Grok.Prompt | lib/grok.ts:62 | for any context, even one holding `$` patterns, the prompt starts with the instructions before the slot and ends with the output instructions |
| Grok.PromptFillsSlot | lib/grok.ts:62 | a context without `$` replaces the first `{context}` verbatim |
| Grok.PromptDollarAmpersand | lib/grok.ts:62 | a context of exactly `$&` leaves the template unchanged, because `replace` expands `$` patterns in the context |
| Grok.RequestOf | lib/grok.ts:29-50 | `createChatCompletion` sends the model and messages unchanged; temperature defaults to 0.7 and max_tokens to 4000 |
| Grok.CreateChatCompletion | lib/grok.ts:45-56 | a completion passes through; any error becomes "Failed to create chat completion: " + its message, with no status |
| Grok.Request | lib/grok.ts:66-71 | every attempt passes the chosen model and one user message holding the prompt, with temperature 0.7 and 4000 max tokens |
| Grok.FailureTakesAllAttempts | lib/grok.ts:53-55 | because the rewrapped errors carry no status, a failing run always makes 3 attempts and waits 1000 ms and then 2000 ms |
| Grok.GenerateMetadata | lib/grok.ts:59-110 | the same request on every attempt; the result is the loop's, with failures prefixed "Failed to generate metadata: "; a failure always follows exactly 3 requests |
| Store.FindBy | lib/Youtube.ts:14 | `findUnique` on a unique column (`id` here and at line 44, `email` at lib/auth.ts:44) returns a row with that value, and `None` exactly when no row has it |
| Store.UpdateKeepsUniqueKeys | lib/Youtube.ts:20-27 | rewriting a row without touching its id or email keeps ids and emails unique |
| Store.AppendKeepsUniqueKeys | lib/auth.ts:50-56 | adding a row with a new id and a new email keeps ids and emails unique |
| Store.Backend.constructor | lib/Youtube.ts:6-10 | an empty store, and a client without credentials |
| YouTube.Expired | lib/Youtube.ts:54 | a missing expiry, or the falsy 0, never asks for a refresh; any other expiry asks for one exactly when it is earlier than now |
| YouTube.ExpiryLasts | lib/Youtube.ts:54 | once a token is due for a refresh it stays due at every later time |
| YouTube.Refreshed | lib/Youtube.ts:20-27 | the refreshed row keeps its id, email and refresh token and takes the new access token, the new expiry and the update time |
| YouTube.RefreshSpec | lib/Youtube.ts:12-34 | success exactly when the user has a row with a refresh token and Google answers. It then returns the credentials, sets them on the client, updates the row, and logs the refresh request before the row update. Every failure is "Failed to refresh access token" with the user table untouched |
| YouTube.RefreshKeepsUniqueKeys | lib/Youtube.ts:20-27 | a refresh keeps user ids and emails unique |
| YouTube.InsertRequestFor | lib/Youtube.ts:61-75 | the insert uses tags = hashtags, categoryId "22" and privacy "private", and uploads the staged file |
| YouTube.PublishSpec | lib/Youtube.ts:60-96 | success exactly when both files are on disk, the insert and the thumbnail succeed and a row has the path. The row then gets the YouTube id, status "uploaded" and the update time, and the id is returned. Any failure is "Failed to upload video to YouTube" with the video table untouched |
| YouTube.Streamed | lib/Youtube.ts:74-80 | the insert can give an id only when the video file is on disk, and the thumbnail can be set only when the thumbnail file is, because each request streams its file with `createReadStream` |
| YouTube.PublishEvents | lib/Youtube.ts:61-90 | the insert request comes first; the thumbnail request for the returned id comes only after a successful insert; the row update only after both succeed |
| YouTube.UploadSpec | lib/Youtube.ts:36-97 | a user without a row or an access token gets "No tokens found for user" and nothing changes; every failure is one of the three messages and leaves the video table unchanged |
| YouTube.NoTokensExactly | lib/Youtube.ts:44-47 | "No tokens found for user" is thrown exactly when the user has no row or no access token, before any call |
| YouTube.RefreshOnlyWhenExpired | lib/Youtube.ts:54-56 | a refresh is requested exactly when the stored expiry is set and earlier than now and the row holds a refresh token; a successful refresh writes the user row before the insert request |
| YouTube.RefreshFailureStops | lib/Youtube.ts:54-56 | a due refresh that fails (no refresh token, or Google refuses) is outside the `try`, so `uploadVideo` throws "Failed to refresh access token" unwrapped; no insert or thumbnail request follows, and the user and video tables are unchanged |
| YouTube.HasTokens | lib/Youtube.ts:44-47 | a user can publish only when some row with that id holds a non-empty access token; with unique ids, every such row lets the user publish |
| YouTube.Armed | lib/Youtube.ts:48-56 | the client gets the stored tokens and expiry; a token that is not due is used as it is, with nothing else changed; a due one is refreshed, and a failed refresh is "Failed to refresh access token" with the user table untouched |
| YouTube.UploadSucceedsExactly | lib/Youtube.ts:44-92 | `uploadVideo` returns an id exactly when the user has tokens, any due refresh succeeds, both files are on disk, the insert and the thumbnail succeed, and a video row has the path |
| YouTube.UploadSuccessEffects | lib/Youtube.ts:77-92 | on success the returned id is the inserted one, the row holds it with status "uploaded", and the last effects are insert, thumbnail and row update |
| YouTube.UploadKeepsUniqueKeys | lib/Youtube.ts:36-97 | `uploadVideo` keeps user ids and emails unique |
| YouTube.RefreshAccessToken | lib/Youtube.ts:12-34 | the method's result and new state are those of `RefreshSpec` |
| YouTube.Publish | lib/Youtube.ts:60-92 | the `try` block as a method: its result and new state are those of `PublishSpec` |
| YouTube.UploadVideo | lib/Youtube.ts:36-97 | the method's result and new state are those of `UploadSpec` |
| Auth.ExpiryClaim | lib/auth.ts:40 | `expires_at · 1000` when `expires_at` is truthy, so 0 maps to null; otherwise null |
| Auth.WithAccount | lib/auth.ts:37-40 | the token takes the account's access and refresh tokens and the expiry in milliseconds; subject and email are unchanged |
| Auth.Assign | lib/auth.ts:46-47 | a Prisma field given `undefined` keeps its stored value |
| Auth.Upsert | lib/auth.ts:43-57 | an existing email row gets the account's tokens (where present) and the update time; a new email creates a row with id = token.sub and no expiry; a new email whose sub is already an id is refused |
| Auth.JwtSpec | lib/auth.ts:36-60 | without an account the token and the store are unchanged; with one, the token is `WithAccount`; a refused upsert changes nothing |
| Auth.JwtStoresTokens | lib/auth.ts:43-57 | after a sign-in the row with that email holds the account's tokens and the update time; ids and emails stay unique; the sign-in fails exactly when the email is new and the sub is taken |
| Auth.JwtKeepsExpiry | lib/auth.ts:43-57 | a sign-in never changes a stored expiry date |
| Auth.SessionSpec | lib/auth.ts:61-69 | id, accessToken and refreshToken are copied only when they are strings, and expiryDate only when it is a number; name, email and image are unchanged; without `session.user` nothing changes |
| Auth.SignInThenSession | lib/auth.ts:36-69 | after a sign-in the session shows the subject, the account's tokens, and `expires_at · 1000` exactly when `expires_at` was truthy |
| Auth.Jwt | lib/auth.ts:36-60 | the method's token and new state are those of `JwtSpec` |
| GenerateRoute.Authorized | app/api/generateMetadata/route.ts:15-17 | a request passes exactly when the session has a user id and an access token that are both non-empty strings |
| GenerateRoute.SignedInAuthorized | app/api/generateMetadata/route.ts:15-17 | after a Google sign-in, the session lib/auth.ts builds passes exactly when the subject and the account's access token are non-empty |
| GenerateRoute.NoVideoRefused | app/api/generateMetadata/route.ts:28-30 | an authorized form without a `video` entry gets 400 "No video file uploaded" and changes nothing |
| GenerateRoute.UnreadableFormFails | app/api/generateMetadata/route.ts:91-94 | an authorized request whose body is not a readable form (line 24) gets 500 "Failed to process video: " and the parser's message, and changes nothing |
| GenerateRoute.ThumbnailName | lib/thumbnail.ts:12 | the thumbnail's file name is "thumb-" and the time stamp, with no `/` |
| GenerateRoute.ThumbnailFile | lib/thumbnail.ts:9-13 | the thumbnail file lies below `<cwd>/public` and ends in `.jpg` |
| GenerateRoute.ThumbnailUrl | lib/thumbnail.ts:24 | the returned URL starts with `/uploads/thumbnails/thumb-` and ends in `.jpg` |
| GenerateRoute.ThumbnailNaming | lib/thumbnail.ts:9-24 | the returned URL is the written file's path below `<cwd>/public`, and the URL, the file and the response all carry the same file name |
| GenerateRoute.FileName | app/api/generateMetadata/route.ts:36 | the staged name is the decimal time stamp, a dash, then the client's file name |
| GenerateRoute.StagedPath | app/api/generateMetadata/route.ts:36-38 | the video is written under the upload directory, as the time stamp, a dash and the client's file name |
| GenerateRoute.StagedBasename | app/api/generateMetadata/route.ts:36-38 | the base name of the staged path is that file name when the client's name has no `/` |
| GenerateRoute.ContextFor | app/api/generateMetadata/route.ts:51 | the context field when it is non-empty, otherwise the file name |
| GenerateRoute.CategoryOf | app/api/generateMetadata/route.ts:60-62 | a missing category becomes "Uncategorized"; a present one is kept |
| GenerateRoute.RecordSpec | app/api/generateMetadata/route.ts:58-90 | 200 exactly when generation succeeds, the database is up and no row has the path. The new row is then `PENDING` with the generated fields, and the body names both files by base name. A failed generation answers 500 "Failed to process video: " and its message; a refused write answers 500 "Failed to save video metadata to database"; either way nothing changes |
| GenerateRoute.PostSpec | app/api/generateMetadata/route.ts:14-95 | the handler never changes users or credentials |
| GenerateRoute.RejectionsWriteNothing | app/api/generateMetadata/route.ts:15-34 | 401 exactly without a session holding a user id and an access token; every 401 or 400 leaves the world unchanged; only admitted requests write |
| GenerateRoute.StageSpec | app/api/generateMetadata/route.ts:36-94 | once the checks pass, the handler answers 200 or 500, never 400 or 401, and never touches users or credentials. A failed write of the video answers 500 "Failed to process video: " and its message with nothing changed. A failed thumbnail answers 500 with only the staged video added. Otherwise exactly the staged video and the thumbnail file under `<cwd>/public/uploads/thumbnails` are added, and a 200 means a new `PENDING` row at the staged path whose thumbnail is the URL `generateThumbnail` returns |
| GenerateRoute.SizeLimit | app/api/generateMetadata/route.ts:32-34 | 400 exactly when the size exceeds 100·1024·1024, so exactly 100 MiB is accepted; a refusal writes nothing |
| GenerateRoute.ThumbnailFailureIsFatal | app/api/generateMetadata/route.ts:44-49 | a failed thumbnail gives 500 "Failed to process video: Failed to generate thumbnail". Metadata is not generated (the answer does not depend on the generator) and no row is created; only the video file was written |
| GenerateRoute.SuccessRecordsPendingVideo | app/api/generateMetadata/route.ts:51-90 | a 200 answer creates a `PENDING` row. The row holds the user, the metadata generated for the chosen context (within the bounds), the defaulted category and the thumbnail's URL. The body names the time-stamped video file and the thumbnail's file name. The staged video and the thumbnail file under `<cwd>/public/uploads/thumbnails` are on disk |
| GenerateRoute.DatabaseFailureKeepsFiles | app/api/generateMetadata/route.ts:64-81 | a refused database write gives 500 "Failed to save video metadata to database" and leaves the staged video and the thumbnail file on disk |
| GenerateRoute.Post | app/api/generateMetadata/route.ts:14-95 | the handler's response and new state are those of `PostSpec` |
| GenerateRoute.Record | app/api/generateMetadata/route.ts:51-90 | the handler's tail, once both files are on disk: its response and new state are those of `RecordSpec` |
| UploadRoute.First | app/api/upload/route.ts:33-35 | `fields.key?.[0]` is present exactly when the field has a value, and is then its first value |
| UploadRoute.HashtagsOf | app/api/upload/route.ts:36 | an absent hashtags field gives the empty array; otherwise the result is `JSON.parse` of its first value |
| UploadRoute.Unlink | app/api/upload/route.ts:51-52 | `fs.unlink` removes exactly the named file, and fails when it is absent |
| UploadRoute.Received | app/api/upload/route.ts:16-30 | formidable writes the uploaded video to disk |
| UploadRoute.SignInAndReturn | app/api/upload/route.ts:56 | the link is the sign-in path with a `callbackUrl` parameter, and everything after `callbackUrl=` is unreserved characters or `%`, so the callback cannot add a parameter or a path segment |
| UploadRoute.EncodeUploadPath | app/api/upload/route.ts:56 | `encodeURIComponent("/api/upload")` escapes only the two slashes |
| UploadRoute.SignInAndReturnUrl | app/api/upload/route.ts:56 | the sign-in link is "/api/auth/signin?callbackUrl=%2Fapi%2Fupload" |
| UploadRoute.Complete | app/api/upload/route.ts:38 | a complete form has a video and a non-empty title, description and thumbnail; a form without a video is never complete |
| UploadRoute.Publish | app/api/upload/route.ts:42-50 | `uploadVideo` gets formidable's path and the form's fields; it touches no file; on success the row at that path holds the returned YouTube id with status "uploaded", and a failure leaves the video table unchanged |
| UploadRoute.AfterUpload | app/api/upload/route.ts:42-64 | "No tokens found for user" gives 200 with the sign-in link; any other error gives 500 "Failed to upload video". Success answers `{videoId, "Video uploaded successfully"}` exactly when both files exist and differ, and removes both. After a successful upload, a missing video file gives 500 with nothing removed, and a missing thumbnail file gives 500 after the video file was removed. Because the upload itself reads both files, the second case arises when the thumbnail field names the video's own path |
| UploadRoute.PostSpec | app/api/upload/route.ts:10-65 | the answer is 200, 400, 401 or 500; only an authorized, complete form with parseable hashtags can change the video table; the only file the handler can add is the received video |
| UploadRoute.UnauthorizedExactly | app/api/upload/route.ts:11-14 | 401 exactly without a session holding a user id, and then nothing changes |
| UploadRoute.UnreadableUploadFails | app/api/upload/route.ts:20-63 | an authorized request that formidable rejects, or whose `hashtags` field is not JSON, gets 500 "Failed to upload video" before `uploadVideo` runs; at most the received video has been written |
| UploadRoute.MissingFieldsRefused | app/api/upload/route.ts:38-40 | when the hashtags field parses (line 36 runs first; a field that does not parse gives 500), a missing or empty video, title, description or thumbnail gives 400 "Missing required fields"; nothing is published and the received video stays on disk |
| UploadRoute.NoTokensRedirects | app/api/upload/route.ts:54-58 | a user without tokens gets 200 with the sign-in link back to the upload endpoint |
| UploadRoute.OtherFailuresRemoveNothing | app/api/upload/route.ts:59-64 | any other failure of `uploadVideo` gives 500 "Failed to upload video" and removes no file |
| UploadRoute.SuccessRemovesBothFiles | app/api/upload/route.ts:42-53 | a success answers 200 with the inserted id, and both files are gone; the row holds the YouTube id; the thumbnail field named a file already on disk, other than the received video |
| UploadRoute.MissingThumbnailFails | lib/Youtube.ts:77-80 | when the thumbnail field names no file on disk, the upload cannot succeed: no 200 with a video id, the video table is unchanged, and the received video stays |
| UploadRoute.UnknownPathFailsAfterPublishing | app/api/upload/route.ts:42-50 | when no video row has formidable's path, the request fails with 500 even though the video was inserted and its thumbnail requested |
| UploadRoute.Post | app/api/upload/route.ts:10-65 | the handler's response and new state are those of `PostSpec` |

Notes on the behaviour the model captures:

- The two routes do not share a video path. `POST /api/generateMetadata`
  records the row under the path it staged itself. `POST /api/upload` looks
  the row up under the path formidable chose. When these differ,
  `uploadVideo` has already published the video and requested its thumbnail
  before the row update fails, so the handler answers 500
  (`UploadRoute.UnknownPathFailsAfterPublishing`).
- `POST /api/generateMetadata` answers the thumbnail's bare file name, while
  the file lies under `<cwd>/public/uploads/thumbnails`. An upload whose
  `thumbnail` field holds that bare name names no file on disk, so
  `thumbnails.set` fails and the handler answers 500
  (`UploadRoute.MissingThumbnailFails`).
- `lib/grok.ts` rewraps every provider error without its status, so a
  rate-limit or client error is retried until the third attempt.
  `lib/openai.ts` keeps the status and stops at once on a non-429 error.
- `String.prototype.replace` expands `$` patterns in the context text, so a
  context holding `$&`, `` $` `` or `$'` is not inserted verbatim
  (`Grok.PromptDollarAmpersand`).

Behaviour of the code worth knowing:

- A thumbnail failure is fatal in `POST /api/generateMetadata`.
- No path removes scratch files except a successful upload.
- The video row's status becomes "uploaded" (lower case), and no failure
  status is ever written.
- A user without tokens gets status 200, not 401.
- A rejected upload leaves the row as it was.

## Left out

- Network, disk and database I/O are parameters or state fields, not real
  calls:
  - the Groq chat endpoint (its answer to each attempt);
  - `JSON.parse` (a partial function);
  - the embedding model and the Pinecone index (the matches, or an error,
    for a context);
  - Google's token refresh, `videos.insert` and `thumbnails.set` (their
    answers);
  - formidable (its parse result and the path it wrote);
  - `generateThumbnail` (the `Date.now()` it reads, or its error). The model
    keeps the file it writes, `<cwd>/public/uploads/thumbnails/thumb-<time>.jpg`,
    apart from the URL it returns, `/uploads/thumbnails/thumb-<time>.jpg`.
    The frame extraction itself is not modelled;
  - `Date.now()`.
- `console` logging, the `setTimeout` sleeps (recorded as a list of waits)
  and the Groq client's construction are left out.
- String lengths are counted in characters, while zod's `max` counts
  UTF-16 code units. A title with characters outside the Basic Multilingual
  Plane is therefore checked against a different count.
- The text of zod's error (a serialised issue list) is represented by one
  fixed message. Likewise, the message of a rethrown value that is not an
  `Error` is not modelled.
- `path.join` and `tmpdir()` are modelled as "directory + `/` + name". The
  normalisation of `..`, `.` and repeated slashes is not modelled.
- The module-level OAuth client is shared by concurrent requests. The model
  runs each request alone.
- `Auth.JwtSpec`: the `token.email!` and `token.sub!` assertions are stated
  as a precondition of a sign-in with an account. A refused upsert is
  modelled as a failure without Prisma's message.
- `Auth.Upsert` sets `updatedAt` on a created row at creation time. The
  Prisma schema, which would say so, is not part of this model.
- `YouTube.RefreshSpec` does not distinguish `null` from `undefined` in the
  refreshed credentials. A missing expiry is stored as none.
- `YouTube.PublishSpec`: a successful insert is assumed to return an id.
  The only failure of the row update modelled is a missing row.
- `GenerateRoute.RecordSpec`: only two database failures are modelled, a
  flag and a duplicate file path. Foreign-key failures are not.
- `GenerateRoute.PostSpec` takes the session's user object as given. A
  session without a `user` object, which would crash the handler, is not
  modelled.
- `OpenAi.MatchMetadata` types each retrieved record's metadata as four
  strings. The code reads it untyped (`as any`), so a missing or non-string
  field would render as `undefined` or throw; that is not modelled.
- `UploadRoute.PostSpec` also takes the session's user object as given. The
  handler reads `session.user.id` without optional chaining, so a session
  without a `user` object would crash it; that case is not modelled.
- A failing `prisma.user.findUnique` (lib/Youtube.ts lines 14 and 44, and
  lib/auth.ts line 44) is not modelled: the lookup always answers from the
  `User` table.
- `UploadRoute.Received`: formidable's partial writes on a parse error are
  not modelled, and neither is its file naming.
