# Textbook OCR: verified model of the server side

A Dafny model of the server side of a small Remix application. A logged-in
user photographs a textbook page, the server sends the image to Google Cloud
Vision for OCR, turns the recognised text into Markdown, stores the result
in SQLite and lets the user download the Markdown and the image as a ZIP
archive. The model covers:

- `Markdown` (markdown.dfy): the OCR-text to Markdown converter, a loop over
  the line-feed-separated lines that classifies each line (blank, heading of
  level 1 to 3, bullet, numbered item, paragraph) with one `inList` flag.
  The loop method `ConvertToMarkdown` is proved equal to `Format`, the
  concatenation of one fragment per line, and the classification rules are
  proved about `Format`.
- `Vision` (vision.dfy): the data-URL prefix strip and the effects of
  `processImageWithVision` and `storeOCRResult` (image write, Vision call,
  row insert), both as a trace of events and as a method over an image
  directory and the result table; `EffectsReplayed` shows that the method's
  new directory and rows are the trace carried out in order.
- `ResultStore` (store.dfy): the `ocr_results` table as a class over a row
  sequence with SQLite's AUTOINCREMENT counter, its queries and deletion.
- `AuthGuard` (auth.dfy): the parsing of the `Cookie` header with
  `split`/`Object.fromEntries` semantics and the two guards built on it.
- `OcrRoute`, `LoginRoute` and `DownloadRoute` (ocr_route.dfy, login.dfy,
  download.dfy): the guard chains of the three API routes as functions from
  a request to a response; the download route also as a method that builds
  the archive by successive appends.
- `Secrets` (secrets.dfy): the generators of scripts/init-secrets.js and
  its replace-or-append rewrite of the `.env` file.
- `Text`, `Http`, `Wrappers` (text.dfy, http.dfy, wrappers.dfy): the
  JavaScript string operations the code uses (`split`, `trim`, `\s`, `\w`,
  `startsWith`, `includes`), JSON values with JavaScript truthiness, and an
  `Option` type.

Strings are sequences of UTF-16 code units, so lengths are JavaScript's
`length`. The Vision HTTP call, the file system, uuid, the clock, random
bytes, bcrypt and the JSON Web Token functions are parameters.

Where the code and its documentation differ, the model follows the code:

- A Vision response without text is rethrown by `processImageWithVision` as
  "Failed to process image with OCR". The route therefore answers 500, not
  the 400 of its "No text detected" branch (`OcrRoute.PipelineAnswers`).
- A token that `verifyToken` maps to the empty username is falsy, so the
  request is unauthenticated (`AuthGuard.AuthenticatedIffVerified`).

## Model

| member | source | states |
|---|---|---|
| Text.TrimSpec | app/lib/visionService.ts:87 | `trim` removes exactly a leading and a trailing run of white space; what is left starts and ends with non-white space |
| Text.TrimTrailing | app/lib/visionService.ts:87 | everything after the trimmed text is white space |
| Text.TrimEmptyIffAllWs | app/lib/visionService.ts:90 | a line trims to the empty string exactly when it is all white space |
| Text.TrimIdempotent | app/lib/visionService.ts:100 | trimming an already trimmed line changes nothing |
| Text.JoinSplit | app/lib/visionService.ts:82 | joining the pieces of a `split` with its separator gives the input back |
| Text.SplitPiecesLackSeparator | app/lib/auth.guard.ts:16 | no piece of a `split` contains the separator |
| Text.SplitJoin | app/lib/auth.guard.ts:16 | splitting a join of separator-free pieces gives the pieces back, for a separator with no border |
| Markdown.ConvertToMarkdown | app/lib/visionService.ts:80-142 | the loop's result is `Format(text)`, one fragment per input line in order |
| Markdown.ConvertLine | app/lib/visionService.ts:86-139 | one loop iteration appends the fragment of line `i` for its class and sets `inList` as the class requires |
| Markdown.ConvertHeading | app/lib/visionService.ts:103-109 | a heading is emitted with the marker of its level, then the line and a blank line |
| Markdown.ConvertBodyLine | app/lib/visionService.ts:113-138 | a bullet, numbered or paragraph line is emitted with the list separators its class and `inList` call for |
| Markdown.FormatIsConcatOfFragments | app/lib/visionService.ts:82-141 | the output is the concatenation in input order of one fragment per line; there is at least one line, and the output ends with a line feed |
| Markdown.FragmentEndsWithNewline | app/lib/visionService.ts:89-138 | every line's fragment is non-empty and ends with a line feed |
| Markdown.RenderedIsConcat | app/lib/visionService.ts:86-139 | the text after `n` iterations is the concatenation of the first `n` fragments |
| Markdown.FormatOfEmptyText | app/lib/visionService.ts:82-94 | the empty text becomes a single line feed |
| Markdown.BlankLineFragment | app/lib/visionService.ts:89-94 | an all-white-space line emits exactly one line feed and closes any list |
| Markdown.HeadingCharacterization | app/lib/visionService.ts:97-101 | a line is a heading iff it is not blank, follows nothing or a blank line, is under 50 code units once trimmed, and precedes nothing, a blank line or a shorter trimmed line |
| Markdown.LongLineNeverHeading | app/lib/visionService.ts:99 | a trimmed line of 50 or more code units is never a heading |
| Markdown.HeadingOutsideList | app/lib/visionService.ts:84-111 | `inList` is false before and after every heading |
| Markdown.HeadingFragment | app/lib/visionService.ts:103-109 | `# ` iff a chapter, section or part marker; `## ` iff an enumerator that is not one; `### ` otherwise; the trimmed line and a blank line follow |
| Markdown.BulletFragment | app/lib/visionService.ts:114-121 | a bullet emits `- ` and the non-empty rest after its marker and white space, preceded by a line feed iff no list was open; a list is open afterwards |
| Markdown.NumberedFragment | app/lib/visionService.ts:124-131 | a numbered line is emitted trimmed and verbatim, preceded by a line feed iff no list was open; a list is open afterwards |
| Markdown.ParagraphFragment | app/lib/visionService.ts:134-138 | a paragraph line is emitted trimmed, preceded by a line feed iff a list was open; no list is open afterwards |
| Markdown.ListItemsStayTogether | app/lib/visionService.ts:114-131 | a bullet right after a bullet or numbered line gets no blank line before it |
| Markdown.ParagraphsOnlyVerbatim | app/lib/visionService.ts:86-139 | text of blank and paragraph lines only is emitted line by line, trimmed, with no markers and no extra blank lines |
| Markdown.NoListOpens | app/lib/visionService.ts:89-94 | blank and paragraph lines never open a list |
| Markdown.VerbatimFragment | app/lib/visionService.ts:134-138 | outside a list, a blank or paragraph line is emitted trimmed with one line feed and leaves no list open |
| Vision.StripDataUrlPrefix | app/lib/visionService.ts:24 | the stripped image is a suffix of the input |
| Vision.StripRemovesOnlyThePrefix | app/lib/visionService.ts:24 | what is removed is nothing or exactly one leading `data:image/<word chars>;base64,` |
| Vision.StripPrefixed | app/lib/visionService.ts:24 | such a prefix is removed once and the payload is kept whole |
| Vision.Process | app/lib/visionService.ts:21-73 | every failure is rethrown with the one message "Failed to process image with OCR"; effects already made stay; a success is returned unchanged |
| Vision.WriteBeforeCall | app/lib/visionService.ts:24-50 | the image is written under `<uuid>.png` right before Vision is called, and Vision gets the stripped data |
| Vision.WriteFailureStopsEarly | app/lib/visionService.ts:31 | a failed write makes no call and stores no row, and the pipeline throws |
| Vision.NoTextLeavesFileButNoRow | app/lib/visionService.ts:53-57 | a response without text leaves the written image but no row, and the pipeline throws |
| Vision.InsertFailureSwallowed | app/lib/visionService.ts:149-158 | a failed insert still returns the Markdown and the filename |
| Vision.SuccessShape | app/lib/visionService.ts:27-68 | on success the filename is the uuid plus `.png` and the Markdown is the converter's output for the detected text, ending in a line feed; a successful insert stores exactly these |
| Vision.ImageStore.Write | app/lib/visionService.ts:31 | writing creates or overwrites that one file with the data; afterwards `existsSync` finds it, and every other name exists exactly as before |
| Vision.StoreOCRResult | app/lib/visionService.ts:149-158 | a successful insert appends the row with the next id and advances the AUTOINCREMENT counter; a failed one leaves rows, counter and issued ids as they were |
| Vision.OutcomeOf | app/lib/visionService.ts:21-73 | the pipeline succeeds exactly when the write succeeds and Vision finds text; it then returns the converter's output and `<uuid>.png`, whether or not the insert succeeds, and otherwise throws the single failure message |
| Vision.EffectsReplayed | app/lib/visionService.ts:21-73 | carrying out the trace of `Process` on a directory and a table writes the stripped image under `<uuid>.png` unless the write fails, and adds one row with the next id exactly when text was detected and the insert succeeds |
| Vision.ProcessImageWithVision | app/lib/visionService.ts:21-73 | the outcome is the one `Vision.OutcomeOf` gives for `Process`; the new directory and rows are those `Vision.EffectsReplayed` gives for its trace; the AUTOINCREMENT counter and the issued ids grow exactly when a row is added, so no later insert reuses an id |
| ResultStore.ResultTable.constructor | app/lib/db.server.ts:16-23 | a new table has no rows and has issued no ids |
| ResultStore.ResultTable.Insert | app/lib/visionService.ts:151-154 | the new row gets an id above every id ever issued, deleted or not, and is appended; the ids stay unique and ascending |
| ResultStore.ResultTable.GetAll | app/lib/db.server.ts:29-31 | every row exactly once, ordered by created_at descending |
| ResultStore.ResultTable.GetById | app/lib/db.server.ts:38-40 | the row with that id if one exists, otherwise nothing |
| ResultStore.ResultTable.GetByFilename | app/lib/db.server.ts:47-51 | a row with that image filename if one exists, otherwise nothing |
| ResultStore.ResultTable.Delete | app/lib/db.server.ts:58-61 | true iff a row with the id existed; only that row is removed and the id counter stays |
| ResultStore.SortDesc | app/lib/db.server.ts:30 | the result is sorted by created_at descending and is a permutation of the rows |
| ResultStore.SortedDescPairwise | app/lib/db.server.ts:30 | in the sorted result every earlier row's created_at is at least every later one's |
| ResultStore.FindId | app/lib/db.server.ts:39 | a found row has the id and is in the table; nothing is found iff no row has the id |
| ResultStore.FindFilename | app/lib/db.server.ts:48-50 | the first row in rowid order with the filename, or nothing if no row has it |
| ResultStore.RemoveId | app/lib/db.server.ts:59 | exactly the rows with a different id remain |
| ResultStore.RemoveIdAscending | app/lib/db.server.ts:59 | deleting keeps the ids ascending |
| ResultStore.GetByIdUnique | app/lib/db.server.ts:17-22 | with unique ids, the row found by id is the one row with that id |
| ResultStore.DeleteRemovesExactly | app/lib/db.server.ts:58-61 | after a delete no row has the id, every other row is still there, and there are no more rows than before |
| AuthGuard.TokenOf | app/lib/auth.guard.ts:15-21 | a token is found only in a non-empty header, and only if it is non-empty |
| AuthGuard.FromEntriesLastWins | app/lib/auth.guard.ts:15-17 | `Object.fromEntries` keeps for each name the value of its last entry |
| AuthGuard.LastValueSkips | app/lib/auth.guard.ts:15-17 | entries after the last one with a name do not change its value |
| AuthGuard.NoCookieRejected | app/lib/auth.guard.ts:11-13 | with no or an empty Cookie header the API guard rejects and the page guard redirects to /login |
| AuthGuard.GuardsAgree | app/lib/auth.guard.ts:8-56 | the page guard returns `u` iff the API guard authenticates `u`; otherwise it redirects to /login |
| AuthGuard.AuthenticatedIffVerified | app/lib/auth.guard.ts:46-55 | authenticated as `u` iff the header carries a non-empty token that `verifyToken` maps to `u`, and `u` is non-empty |
| AuthGuard.TokenCookieEntry | app/lib/auth.guard.ts:16 | `token=<t>` splits into the name `token` and the value `t` when `t` has no `=` |
| AuthGuard.CookieValueTruncated | app/lib/auth.guard.ts:16 | a value is cut at its next `=` and the rest is dropped |
| AuthGuard.TokenCookieLacksSeparator | app/lib/auth.guard.ts:43 | `token=<t>` contains no `"; "` when `t` contains none |
| AuthGuard.LastTokenCookie | app/lib/auth.guard.ts:42-44 | the value stored under `token` is the one from the last cookie named `token` |
| AuthGuard.TokenRoundTrip | app/lib/auth.guard.ts:42-48 | a header with `token=<t>` followed only by cookies of other names yields `t`, for non-empty `t` without `=` and `"; "` |
| AuthGuard.LogoutCookieRejected | app/lib/auth.guard.ts:46-48 | the logout cookie `token=` as the last token cookie leaves the request unauthenticated |
| AuthGuard.JoinNonEmpty | app/lib/auth.guard.ts:38 | a header that contains a non-empty cookie is not the falsy empty header |
| OcrRoute.MapError | app/routes/api.ocr.ts:102-142 | 401 iff the message has "API key"; else 429 iff it has "quota"; else 400 iff it has "No text detected"; else 500 |
| OcrRoute.MethodCheckedFirst | app/routes/api.ocr.ts:12-20 | a non-POST request gets 405 whatever it holds and whatever the configuration, and the pipeline does not run |
| OcrRoute.AuthCheckedBeforeBody | app/routes/api.ocr.ts:24-33 | an unauthenticated POST gets 401 whatever its body |
| OcrRoute.MissingImageRefused | app/routes/api.ocr.ts:39-47 | an authenticated POST whose `image_base64` is missing or falsy gets 400 "Missing image_base64 in request body" and the pipeline does not run |
| OcrRoute.BadFormatRefused | app/routes/api.ocr.ts:39-62 | an authenticated POST whose image string fails the format test gets 400 "Invalid image format…" (or the missing-image 400 when it is empty), whatever its size and the key, and the pipeline does not run |
| OcrRoute.PipelineOnlyAfterGuards | app/routes/api.ocr.ts:24-91 | the pipeline has effects only if every guard passed |
| OcrRoute.PipelineAfterGuards | app/routes/api.ocr.ts:24-91 | once every guard has passed, the pipeline runs and writes the image unless the write fails |
| OcrRoute.GuardsReachImage | app/routes/api.ocr.ts:24-48 | once the method, authentication and body checks pass, the answer depends only on the image string, the key and the pipeline |
| OcrRoute.ImageGuards | app/routes/api.ocr.ts:50-91 | the pipeline runs on an image string only after the format, size and key checks pass |
| OcrRoute.UpperCaseKindRejected | app/routes/api.ocr.ts:50-52 | the format check is case-sensitive: `data:image/PNG;base64,` is rejected |
| OcrRoute.AcceptedKinds | app/routes/api.ocr.ts:50-52 | each of png, jpeg, jpg, gif and webp is accepted, whatever the payload |
| OcrRoute.AcceptedImageIsStripped | app/routes/api.ocr.ts:51 | an accepted image reaches Vision with exactly its accepted prefix removed |
| OcrRoute.SizeLimit | app/routes/api.ocr.ts:66 | for a well-formed image the answer is "too large" iff its whole length exceeds 10485760 |
| OcrRoute.UnconfiguredKeyRefused | app/routes/api.ocr.ts:77-88 | a missing or empty key, or the placeholder key, gives 500 and the pipeline does not run |
| OcrRoute.FailureMessageIsUnmatched | app/routes/api.ocr.ts:102-142 | the pipeline's single failure message maps to 500 "Failed to process OCR request" |
| OcrRoute.FailureMessageLacksKeywords | app/lib/visionService.ts:71 | the pipeline's failure message contains none of the three keywords |
| OcrRoute.PipelineAnswers | app/routes/api.ocr.ts:91-97 | once the pipeline runs, the answer is 200 with exactly its result or 500; the effects are the pipeline's |
| LoginRoute.Respond | app/routes/api.auth.login.ts:4-52 | a cookie is set iff the status is 200; then the request is a POST with truthy credentials that `authenticateUser` accepted, and the cookie is the session cookie for `generateToken(username)` |
| LoginRoute.AuthenticateUser | app/lib/auth.server.ts:59-68 | a username other than the configured one is rejected whatever the password |
| LoginRoute.MethodCheckedFirst | app/routes/api.auth.login.ts:5-7 | a non-POST request gets 405 and no cookie, whatever its body |
| LoginRoute.UnreadableBodyFails | app/routes/api.auth.login.ts:9-11 | a POST whose body is not JSON or is `null` gets 500 and no cookie |
| LoginRoute.FailedCheckFails | app/routes/api.auth.login.ts:22 | a credential check that throws gives 500 and no cookie |
| LoginRoute.AcceptedLogsIn | app/routes/api.auth.login.ts:14-44 | a POST with truthy credentials that `authenticateUser` accepts gets 200 with the session cookie for `generateToken(username)` |
| LoginRoute.RejectedGets401 | app/routes/api.auth.login.ts:22-29 | a POST with truthy credentials that `authenticateUser` rejects, for a wrong username or a wrong password, gets 401 and no cookie |
| LoginRoute.FailuresSetNoCookie | app/routes/api.auth.login.ts:5-51 | every 400, 401, 405 or 500 answer sets no cookie, and every answer without a cookie is one of them |
| LoginRoute.MissingCredentialsSkipAuthentication | app/routes/api.auth.login.ts:14-19 | a missing or empty username or password gives 400 whatever `authenticateUser` and `generateToken` do |
| LoginRoute.WrongUsernameRejected | app/routes/api.auth.login.ts:22-29 | a wrong username gives 401 with no cookie |
| LoginRoute.MaxAgeIsTokenLifetime | app/routes/api.auth.login.ts:38 | `Max-Age=604800` is the decimal form of 7·24·60·60, the token's "7d" lifetime |
| LoginRoute.SessionCookiePair | app/routes/api.auth.login.ts:36-39 | the first `"; "`-piece of the Set-Cookie header is `token=<token>` |
| LoginRoute.AttributesStartWithSeparator | app/routes/api.auth.login.ts:38 | the cookie attributes begin with the separator `"; "` |
| LoginRoute.LoginThenGuard | app/routes/api.auth.login.ts:38 | after a successful login, a later request carrying the token cookie is authenticated as the user `verifyToken` names |
| DownloadRoute.Download | app/routes/api.download-zip.ts:14-103 | the response is `Respond`'s; an archive is built iff the answer is the ZIP, and then it is new, finalized and holds exactly the response's entries |
| DownloadRoute.BuildArchive | app/routes/api.download-zip.ts:56-75 | the archive holds the Markdown entry then the image entry; a truthy non-string Markdown gives 500 and no archive |
| DownloadRoute.Archive.constructor | app/routes/api.download-zip.ts:61 | a new archive is empty and not finalized |
| DownloadRoute.Archive.Append | app/routes/api.download-zip.ts:68 | an append adds one entry at the end |
| DownloadRoute.Archive.Finalize | app/routes/api.download-zip.ts:75 | finalizing keeps the entries |
| DownloadRoute.MethodCheckedFirst | app/routes/api.download-zip.ts:15-20 | a non-POST request gets 405 whatever its body, the table and the image directory |
| DownloadRoute.ThrownErrorsFail | app/routes/api.download-zip.ts:22-101 | 500 "Failed to create ZIP file" iff the request is a POST and its body is not JSON or is `null`, or its truthy id cannot be bound, or its row and image exist but its truthy Markdown is not a string |
| DownloadRoute.FalsyIdRefused | app/routes/api.download-zip.ts:26-31 | a missing, null, false, 0 or "" id gives 400 |
| DownloadRoute.UnknownIdRefused | app/routes/api.download-zip.ts:34-40 | for a numeric id the answer is 404 "OCR result not found" iff no row has the id |
| DownloadRoute.ZipContents | app/routes/api.download-zip.ts:57-72 | a ZIP answer holds exactly `ocr-result-<id>.md` (the request's Markdown if truthy, else the stored text) then the row's image under its stored name, and is named `textbook-ocr-<id>-<now>.zip` |
| DownloadRoute.MissingImageRefused | app/routes/api.download-zip.ts:43-54 | a row whose image file is missing gives 404 "Image file not found" |
| Secrets.Hex | scripts/init-secrets.js:23 | two lower-case hexadecimal digits per byte |
| Secrets.HexRoundTrip | scripts/init-secrets.js:28 | reading the hexadecimal text back gives the bytes |
| Secrets.Base64Digit | scripts/init-secrets.js:17 | each six-bit value maps to a letter, a digit, `+` or `/`, never to `=` |
| Secrets.Base64 | scripts/init-secrets.js:17 | four characters per three bytes, rounded up, all from the base64 alphabet or `=` |
| Secrets.Base64RoundTrip | scripts/init-secrets.js:17 | decoding the base64 text, four characters at a time up to the padding, gives the bytes back |
| Secrets.DropSymbols | scripts/init-secrets.js:18 | the result holds the same characters as the input other than `+`, `/` and `=`, as a set, and is no longer |
| Secrets.DropSymbolsInOrder | scripts/init-secrets.js:18 | the removal goes character by character in order: a symbol disappears, any other character is kept in place, and it distributes over concatenation |
| Secrets.GeneratedValuesSingleLine | scripts/init-secrets.js:22-35 | the username from 4 bytes and the secret from 64 bytes contain no line feed; the values are single lines given that the bcrypt hash is |
| Secrets.GeneratePassword | scripts/init-secrets.js:14-20 | the password is at most `length` long and only letters and digits |
| Secrets.UsernameShape | scripts/init-secrets.js:22-25 | the username is `user_` and 8 hexadecimal digits that encode the 4 random bytes |
| Secrets.SecretShape | scripts/init-secrets.js:27-29 | the secret is 128 hexadecimal digits that encode the 64 random bytes |
| Secrets.Rewritten | scripts/init-secrets.js:50-64 | the `map` pass keeps the number of lines |
| Secrets.RewriteEnv | scripts/init-secrets.js:50-70 | the written text is `NewEnv(env, values)` |
| Secrets.RewriteLines | scripts/init-secrets.js:50-64 | the `map` pass rewrites every line, and each flag is set iff some line starts with its key |
| Secrets.KeysExclusive | scripts/init-secrets.js:51-62 | no line starts with two of the keys |
| Secrets.LinesInPlace | scripts/init-secrets.js:50-64 | a line with a key becomes that key and its new value; any other line stays unchanged and in place |
| Secrets.KeysAreSingleLine | scripts/init-secrets.js:51-61 | none of the three keys contains a line feed |
| Secrets.WrittenLines | scripts/init-secrets.js:70 | reading the written file back line by line gives exactly the new lines |
| Secrets.LineCount | scripts/init-secrets.js:50-68 | the new file has as many lines as the old one plus one per missing key |
| Secrets.KeyPresent | scripts/init-secrets.js:50-68 | after a rewrite each key is present, replaced in place or appended |
| Secrets.SecondRunAddsNoLines | scripts/init-secrets.js:50-70 | a second run adds no lines |
| Secrets.MissingFileLayout | scripts/init-secrets.js:38-70 | without a `.env`, the file is an empty line, then the username, password-hash and secret entries in that order |
| Secrets.PasswordLines | scripts/init-secrets.js:55-57 | a new line starting with `AUTH_PASSWORD=` holds the new hash |
| Secrets.PasswordLineHoldsHash | scripts/init-secrets.js:14-68 | for the script's 4, 16 and 64 random bytes, the written file has an `AUTH_PASSWORD=` line, and every such line holds the bcrypt hash of the generated password, not the password |

## Left out

- The React UI (app/components, app/routes/_index.tsx, the editor and login pages, app/entry.client.tsx): rendering and browser APIs. This includes the Markdown to HTML preview of OCRPreview.tsx and MarkdownEditor.tsx, which is display only and built on regular-expression replaces.
- The loaders of the editor and login pages: they repeat the cookie parse of the guards. The logout route only sets the constant cookie `token=`, which appears in `AuthGuard.LogoutCookieRejected`.
- app/lib/auth.server.ts is not part of this model beyond `AuthenticateUser`'s username check. `verifyToken`, `generateToken` and bcrypt's compare are parameters. `generateToken` is assumed not to throw.
- scripts/generate-password-hash.js: bcrypt and console output only.
- Secrets.PasswordLineHoldsHash: that the bcrypt hash contains no line feed is a precondition, since bcrypt is a parameter. The username and secret are proved single-line from their 4 and 64 bytes.
- I/O, the network, randomness and clocks: `writeFile`, the Vision HTTP request, uuid, `Date.now`, `toISOString`, `crypto.randomBytes`, `bcrypt.hashSync` and `readFileSync` are parameters. Console logging is left out.
- The image is stored as its base64 text, not decoded into bytes (`Buffer.from(…, "base64")`).
- Compression, the temporary ZIP file under storage/, and the streams are left out. The archive is the list of its entries. The wait for the output stream's "close" after `finalize` is treated as always resolving.
- Concurrency between requests: the table and the image directory are accessed by one request at a time.
- JSON numbers are integers. `JSON.parse`'s own error messages are a parameter of `Unparsable`, and the V8 `TypeError` messages for a `null` body and a non-string image are constants.
- DownloadRoute.Bind: SQLite's conversion of a text id to an integer is the parameter `textAsId`. Values that better-sqlite3 cannot bind (booleans, objects, arrays) are modelled as a thrown error and 500. better-sqlite3's spreading of an array id into several parameters is not modelled.
- DownloadRoute.MarkdownContent: a truthy Markdown that is not a string is modelled as the archiver throwing, giving 500; the archiver's handling of Buffers and streams is not modelled.
- ResultStore.ResultTable.Insert: ids are unbounded, so the AUTOINCREMENT failure at the maximum rowid is not modelled.
- ResultStore.LexLe: the order is that of UTF-16 code units. SQLite's BINARY collation compares UTF-8 bytes, which differs only for characters outside the Basic Multilingual Plane.
- ResultStore.ResultTable.GetByFilename: returns the first match in rowid order, SQLite's scan order for this table without an index.
- Text.Lit: literals hold only characters of the Basic Multilingual Plane. Each becomes one UTF-16 code unit.
