# Public feedback portal: comment store and access gate

This project models the core of a small feedback portal in Dafny. Users submit
comments tagged to a topic. A trusted backend later attaches a sentiment verdict
to each comment through a privileged update guarded by a shared secret. The
browser script renders comments with escaped HTML and a sentiment badge.

The Express handlers and SQL of `server.js` become pure functions over an
immutable `Store` (a `map<nat, Comment>` plus the next AUTOINCREMENT id). The
create and update handlers return a `Result` (`Ok(Comment)` or
`Err(Forbidden | BadRequest(msg) | NotFound | TypeError)`) together with the new
store; the list handler reads the store and returns the selected rows as a
`seq<Comment>`. The two pure string functions of
`public/app.js` become `seq<char>` functions with lemmas about them.

Modules, one per concern:

- `Wrappers`: `Option` and `Result`.
- `JsText`: JSON request values, JavaScript truthiness, `trim` (with the
  ECMAScript whitespace set) and `toLowerCase` (on ASCII letters).
- `AccessGate`: `requireServiceKey`.
- `Model`: the `Comment` record, the `Store`, the store invariant `Valid`, and the
  error variants with their status codes and messages.
- `CreateComment`: POST `/api/comments`.
- `SentimentPatch`: PATCH `/api/comments/:id/sentiment`.
- `Listing`: GET `/api/comments`.
- `Escape`: `escapeHtml`, its per-character reference definition and its inverse.
- `Display`: `badgeClass` and the `author_name || 'Anonymous'` fallback.
- `Scenario`: a whole lifecycle from submission to analysed listing.

Where the code is more permissive or more particular than its stated design, the model
follows the code:

- A `is_analyzed` query string other than "true" (in any case) selects the unanalysed
  rows; only a missing, repeated or nested parameter lists everything.
- Rows with equal `created_at` may come in any order.
- A PATCH may move a row back from analysed to pending.
- An `author_name` that is neither a string nor null/absent makes the handler call
  `trim` on a non-string, and the uncaught TypeError becomes a 500 response with no row inserted.
- Likewise a PATCH whose `sentiment_confidence` or `is_analyzed` is an object that `Number()`
  or `String()` cannot convert throws once the earlier checks pass, a 500 with no row updated.

## Model

| member | source | states |
|---|---|---|
| AccessGate.ConfiguredSecret | server.js:14 | An unset BACKEND_SERVICE_KEY becomes the empty secret; a set one is used as is |
| AccessGate.Authorize | server.js:20-26 | A request passes iff the secret is non-empty and the `x-service-key` header is present and exactly equal to it |
| AccessGate.FailsClosed | server.js:21-22 | With no secret configured every request is denied, with or without a header |
| AccessGate.CaseSensitive | server.js:22 | The key comparison is exact: a case variant, a wrong key and a missing header are refused |
| JsText.Falsy | server.js:43 | Every falsy request value is also a non-string or a blank string, so the `!text` test adds nothing to the type and `trim` tests after it |
| JsText.Trim | server.js:43 | `trim` returns a string with no whitespace at either end, empty exactly when the input is all whitespace, and found in the input between a run of leading whitespace (the one `TrimStart` drops) and a run of trailing whitespace |
| JsText.Lower | server.js:83 | `toLowerCase` keeps the length and maps every character on its own, A-Z to a-z and everything else to itself |
| JsText.TrimIdempotent | server.js:54 | Trimming a trimmed string changes nothing |
| JsText.LowerNormalises | server.js:33 | Lower-casing leaves no upper-case letter and keeps lower-case text unchanged |
| Model.ParseSentiment | server.js:63-68 | A result string is accepted iff it is one of the four exact lower-case names, and it then reads as the sentiment of that name |
| Model.ParseName | server.js:63 | Every sentiment reads back from its own name, which is in the accepted list |
| Model.Valid | src/db.js:11-20 | The store invariant (each row under its own id, ids from 1 below the next id, confidence in [0, 1]) leaves the next id and 0 unused |
| Model.StatusCode | server.js:23-95 | Forbidden is sent as 403, a refused body as 400, an unknown id as 404, and only the uncaught exception as a 5xx (500) |
| Model.ErrorMessage | server.js:23-95 | Every refusal carries an `error` text, a refused body its own message; only the uncaught exception has none |
| Model.EmptyStoreValid | src/db.js:11-20 | A fresh table (no rows, ids starting at 1) satisfies the store invariant |
| CreateComment.Missing | server.js:43-48 | A required field passes the guard iff it is a string with a non-whitespace character |
| CreateComment.NormaliseAuthor | server.js:54 | An absent or null author is null; a string author is trimmed, and null if nothing is left; any other value throws |
| CreateComment.Create | server.js:41-57 | Missing text is refused first, then missing topic, then an author that is neither a string nor absent/null throws (TypeError), each with the store unchanged; on success the row stored under `nextId` has trimmed text and topic, the normalised author, pending/0/false and the given timestamp |
| CreateComment.CreateAddsOneFreshRow | server.js:49-56 | A successful create adds exactly one row, under an id not used before, and leaves every other row unchanged |
| CreateComment.CreatePreservesValid | server.js:43-56 | Creating keeps every row keyed, fresh-id-bounded and well formed |
| CreateComment.BlankFieldsRefused | server.js:43-48 | Whitespace-only text is refused whatever the topic; whitespace-only topic is refused when the text is fine; the store is unchanged |
| CreateComment.NonStringTextRefused | server.js:42-44 | A body without a string text, including no body at all, is refused as missing text |
| SentimentPatch.CoerceFlag | server.js:82-86 | A boolean `is_analyzed` is kept; a string, or the `String()` text of an array or object, is true iff it lower-cases to "true"; null and numbers are false; an object `String()` cannot convert gives no flag (the throw) and nothing else does |
| SentimentPatch.Validate | server.js:63-89 | Checks run in order (result, confidence conversion and range, flag conversion, at least one field); a throwing `Number()` or `String()` is a TypeError, the rest are refusals with their message; on success exactly the present fields are set, to the parsed result, the confidence and the coerced flag |
| SentimentPatch.ValidatedConfidenceInRange | server.js:74-80 | A confidence that passes the check lies in [0, 1] |
| SentimentPatch.Apply | server.js:91-93 | Each field the update supplies takes its new value in the row |
| SentimentPatch.ApplyChangesOnlySupplied | server.js:91-93 | The fields an update does not supply keep their values; id, text, author, topic and timestamp are never touched |
| SentimentPatch.ApplyIdempotent | server.js:92-93 | Applying the same update twice gives the row of applying it once |
| SentimentPatch.Patch | server.js:59-99 | Gate first (Forbidden), then validation (BadRequest, or TypeError for a conversion that throws), then lookup (NotFound), all with the store unchanged; on success only the addressed row is replaced by the updated row, which is returned |
| SentimentPatch.DeniedChangesNothing | server.js:20-26 | A denied request answers Forbidden and leaves the store as it was, with the same answer for every id and body |
| SentimentPatch.ValidationPrecedesLookup | server.js:63-96 | An invalid body gets the same BadRequest or TypeError for an unknown id as for a known one, never NotFound |
| SentimentPatch.FlagThrowPrecedesUpdate | server.js:82-93 | An unconvertible `is_analyzed` after passing result and confidence checks answers TypeError with the store unchanged, for any id |
| SentimentPatch.PatchTouchesOneRow | server.js:91-98 | A successful update keeps the key set and `nextId`, and changes no row other than the addressed one |
| SentimentPatch.PatchIdempotent | server.js:91-93 | Sending the same request twice leaves the same store as sending it once |
| SentimentPatch.PatchPreservesValid | server.js:74-93 | The update keeps the store invariant, confidence in [0, 1] included |
| SentimentPatch.BackwardTransitionAllowed | server.js:63-86 | An analysed positive row can be reset to pending and unanalysed |
| SentimentPatch.FlagCoercionExamples | server.js:83 | `true` and "TRUE" give true; "yes", "false", false and numbers give false; an unconvertible object gives no flag |
| SentimentPatch.ValidationExamples | server.js:67-89 | "ecstatic", "Positive", 1.5, a non-finite number and an empty body are refused, the result error first; an unconvertible flag throws only after result and confidence pass |
| Listing.AnalyzedFilter | server.js:30-37 | A string parameter filters on "true" in any case versus anything else; any other parameter does not filter |
| Listing.FilterAgreesWithCoercion | server.js:33 | The list filter reads a string by the same rule as the update's `is_analyzed` coercion |
| Listing.List | server.js:29-39 | The answer holds exactly the stored rows the filter selects, each once, newest first |
| Listing.FilterExamples | server.js:32-36 | "TRUE" keeps analysed rows, "yes" and "false" keep unanalysed ones, no or non-string parameter keeps all |
| Escape.ReplaceAll | public/app.js:48-52 | `replaceAll` with a one-character pattern and a non-empty replacement never shortens the text |
| Escape.EscapeHtml | public/app.js:46-53 | `escapeHtml` escapes each character on its own: its output is the per-character escape of the input |
| Escape.ReplaceChainIsPerCharacter | public/app.js:46-53 | The five sequential `replaceAll`s equal escaping each character on its own |
| Escape.ReplaceChainChar | public/app.js:48-52 | On one character the chain yields that character's entity, or the character itself |
| Escape.AmpersandOrderMatters | public/app.js:48-52 | Replacing `&` after any of `<`, `>`, `"` and `'` would escape that character twice ("&amp;lt;" and so on); the chain as written escapes it once |
| Escape.EscapedHasNoMarkup | public/app.js:49-52 | The output contains none of `<`, `>`, `"` and `'` |
| Escape.EscapedAmpersandsAreEntities | public/app.js:48-52 | Every `&` of the output starts `&amp;`, `&lt;`, `&gt;`, `&quot;` or `&#39;` |
| Escape.EscapeIdentity | public/app.js:47-52 | Text without the five special characters is returned unchanged |
| Escape.EscapeNeverShorter | public/app.js:47-52 | The output is never shorter than the input |
| Escape.UnescapeEscape | public/app.js:46-53 | Reading the entities back recovers the input, so escaping is injective |
| Escape.ReplaceAllAppend | public/app.js:48 | `replaceAll` with a one-character pattern distributes over concatenation |
| Display.BadgeClass | public/app.js:10-14 | The class is "badge " plus one of the four sentiment names; empty or unknown text is pending, and a known verdict in any case is its lower-case name |
| Display.BadgeCaseInsensitive | public/app.js:12 | Lower-casing the input first does not change the class |
| Display.BadgeOfStoredSentiment | public/app.js:13 | Every sentiment the server stores gets the badge of its own name |
| Display.BadgeUpperCase | public/app.js:12-13 | "NEGATIVE" gives "badge negative" |
| Display.BadgeUnknown | public/app.js:11-13 | "ecstatic" and the empty string give "badge pending" |
| Display.DisplayName | public/app.js:32 | The shown name is the author when non-empty and "Anonymous" otherwise, never empty |
| Display.StoredAuthorShown | public/app.js:32 | For a stored row the fallback is used exactly when there is no author |
| Display.SubmittedAuthorShown | public/app.js:32 | A created row shows the trimmed submitted name, or "Anonymous" when it was missing or blank |
| Scenario.AnalysisListed | server.js:59-98 | The right key with a positive/0.9/true body updates a stored row, keeps the store valid, and every analysed listing then contains it |
| Scenario.Lifecycle | server.js:41-99 | A non-blank submission is stored pending and unanalysed, a wrong key is refused with no change, and the right key's update succeeds |

## Left out

- Express plumbing (CORS, the JSON body parser, static files, `listen`) is not modelled; HTTP statuses and error bodies appear only as the error variants, `Model.StatusCode` and `Model.ErrorMessage`. The success statuses (201 for create, 200 otherwise) are not modelled.
- better-sqlite3 and the SQL text are replaced by the map and the `nextId` counter. Id freshness stands in for AUTOINCREMENT. 64-bit row ids are unbounded `nat`s.
- `src/db.js` (database handle, dotenv, file path, DDL) is configuration and I/O. Its column constraints appear only as the store invariant `Model.Valid`.
- `new Date().toISOString()` is replaced by a `now: nat` argument. ISO strings of one format sort as their instants, so `created_at` is a number.
- The `:id` path segment is taken as an integer. SQLite's conversion of the text to an integer is not modelled; a segment naming no row gives NotFound in both.
- `Number()` coercion of `sentiment_confidence` is not modelled. The body carries its result as `Finite(x)`, `NotFinite` or `Throws`, and floating-point confidence is a `real`.
- JsText.Lower: models `toLowerCase` on ASCII letters only. Its results are only compared with ASCII words ("true", the sentiment names). Only two non-ASCII characters lower-case to something holding an ASCII letter: U+0130 becomes "i" followed by the combining dot U+0307, and the Kelvin sign U+212A becomes "k". No such word holds U+0307 or a "k", so a string with a non-ASCII character matches none of them under either mapping, and the comparisons come out the same.
- `String()` of arrays and objects is passed in as `Composite(rendering)`, with `None` for an object (possibly nested in an array) whose conversion throws; how the text is built is not modelled. `String()` of a number is never "true", so numbers coerce to false without a number-to-text function.
- JavaScript strings are UTF-16; Dafny `char` is a Unicode scalar value, so lone surrogates are not modelled.
- `badgeClass` takes the stored `sentiment_result`, which is always a string, so its falsy input is the empty string; non-string inputs are not modelled.
- The `x-service-key` header is one optional string. Express's case-insensitive header lookup and repeated headers are not modelled.
- `fetchJSON`, `renderTopics`, `renderComments`, `loadComments`, `main`, form wiring and `setTimeout` are browser I/O and are not modelled.
- Concurrent requests ("last write wins" on one id) are not modelled; the model is sequential.
- Listing.List: the order among rows with equal `created_at` is left open, as in SQLite's `ORDER BY created_at DESC`.
- Listing.List: requires `Model.Keyed` (every row filed under its own id). Every store the handlers build satisfies it, and a map that broke it would match no table.
