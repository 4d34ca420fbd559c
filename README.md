# Google Drive MCP server: search-query builder and content-read dispatch

This project models the two pieces of real logic in the server's `index.js`. Both sit inside the handlers of its two tools.

- **`gdrive_search`** (index.js:43-99). The handler trims the user's text. An empty result gives the query `trashed = false`. Otherwise it escapes backslashes and then single quotes, and builds the Drive `q` expression `(name contains '<escaped>'[ or mimeType = '…']) and trashed = false`. The mimeType condition is added when the lower-cased text contains `sheet`. The handler then sends `pageSize || 10` and renders the `files.list` reply as `Found N files:` and one `id name (mimeType)` line per file. A continuation note follows when the reply carries a truthy `nextPageToken`.
- **`gdrive_read_file`** (index.js:109-171). A file whose MIME type starts with `application/vnd.google-apps` is exported. The format comes from a `switch` over the native sub-type, with a plain-text default arm. Any other file is downloaded raw, and a missing or empty MIME type becomes `application/octet-stream`. The bytes are rendered as UTF-8 when the type starts with `text/` or is `application/json`, and as base64 otherwise. Every reply starts with `Contents of <name || fileId>:` and a blank line.

Modules:

- `Wrappers`: an `Option` for JavaScript values that may be `undefined`.
- `JsString`: the JavaScript string operations the handlers use.
  - `trim`, with every ECMAScript white-space and line-terminator character written out.
  - `toLowerCase` (ASCII), `includes`, `startsWith` and `join`.
  - The decimal printing of a count, with its reader.
  - `Split`, the reader that recovers lines from a joined text.
- `Escaping`: the two `replace` steps; `Unescape`, their inverse; and `ScanLiteral`, the reader of a quoted literal in Drive's query language. In that language `\x` stands for `x` and the first unescaped `'` closes the literal.
- `Search`: the query builder, the page-size default and the response text.
- `ReadFile`: the native-kind classifier, the export table, the download-encoding choice and the reply text.

The Drive calls are inputs, not code:
- `files.list` becomes a `FileListResponse` value.
- `files.get` metadata becomes a `FileMetadata` value.
- An export becomes a function from export format to text.
- A raw download becomes a byte sequence.

The UTF-8 and base64 renderings of bytes are function parameters.

## Model

Functions that stand for a source span have rows of their own. Their "states" cell names the lemma that proves the function's property.

| member | source | states |
|---|---|---|
| `JsString.StartsWith` | index.js:117 | `s.startsWith(p)`: `s` begins with `p`. It is used by `ReadFile.IsNative` and `ReadFile.IsText`, whose properties are `ReadFile.ExportExactlyForNative` and `ReadFile.DownloadEncodingIff`. |
| `JsString.Contains` | index.js:63 | `s.includes(t)`. `JsString.ContainsIff` proves it holds exactly when `t` occurs at some index. |
| `JsString.Join` | index.js:69 | `parts.join(sep)`. `Search.ConditionsShape` gives its result for one and two conditions, and `JsString.SplitJoin` shows single-line parts are recovered from it. |
| `Escaping.DoubleBackslashes` | index.js:53 | `.replace(/\\/g, "\\\\")`. `Escaping.EscapeCons` states its per-character effect together with the next step. |
| `Escaping.EscapeQuotes` | index.js:54 | `.replace(/'/g, "\\'")`. `Escaping.EscapeCons` states its per-character effect after the first step. |
| `Escaping.Escape` | index.js:52-54 | The two steps in the source's order. `Escaping.UnescapeEscape`, `Escaping.QuotesAreEscaped` and `Escaping.LiteralClosesAtQuote` give its properties, and `Escaping.QuotesFirstClosesEarly` shows why the order matters. |
| `Search.NameCondition` | index.js:60 | `name contains '<escaped>'`. `Search.NameConditionReadsBack` proves that, wherever it stands, its literal reads as exactly the user's text. |
| `Search.MentionsSheet` | index.js:63 | `userQuery.toLowerCase().includes("sheet")`. `Search.ConditionsShape` shows it decides whether a second condition exists. |
| `Search.MimeCondition` | index.js:64-66 | The pushed `mimeType = '…'` condition. The MIME type it names is `Search.SheetConditionMime` as written; see `Search.SheetConditionIsNotSpreadsheet`. |
| `Search.Conditions` | index.js:57-67 | The `conditions` array after the pushes. Its shape is `Search.ConditionsShape`. |
| `Search.QueryWith` | index.js:44-70 | The `q` expression for a given sheet-condition MIME type. Its properties are `Search.EmptyQueryListsAllUntrashed`, `Search.QueryShape` and `Search.NameLiteralReadsBack`, for any MIME type. |
| `Search.SearchQuery` | index.js:44-70 | The `q` expression as written, `QueryWith` with the source's sheet MIME type. `Search.BuildSearchQuery` computes it step by step and `Search.SearchQueryStart` states its start. |
| `Search.PageSize` | index.js:74 | The `pageSize` default at index.js:74: the caller's value when truthy, otherwise 10. Its property is `Search.PageSizeDefault`. |
| `Search.FileLine` | index.js:81 | `${file.id} ${file.name} (${file.mimeType})`, with an absent field printed as `undefined`. `Search.FileLines` applies it to each file. |
| `Search.Listing` | index.js:80-82 | `fileList`: the joined lines, or `undefined` when `files` is absent. `Search.ResponseLines` and `Search.AbsentListPrintsUndefined` give its lines. |
| `Search.FileCount` | index.js:84 | `res.data.files?.length ?? 0`. `Search.CountLineReadsBack` states it. |
| `Search.CountLine` | index.js:84 | `Found ${…} files:`. Its property is `Search.CountLineReadsBack`. |
| `Search.HasMore` | index.js:87 | `if (res.data.nextPageToken)`: present and non-empty. `Search.ResponseLines` shows the note appears exactly when it holds. |
| `Search.MoreNote` | index.js:87-89 | The suffix appended when the token is truthy. `Search.ResponseLines` gives its lines. |
| `Search.ResponseText` | index.js:80-89 | The `response` text. Its line structure is `Search.ResponseLines`, and its count is `Search.CountLineReadsBack`. |
| `ReadFile.IsNative` | index.js:117 | `file.data.mimeType?.startsWith("application/vnd.google-apps")`. `ReadFile.ExportExactlyForNative` proves export happens exactly when it holds. |
| `ReadFile.NativeKindOf` | index.js:119-134 | The `switch` on the MIME type. `ReadFile.NativeKindOfLabels` ties it to the case labels. |
| `ReadFile.ExportTarget` | index.js:119-134 | `exportMimeType` in each arm. Its table is `ReadFile.ExportTargetTable`. |
| `ReadFile.DownloadMime` | index.js:156 | The MIME type after the `application/octet-stream` fallback for an absent or empty one. `ReadFile.MissingMimeIsBase64` covers the fallback. |
| `ReadFile.IsText` | index.js:157-158 | `isText`. `ReadFile.DownloadEncodingIff` proves UTF-8 is chosen exactly when it holds. |
| `ReadFile.PlanFor` | index.js:117-166 | Export with the switch's format, or download with the fallback type and its encoding. Its properties are `ReadFile.ExportExactlyForNative`, `ReadFile.DownloadEncodingIff` and `ReadFile.MissingMimeIsBase64`. |
| `ReadFile.DisplayName` | index.js:145 | The name, or the file id when the name is absent or empty. `ReadFile.ContentsTextShape` states it. |
| `ReadFile.ContentsText` | index.js:141-170 | The text either branch returns. Its shape is `ReadFile.ContentsTextShape`, and `ReadFile.SpreadsheetReadsAsCsv` gives one instance. |
| `JsString.Trim` | index.js:44 | The result is a slice of the input with only trimmable characters on both sides. It neither starts nor ends with a trimmable character. It is empty exactly when every input character is one `trim` removes. |
| `JsString.ToLower` | index.js:63 | The result has the input's length and folds each character separately. |
| `JsString.ContainsIff` | index.js:63 | `includes` holds exactly when the pattern occurs at some index. |
| `JsString.NatToDecimal` | index.js:84 | The count prints as at least one digit, with a leading `0` only for zero. |
| `JsString.DecimalRoundTrip` | index.js:84 | Reading the printed digits back gives the count. |
| `JsString.JoinSplit` | index.js:80-82 | Splitting at a separator gives pieces without it, and joining them with it restores the text. |
| `JsString.SplitJoin` | index.js:80-82 | Lines without the separator, joined with it and split again, come back unchanged and in order. |
| `Escaping.EscapeCons` | index.js:52-54 | The two global replacements act character by character: `\` becomes `\\`, `'` becomes `\'`, and all else is kept. |
| `Escaping.UnescapeEscape` | index.js:52-54 | Unescaping the escaped text gives back the text exactly. |
| `Escaping.QuotesAreEscaped` | index.js:52-60 | Every `'` in the escaped text has a backslash right before it. |
| `Escaping.LiteralClosesAtQuote` | index.js:52-60 | A literal made of the escaped text and a closing `'` reads as exactly the original text. It closes at that quote, and what follows is left intact. |
| `Escaping.QuotesFirstClosesEarly` | index.js:52-54 | With the two steps swapped, the text `'` yields a literal that reads as `\` and closes early, so the order matters. |
| `Search.BuildSearchQuery` | index.js:44-70 | The step-by-step construction (`searchQuery` assigned in branches, `conditions` grown by `push`) yields the specified query. That query is `trashed = false` for an empty trimmed text and otherwise starts with `(` and the name condition. |
| `Search.SearchQueryStart` | index.js:44-70 | The query is `trashed = false` when the trimmed text is empty. Otherwise it begins with `(name contains '<escaped>'`. |
| `Search.EmptyQueryListsAllUntrashed` | index.js:44-49 | The query is exactly `trashed = false` if and only if the input is empty or made only of trimmable characters. |
| `Search.ConditionsShape` | index.js:57-69 | The condition list has one or two entries, and the first is the name condition. It has two exactly when the lowered text contains `sheet`. Joined with ` or `, it forms the whole parenthesised expression. |
| `Search.QueryShape` | index.js:57-69 | For a non-empty trimmed text, the query is `(`, the name condition, the sheet condition exactly when `sheet` is mentioned, and `) and trashed = false`. |
| `Search.NameConditionReadsBack` | index.js:52-60 | Wherever the name condition stands in a text, the literal after its opening quote reads as exactly the user's text, closes at its own quote and leaves the rest intact. |
| `Search.NameLiteralReadsBack` | index.js:52-69 | Reading the built query as Drive does, the name literal yields exactly the trimmed user text. It closes at the builder's quote, and the rest of the expression follows unchanged. No user text can end the literal early. |
| `Search.PageSizeDefault` | index.js:74 | The page size sent is never 0. It is the caller's value when that value is truthy, and otherwise 10, so an explicit 0 also becomes 10. |
| `Search.FileLines` | index.js:80-82 | There is one `id name (mimeType)` line per file, in Drive's order. |
| `Search.ResponseLines` | index.js:80-89 | When no field has a line break, the reply's lines are the count line, then one line per file, then an empty line and `More results available. Use pageToken: <token>`. The last two come exactly when the token is present and non-empty. |
| `Search.CountLineReadsBack` | index.js:84 | The count line is `Found N files:`, where N reads back as the number of files, or 0 when the list is absent. |
| `Search.AbsentListPrintsUndefined` | index.js:80-84 | As written: a reply without a file list prints the count line, a newline and `undefined`. It differs from the reply for an empty list. |
| `Search.IntendedTreatsAbsentAsEmpty` | index.js:80-84 | Corrected: an absent list is reported exactly as an empty one, whose listing is empty. The corrected text agrees with the handler whenever a list is present. |
| `Search.SheetConditionIsNotSpreadsheet` | index.js:63-67 | As written: the sheet condition names a MIME type outside Drive's native family. It is not the spreadsheet type, and the read handler would download such a file and render it as base64. |
| `Search.IntendedSheetConditionMatchesSpreadsheets` | index.js:63-67 | Corrected: when `sheet` is mentioned, the second condition names Google's spreadsheet type, and `gdrive_read_file` exports that type as CSV. |
| `ReadFile.NativeKindOfLabels` | index.js:119-134 | Each `case` label maps to its own kind. Exactly the MIME types that match no label fall to the default arm. |
| `ReadFile.ExportTargetTable` | index.js:119-134 | Markdown is chosen only for documents, CSV only for spreadsheets and PNG only for drawings. Plain text goes to presentations and to every sub-type the switch does not name. |
| `ReadFile.ExportExactlyForNative` | index.js:117-134 | The export path is taken if and only if the MIME type is present and starts with `application/vnd.google-apps`, and then with the switch's format. Every other file is downloaded. |
| `ReadFile.DownloadEncodingIff` | index.js:156-166 | A download uses the MIME type after the octet-stream fallback. It is rendered as UTF-8 if and only if that type starts with `text/` or equals `application/json`, and as base64 otherwise. |
| `ReadFile.MissingMimeIsBase64` | index.js:156-166 | A missing or empty MIME type is downloaded as `application/octet-stream` and always rendered as base64. |
| `ReadFile.ContentsTextShape` | index.js:141-170 | Every reply starts with `Contents of `, the name (or the id when the name is absent or empty), `:` and a blank line. Exactly one rendering follows, chosen by the dispatch. |
| `ReadFile.SpreadsheetReadsAsCsv` | index.js:117-148 | A native spreadsheet reads as the header and its CSV export, not the plain-text default. |

## Findings

| source | as written | input that shows it | evidently intended | confidence | as-written member | corrected member |
|---|---|---|---|---|---|---|
| index.js:80-84 | `fileList` is `undefined` when the reply has no `files` array, and the template literal prints it | a `files.list` reply without `files` gives `Found 0 files:` followed by `undefined` | the listing is empty, as for an empty array | medium; not executed (whether Drive omits an empty `files` array is outside this code) | `Search.AbsentListPrintsUndefined` | `Search.IntendedTreatsAbsentAsEmpty` |
| index.js:63-67 | the sheet condition is `mimeType = 'application/vnd.google-sheets.spreadsheet'` | any query mentioning `sheet`, e.g. `budget sheet`: the added clause matches no file, because Drive's spreadsheet type is `application/vnd.google-apps.spreadsheet` (index.js:123) | `mimeType = 'application/vnd.google-apps.spreadsheet'` | high; not executed | `Search.SheetConditionIsNotSpreadsheet` | `Search.IntendedSheetConditionMatchesSpreadsheets` |

`Search.SearchQuery` and `Search.BuildSearchQuery` keep the code as written. The corrected query is `Search.SearchQueryIntended`. Both are instances of `Search.QueryWith`, so every query lemma holds for both. `Search.ResponseText` is the text as written. The corrected `Search.ResponseTextIntended` is that same text computed with an absent list replaced by an empty one.

## Left out

- MCP server construction, tool registration and the zod input schemas (index.js:15-42, 102-108): protocol plumbing. The model takes the already-validated inputs, so `query` is a string and `pageSize` an optional number. zod rejects `NaN`, and JSON cannot carry `Infinity`, so `Search.PageSize` works over finite reals.
- OAuth2 client setup and the credential lookup from configuration or environment (index.js:8-13, 24-26): configuration and foreign calls. The `CLIET_ID` spelling at index.js:11 is not modelled.
- The `drive.files.list`, `files.get` and `files.export` calls and their `await`s (index.js:72-78, 111-114, 136-139, 152-155) are network I/O. Their results are inputs, and the request fields other than `q` and `pageSize` are not modelled (`pageToken` is passed through, plus a fixed `orderBy` and `fields`).
- `Buffer`'s UTF-8 and base64 encoders (index.js:159, 166) are library byte encodings. They are passed in as functions.
- `JsString.ToLower`: folds only ASCII `A`-`Z`. Full Unicode case mapping, which can change a string's length, is not modelled. The `sheet` test can differ only for the rare non-ASCII characters whose lower case contains one of those letters.
- `JsString.Trim` follows the ECMAScript white-space set as of current Unicode. A future Unicode `Zs` addition would not be covered.
- `Escaping.ScanLiteral` is a reader of Drive's quoted literals written for this model. How Drive's server itself parses `q` is not part of this code.
- Template-literal rendering of non-string JSON values (`null`, numbers) in file fields is not modelled. A field is either a string or absent, and an absent field prints `undefined`.
- The HTTP listener and its port (index.js:176-180) are server I/O.
- index.js defines only these two tools, so nothing else is modelled.
- Strings are Dafny `string`s, sequences of Unicode scalar values, while JavaScript strings are sequences of UTF-16 code units. A lone surrogate in `query` (possible through a JSON `\ud800` escape) has no counterpart in the model. No behaviour of the two handlers depends on it.
