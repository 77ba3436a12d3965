# Dataset viewer: a verified model of its core

The dataset viewer is a small Next.js application. Teammates upload
instruction/input/output training records for a financial-advice assistant.
Every upload is checked against the teammate's passcode. The records can
then be browsed, summarised on a dashboard and exported as a Word or PDF
file. This project models the parts of it that compute something, in
Dafny, and proves what they promise:

- `persona.dfy`: the persona parser of the dataset card. It finds
  the first `[...]` segment of a record's `input` with the lazy regular
  expression `/\[(.*?)\]/`, splits it on `,`, splits each fragment at its first
  `:`, trims both halves and keeps the pairs whose key and value are both
  non-empty.
- `datasets_api.dfy`: the upload endpoint `POST /api/datasets`. Its
  checks run in a fixed order, giving 400, then 404, then 401, then 200 with the
  inserted count, and 500 for anything thrown. The Dataset table is a class
  whose `Post` method only ever appends rows.
- `upload_form.dfy`: the upload form's `handleSubmit`. It refuses blank
  fields, turns one parsed record or an array of them into a list and checks
  every record in a loop. It then posts `{teammateId, passcode, datasets}`
  and shows the outcome. The form state (`error`, `success`, `jsonInput`,
  `loading`) is a class.
- `export_buttons.dfy`: the two export buttons. The Word export is the
  paragraph list: two header paragraphs, then nine per dataset, built by a
  loop. The PDF export is the list of drawing operations, made by a loop with
  a mutable cursor `y` that opens a new page whenever it has passed 250; the
  response preview is truncated to 1000 UTF-16 code units and to 30 lines. The
  `exporting` state is set to the format and cleared again at the end.
- `dashboard.dfy`: the home page figures. These are the bar scale
  `Math.max(...counts, 1)`, the "Avg per Member" card, the five newest
  uploads and the instruction preview cut at 200 UTF-16 code units.
- `text.dfy`, `json.dfy`, `wrappers.dfy`, `schema.dfy`: the JavaScript string
  operations used above (`trim`, `split`, `join`, `slice`, decimal rendering),
  JSON values with property access and truthiness, Option/Result, and the
  Dataset record.

A Dafny `char` is a Unicode scalar value, so a character outside the Basic
Multilingual Plane (an emoji) is one `char`. JavaScript strings are
sequences of UTF-16 code units, in which such a character is two. Where the
source counts or cuts by `length` and `slice(0, n)` (the two previews), the
model encodes the text as code units (`Text.Utf16`) and counts those. The
separators and the whitespace that `split` and `trim` look for all lie in the
Basic Multilingual Plane, so those operations give the same result on
either representation. The libraries
the application calls are parameters of the model: `JSON.parse`, `fetch`,
jsPDF's `splitTextToSize` (line wrapping) and the date formatting.

## Model

| member | source | states |
|---|---|---|
| Persona.FirstSegment | src/components/DatasetCard.tsx:22 | There is no match exactly when no `[` is followed by a `]` with no line terminator in between. Otherwise the match is a bracketed segment. |
| Persona.FirstSegmentUnique | src/components/DatasetCard.tsx:22 | The leftmost segment, closed lazily at its first `]`, is the match. It is the only pair of positions with those properties. |
| Persona.SegmentEndUnique | src/components/DatasetCard.tsx:22 | From a given `[` the lazy match has a single end. |
| Persona.ToPair | src/components/DatasetCard.tsx:26-31 | A fragment's key contains no `:`. Key and value carry no leading or trailing whitespace. |
| Persona.FragmentAtFirstColon | src/components/DatasetCard.tsx:27-30 | `a + ":" + b` with no colon in `a` gives key `trim(a)` and value `trim(b)`. Later colons stay in the value (`Time: 10:30` → `Time`, `10:30`). |
| Persona.FragmentWithoutColon | src/components/DatasetCard.tsx:27-30 | A fragment without `:` gives its trimmed text as key and an empty value, so the filter drops it. |
| Persona.ToPairs | src/components/DatasetCard.tsx:26-31 | `.map` makes one pair per fragment, in order: pair `k` is the pair of fragment `k`. |
| Persona.KeepComplete | src/components/DatasetCard.tsx:32 | `.filter(p => p.key && p.value)` keeps only pairs of the list with a non-empty key and value, and never more pairs than the list has. |
| Persona.KeepCompleteKeepsAll | src/components/DatasetCard.tsx:32 | The filter drops no pair whose key and value are both non-empty. |
| Persona.PairsOf | src/components/DatasetCard.tsx:26-32 | Every pair returned for a segment's content is the pair of one of its comma-separated fragments, with a non-empty key and value. |
| Persona.ParsePersona | src/components/DatasetCard.tsx:20-35 | No segment gives the empty list. Otherwise the result is the pairs of the text between the brackets. Every pair returned is well formed: key and value non-empty and trimmed, no `:`, `,` or `]` in the key, no `,` or `]` in the value, no line terminators. |
| Persona.PairsOfWellFormed | src/components/DatasetCard.tsx:26-32 | Each pair of a segment's content is well formed. |
| Persona.OnlyFirstSegment | src/components/DatasetCard.tsx:22-25 | Text appended after the first segment's `]` never changes the result. |
| Persona.LeadingSegment | src/components/DatasetCard.tsx:22-25 | An input that starts with `[content]` is parsed from `content` alone. |
| Persona.PairsInFragmentOrder | src/components/DatasetCard.tsx:26-32 | The pairs of `a + "," + b` are the pairs of `a` followed by those of `b`: fragment order is kept. |
| Persona.PairsBound | src/components/DatasetCard.tsx:26-32 | A segment gives at most one pair more than it has commas. |
| Persona.FormatRoundTrip | src/components/DatasetCard.tsx:20-35 | Well-formed pairs written as `[k1: v1, k2: v2, …]` parse back to exactly those pairs, in order. |
| Persona.DocCommentExample | src/components/DatasetCard.tsx:21-35 | The example in the parser's comment, `[Age: 29, Income: ₹15 LPA]`, parses to the pairs `Age`/`29` and `Income`/`₹15 LPA`. |
| Persona.FormatPairsRoundTrip | src/components/DatasetCard.tsx:26-32 | The comma-separated fragments of well-formed pairs give those pairs back. |
| Persona.View | src/components/DatasetCard.tsx:38-82 | The card shows pills exactly when the parse is non-empty. Otherwise it shows the raw `input`, always so when there is no segment. |
| Text.Trim | src/components/DatasetCard.tsx:29-30 | `trim()` returns the middle slice of the string. Everything before and after it is whitespace, and the slice neither starts nor ends with whitespace. |
| Text.IsJsWhitespace | src/components/DatasetCard.tsx:29-30 | Every character `trim()` strips lies in the Basic Multilingual Plane, so it is one UTF-16 code unit. |
| Text.IsLineTerminator | src/components/DatasetCard.tsx:22 | Every line terminator, the characters `.` does not match, lies in the Basic Multilingual Plane. |
| Text.TrimIdempotent | src/components/DatasetCard.tsx:29-30 | Trimming twice is trimming once. |
| Text.SplitHeadAndRest | src/components/DatasetCard.tsx:27-30 | `[key, ...rest] = s.split(':')` followed by `rest.join(':')` gives the text before the first colon and exactly the text after it. |
| Text.JoinSplit | src/components/DatasetCard.tsx:26-30 | Joining the pieces of a split gives back the string. |
| Text.SplitJoin | src/components/DatasetCard.tsx:26-30 | Splitting a join of separator-free pieces gives back the pieces. |
| Text.SplitLength | src/components/DatasetCard.tsx:26 | A split has one more piece than the string has separators. |
| Text.Split | src/components/DatasetCard.tsx:26 | `split` always gives at least one piece, and no piece contains the separator. |
| Text.SplitFirstPiece | src/components/ExportButtons.tsx:108 | `s.split(sep)[0]` is a prefix of `s` that is either all of `s` or followed by the separator. |
| Text.Join | src/components/DatasetCard.tsx:30 | A join starts with its first piece. |
| Text.SliceTo | src/components/ExportButtons.tsx:200 | `slice(0, n)` is the prefix of length `n`, or the whole sequence when it is shorter. |
| Text.Repeat | src/components/ExportButtons.tsx:94 | `c.repeat(n)` has length `n` and every element is `c`. |
| Text.NatToString | src/components/ExportButtons.tsx:39 | A count renders as decimal digits without leading zeros. |
| Text.NatToStringValue | src/components/ExportButtons.tsx:39 | The digits rendered for a number read back as that number. |
| Text.CodeUnitsOf | src/app/page.tsx:115-116 | A character of the Basic Multilingual Plane is one code unit, itself. Any other character is two: a high surrogate, then a low one. |
| Text.Utf16 | src/app/page.tsx:115-116 | The JavaScript string of a text has at least one and at most two code units per character. |
| Text.Utf16Concat | src/app/page.tsx:115-116 | Encoding a concatenation encodes its parts one after the other. |
| Text.Utf16OfBmp | src/app/page.tsx:115-116 | A text within the Basic Multilingual Plane has one code unit per character, equal to it. |
| Text.Utf16OfAstral | src/app/page.tsx:115-116 | A text of characters outside the Basic Multilingual Plane has two code units per character. |
| Text.NatToStringInjective | src/components/ExportButtons.tsx:53 | Different numbers render to different decimal strings. |
| JsonValues.Property | src/app/api/datasets/route.ts:19 | `v.name` is defined exactly for an object that has the field, and is then that field's value. |
| JsonValues.Truthy | src/app/api/datasets/route.ts:22 | A value is falsy exactly when it is `undefined`, `null`, `false`, `0` or `""`. |
| DatasetsApi.Decide | src/app/api/datasets/route.ts:16-56 | An upload succeeds only with the required fields present, a known teammate, the matching passcode and a working store. It then yields one row per submitted record, in order, each stamped with the teammate's id. A 404 or 401 outcome implies the required fields were present. |
| DatasetsApi.LengthIsZero | src/app/api/datasets/route.ts:22 | `datasets.length === 0` holds for an array exactly when it is empty, and only arrays and objects can satisfy it. |
| DatasetsApi.HasRequiredFields | src/app/api/datasets/route.ts:22 | A body that passes the first check is an object with `teammateId`, `passcode` and `datasets`, and a `datasets` array in it is non-empty. |
| DatasetsApi.RowOf | src/app/api/datasets/route.ts:50-55 | A row copies `instruction`, `input` and `output` verbatim and carries the resolved teammate id. |
| DatasetsApi.RowsOf | src/app/api/datasets/route.ts:49-56 | The rows exist exactly when every record maps to a row. There is then one row per record, in order. |
| DatasetsApi.Respond | src/app/api/datasets/route.ts:22-70 | The status is 2xx exactly for a successful upload, whose body reports the number of rows inserted. It is 400 exactly for missing fields, 404 exactly for an unknown teammate, 401 exactly for a wrong passcode and 500 exactly for a thrown exception. Every outcome other than an upload answers with a non-empty error. |
| DatasetsApi.IncompleteIsRejected | src/app/api/datasets/route.ts:22-27 | A body lacking a truthy `teammateId`, `passcode` or `datasets`, or with an empty list, gets 400 before any lookup. |
| DatasetsApi.UnknownTeammateIsRejected | src/app/api/datasets/route.ts:30-39 | A complete body with an unknown teammate gets 404, whatever the passcode. |
| DatasetsApi.WrongPasscodeIsRejected | src/app/api/datasets/route.ts:41-46 | A known teammate with a passcode that is not exactly equal gets 401. |
| DatasetsApi.AuthorisedUploadSucceeds | src/app/api/datasets/route.ts:49-62 | A complete, authorised body whose records all map to rows is uploaded with those rows. The response count is the number of records. |
| DatasetsApi.UnreadableBodyFails | src/app/api/datasets/route.ts:17-19 | A body that is not JSON, or is `null`, makes the handler throw: 500. |
| DatasetsApi.StoreFaultFails | src/app/api/datasets/route.ts:30-70 | For a complete, authorised request, a database that throws on the lookup or on the insert gives 500. |
| DatasetsApi.MalformedRecordFails | src/app/api/datasets/route.ts:49-70 | For an authorised request, a record without string fields makes `createMany` throw: 500. |
| DatasetsApi.SuccessMessage | src/app/api/datasets/route.ts:61 | The message is `Successfully uploaded `, then the count in decimal, then ` dataset(s)`. |
| DatasetsApi.DatasetStore.Post | src/app/api/datasets/route.ts:16-71 | The response is the ladder's answer. The table becomes the old table followed by the inserted rows; nothing in it changes and nothing is inserted on any error. |
| UploadForm.Normalize | src/components/UploadForm.tsx:45 | An array passes through unchanged; any other value becomes a one-element list. |
| UploadForm.EntryError | src/components/UploadForm.tsx:48-51 | A record passes exactly when it is not `null` and its `instruction`, `input` and `output` are all truthy. |
| UploadForm.FirstEntryError | src/components/UploadForm.tsx:48-52 | The loop reports no error exactly when every record passes. Otherwise it reports the error of a failing record with only passing records before it. |
| UploadForm.FirstEntryErrorAt | src/components/UploadForm.tsx:48-52 | The error reported is the one of the first failing record. |
| UploadForm.CheckEntries | src/components/UploadForm.tsx:48-52 | The `for … of` loop with its early throw computes that first error. |
| UploadForm.RequestBody | src/components/UploadForm.tsx:64-68 | The body has exactly the fields `teammateId`, `passcode` and `datasets`, holding the selection, the passcode and the normalised records. |
| UploadForm.Prepare | src/components/UploadForm.tsx:35-68 | A request is sent exactly when no field is blank, the text parses and every record passes. The request is exactly `{teammateId, passcode, datasets}`. Blank fields give "Please fill in all fields"; the other refusals begin with "Invalid JSON format: ". |
| UploadForm.ErrorText | src/components/UploadForm.tsx:74 | `result.error \|\| 'Upload failed'` is never empty and is the server's error when it has one. |
| UploadForm.IsOk | src/components/UploadForm.tsx:73 | `response.ok` holds exactly for a status in the 2xx class. |
| UploadForm.CountText | src/components/UploadForm.tsx:77 | `${result.count}` reads back as the count the endpoint reported, and is `undefined` when the body has no count. |
| UploadForm.Settle | src/components/UploadForm.tsx:71-87 | The JSON text is cleared exactly on a 2xx answer, which reports the server's count. Every other outcome sets no success message. A refused answer sets the server's error, or "Upload failed" when it has none; a rejection with an `Error` sets its message, even an empty one; any other rejected value sets "Upload failed". |
| UploadForm.Form.HandleSubmit | src/components/UploadForm.tsx:30-91 | A blocked submission shows its error, sends nothing and leaves `loading` alone. A sent one posts the planned body and shows what Settle says. `loading` is then set to true and back to false. |
| UploadForm.Form.Deliver | src/components/UploadForm.tsx:58-90 | While the request runs `loading` is true. Once it settles `loading` is false again, on success and on failure. A 2xx answer shows the count and clears the text. A refused answer shows the server's error or "Upload failed". A rejected `Error` shows its message, even an empty one, and any other rejected value shows "Upload failed". |
| UploadForm.EmptyArrayIsSentAndRefused | src/components/UploadForm.tsx:45-68 | The text `[]` passes the client check and is sent; the endpoint answers 400 "Missing required fields". |
| UploadForm.AcceptedBatchIsUploaded | src/components/UploadForm.tsx:60-78 | Complete records with the teammate's passcode are sent and inserted as one row each for that teammate. The form reports that count and clears the text. |
| ExportButtons.Divider | src/components/ExportButtons.tsx:94 | The divider is 50 characters long, every one of them the rule character `─`. |
| ExportButtons.WordBlock | src/components/ExportButtons.tsx:51-97 | Each dataset gets nine paragraphs. The first is the heading `Dataset i+1`; the instruction, persona and response paragraphs hold the fields verbatim, untruncated. |
| ExportButtons.WordHeader | src/components/ExportButtons.tsx:30-48 | The Word export opens with two paragraphs, the first the title `Financial AI Training Datasets` at title level. |
| ExportButtons.WordSummaryShowsCount | src/components/ExportButtons.tsx:36-45 | The summary paragraph begins with `Total Datasets: ` followed by the number of datasets in decimal. |
| ExportButtons.BuildWordParagraphs | src/components/ExportButtons.tsx:30-98 | The `forEach`/`push` loop builds the Word export: 2 + 9·n paragraphs, the header with `datasets.length`, then each dataset's block at position 2 + 9·i. |
| ExportButtons.WordParagraphAt | src/components/ExportButtons.tsx:50-97 | Paragraph `p` of the export is paragraph `(p-2) % 9` of dataset `(p-2) / 9`'s block. |
| ExportButtons.WordDocumentUnique | src/components/ExportButtons.tsx:30-98 | The export of a list is unique: exporting the same list twice gives the same paragraphs. |
| ExportButtons.HeadingsDistinct | src/components/ExportButtons.tsx:53 | Different positions get different `Dataset i+1` headings. |
| ExportButtons.DatasetHeading | src/components/ExportButtons.tsx:53 | A dataset heading begins with `Dataset `. |
| ExportButtons.DatasetHeadingShowsNumber | src/components/ExportButtons.tsx:53 | After `Dataset `, the heading is the dataset's position counted from 1, in decimal. |
| ExportButtons.ResponsePreview | src/components/ExportButtons.tsx:200 | Counting UTF-16 code units, the preview is at most 1003 long. It is the output itself up to 1000 code units, and otherwise its first 1000 code units plus `...`. |
| ExportButtons.PageCheck | src/components/ExportButtons.tsx:139-143 | A page is added exactly when `y > 250`, and `y` is then 20. Afterwards `y ≤ 250`. |
| ExportButtons.PdfHeader | src/components/ExportButtons.tsx:127-136 | The PDF opens with two texts, the first the title, both below the top margin and neither opening a dataset section. |
| ExportButtons.PdfSummaryShowsCount | src/components/ExportButtons.tsx:135 | The summary line is one line that begins with `Total: ` followed by the number of datasets in decimal. |
| ExportButtons.HeaderSection | src/components/ExportButtons.tsx:139-166 | The header section is drawn on the page: it opens at `y ≤ 250` and nothing is drawn above the top margin. |
| ExportButtons.PersonaSection | src/components/ExportButtons.tsx:168-184 | The persona section opens at `y ≤ 250` after its page check. |
| ExportButtons.ResponseSection | src/components/ExportButtons.tsx:186-209 | The response section opens at `y ≤ 250` and draws at most 30 lines of the preview. |
| ExportButtons.DatasetOps | src/components/ExportButtons.tsx:138-210 | One dataset's drawing keeps every layout fact: sections open on the page, and at most 30 response lines. |
| ExportButtons.PdfFrom | src/components/ExportButtons.tsx:138-210 | The drawing of all remaining datasets keeps the layout facts. |
| ExportButtons.DatasetShape | src/components/ExportButtons.tsx:139-190 | A dataset adds at most three pages, one per page check, and draws exactly one 14-point heading: its own. |
| ExportButtons.PdfDocumentShape | src/components/ExportButtons.tsx:121-210 | A PDF of n datasets has at most 1 + 3n pages. Its dataset headings read `Dataset 1` … `Dataset n` in list order. |
| ExportButtons.PdfDocument | src/components/ExportButtons.tsx:121-210 | The whole drawing keeps the layout facts: every text at or below the top margin, every section opening at `y ≤ 250`, no preview over 30 lines. |
| ExportButtons.DrawHeaderSection | src/components/ExportButtons.tsx:139-166 | The imperative drawing of the header, byline and instruction is the header section. |
| ExportButtons.DrawPersonaSection | src/components/ExportButtons.tsx:168-184 | The imperative drawing of the persona is the persona section. |
| ExportButtons.DrawResponseSection | src/components/ExportButtons.tsx:186-209 | The imperative drawing of the preview and rule is the response section. |
| ExportButtons.RenderPdf | src/components/ExportButtons.tsx:121-210 | The loop with its mutable cursor draws exactly the PDF export: title, summary, then every dataset from `y = 45`. |
| ExportButtons.FileNameOfTimestamp | src/components/ExportButtons.tsx:108 | For an ISO timestamp `date + "T" + time` the file is `training-datasets-<date>` plus the extension. |
| ExportButtons.FileName | src/components/ExportButtons.tsx:108 | The file name is `training-datasets-`, then the timestamp up to its first `T` (all of it when there is none), then the extension. |
| ExportButtons.Exporter.ButtonsDisabled | src/components/ExportButtons.tsx:226-237 | Both buttons are disabled while an export runs and when the list is empty, and enabled otherwise. |
| ExportButtons.Exporter.ExportToWord | src/components/ExportButtons.tsx:26-115 | `exporting` goes to 'word', then back to null at the end, even on failure. On success the saved paragraphs are the Word export and the file is `.docx`. On failure only the alert "Failed to export as Word document" is shown. Afterwards the buttons are disabled exactly when the list is empty. |
| ExportButtons.Exporter.ExportToPdf | src/components/ExportButtons.tsx:117-219 | `exporting` goes to 'pdf', then back to null at the end, even on failure. On success the saved drawing is the PDF export and the file is `.pdf`. On failure only the alert "Failed to export as PDF" is shown. Afterwards the buttons are disabled exactly when the list is empty. |
| Dashboard.MaxCount | src/app/page.tsx:28 | The bar scale is at least 1 and at least every count. It is one of the counts unless it is the floor 1. |
| Dashboard.MaxCountIsLargest | src/app/page.tsx:28 | When some count is at least 1, the scale is exactly the largest count. |
| Dashboard.MaxCountOfNothing | src/app/page.tsx:28 | With no teammates, or only zero counts, the scale is 1. |
| Dashboard.AveragePerMember | src/app/page.tsx:50 | The card shows 0 when there are no datasets and `Infinity` for datasets without members. Otherwise it shows the quotient rounded half up. |
| Dashboard.AverageOfEvenSpread | src/app/page.tsx:50 | `share · m` datasets over `m` members average to `share`. |
| Dashboard.InstructionPreview | src/app/page.tsx:115-117 | Counting UTF-16 code units, the preview is the instruction itself up to 200. Otherwise it is the first 200 code units plus `...`, 203 in all. |
| Dashboard.PreviewIdempotent | src/app/page.tsx:115-117 | Shortening a preview again changes nothing. |
| Dashboard.PreviewOfBmpText | src/app/page.tsx:115-117 | For text within the Basic Multilingual Plane the preview is the text itself up to 200 characters, and otherwise its first 200 characters plus `...`. |
| Dashboard.AstralTextIsCut | src/app/page.tsx:115-117 | More than 100 characters outside the Basic Multilingual Plane exceed 200 code units, so the preview cuts them although there are fewer than 200 characters. |
| Dashboard.SortNewestFirst | src/app/page.tsx:19 | The result is ordered by `createdAt` descending, and is a permutation of the list. |
| Dashboard.Insert | src/app/page.tsx:19 | Insertion keeps the list newest first and adds exactly the one dataset. |
| Dashboard.TakeNewest | src/app/page.tsx:18-19 | The first n entries of a newest-first list keep the order. Every entry left out is no newer than any entry kept. |
| Dashboard.Recent | src/app/page.tsx:17-21 | The recent list has at most five entries. It is a prefix of the list sorted newest first, and the whole of it when it has fewer than five. |
| Dashboard.RecentIsNewest | src/app/page.tsx:17-21 | The recent list has min(5, n) entries, newest first, all from the table. No dataset left out is newer than one shown. |

## Left out

- Persistence: the database is not modelled.
  - The Dataset table is a sequence of rows. `findUnique` is a lookup in a map from teammate id to passcode.
  - `createMany` either inserts every row or throws. A store failure is the explicit `Fault` parameter.
  - Generated ids, `createdAt` defaults and the stored uploader join are not modelled.
  - Element fields the database would reject are not checked server-side, matching the source: an element without string fields makes `createMany` throw (500).
- Out of scope files:
  - `GET /api/datasets`, `GET /api/stats` and the datasets page are thin query wrappers and are not part of this model.
  - The layout, the upload page markup and the seed script are not part of it either.
- Libraries:
  - docx `Packer.toBlob`, jsPDF drawing, `saveAs`/`doc.save` and rendering with ReactMarkdown are not modelled. A Word document is its paragraph list and a PDF its drawing operations.
  - Font, colour and x coordinates are not recorded, nor the page width or text running past the page bottom.
  - `splitTextToSize` is a parameter of the font size in effect (10 for the instruction and the persona, 9 for the response preview) and the text; so are `JSON.parse` and `fetch` (with `response.json()`).
- Dates and time: `toLocaleDateString('en-IN')`, `toISOString()` and `new Date()` are parameters (strings, or a formatter of `createdAt`). `createdAt` is an integer timestamp.
- Asynchrony: `await`, `setTimeout`, `router.refresh/push` and React re-rendering are not modelled. Each handler runs to completion as one method.
- Dashboard.AveragePerMember: computes `Math.round(total / members)` in exact arithmetic, not in binary floating point.
- The bar width `Math.max(count / maxCount * 100, 5)` is not modelled, because it is floating point.
- UploadForm.Prepare: the 'Parse error' message for a non-Error throw is not modelled. `JSON.parse` and the record check only throw `Error` values.
- UploadForm.NullEntryMessage: the text of the TypeError thrown when a record is `null` is the wording of the V8 engine. Other JavaScript engines word it differently.
- UploadForm.Normalize: the JSON text sent and the JSON the endpoint reads are taken to be the same value. The stringify/parse round trip is not modelled.
- UploadForm.Form.HandleSubmit: `e.preventDefault()` and the re-render between state updates are not modelled.
- Text.Utf16: only the two previews work on code units. A cut that falls between the halves of a surrogate pair leaves a lone high surrogate, which a code-unit sequence holds but a Dafny string cannot; line wrapping is a parameter that takes the code units.
- DatasetsApi.Decide: a truthy `teammateId` that is not a string (a number, say) is taken to make the `findUnique` lookup throw, giving 500. This follows the database client's validation of the `id` field's type, which is not part of this model.
- ExportButtons.Divider: the divider character appears garbled in the source text (`â”€`, the UTF-8 bytes E2 94 80 of U+2500 read as Windows-1252). As written, the source repeats three characters 50 times, 150 in all. It is modelled as the intended `─` (U+2500), repeated 50 times.
- The button labels (spinner, "Exporting...", the emoji) are presentation and are not modelled.
