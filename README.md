# Drive file storage: listing presentation, verified

`file_server.py` is a Streamlit page over one Google Drive folder: it uploads,
lists, downloads and deletes files. Almost all of it is Drive API calls and
widgets. The part that is the page's own logic is the presentation of the listing:

- the size caption under each file: whole bytes below 1024 ("1023 B"), then
  one decimal place in KB below 1048576 bytes ("1.5 KB"), then in MB ("1.0 MB");
- the preview chosen for each file: an image when the MIME type starts with
  `image/`, a text view when the lower-cased name ends with `.txt`, `.md`, `.py`,
  `.json`, `.csv`, `.html`, `.css` or `.js` (markdown for `.md`, a table for
  `.csv`, highlighted code otherwise, in the language named after the last dot
  when it is `py`, `json`, `html`, `css` or `js`), a notice for `.pdf`, or nothing;
- the sidebar: the number of files and their total size, which is shown in KB
  below 1048576 bytes (even below 1024 bytes: an empty folder shows "0.0 KB")
  and in MB from there on.

The model is pure Dafny functions and lemmas, in the modules

- `Files`: a listed file (`DriveFile`), with a missing size counting as 0 and a
  missing MIME type as the empty string;
- `Decimal`, `Text`, `Rounding`: Python's `str(int)`, the string tests the
  listing uses, and rounding to the nearest integer with ties to even;
- `SizeLabel`: the size strings, with a parser that reads them back;
- `Preview`: the preview choice, and an equivalent lookup on the extension;
- `Sidebar`: the count and the total.

`%.1f` prints the binary value it is given exactly rounded, ties to even. For a
size below 2^53 bytes, `size / 1024` and `size / 1048576` are that exact
quotient, so the printed tenths are `size * 10 / 1024` (or `/ 1048576`)
rounded half to even. The model computes that with integers. So 1280 bytes
(1.25 KB) prints "1.2 KB", 1792 bytes prints "1.8 KB", and 1048575 bytes prints
"1024.0 KB".

Three points about the code that shape the model:

- The image preview depends only on the MIME prefix `image/`
  (file_server.py:147), never on the file name, and it wins over every name test.
- The sidebar total has no byte band (file_server.py:185-188): below 1048576
  bytes it is always in KB.
- The file encodes no names, has a single storage back end and does not sort the
  listing itself: the order comes from the `orderBy` argument of the Drive
  query (file_server.py:35).

## Model

| member | source | states |
|---|---|---|
| `Files.SizeOf` | file_server.py:108 | a file without a size counts as 0 bytes, otherwise its size |
| `Files.MimeOf` | file_server.py:143 | a file without a MIME type has the empty MIME type |
| `Decimal.Show` | file_server.py:110 | `f"{size}"` is a non-empty string of digits, with no leading zero, whose decimal value is `size` |
| `Decimal.ShowValue` | file_server.py:110 | every digit string without a leading zero is the notation of the number it denotes, so `Show` is onto those strings |
| `Decimal.ShowInjective` | file_server.py:110 | two different numbers never print as the same digits |
| `Text.Lower` | file_server.py:144 | the lower-cased name has no upper-case letter and differs from the name only in case |
| `Text.LowerIgnoresCase` | file_server.py:144 | names that differ only in case lower-case to the same string |
| `Text.LastSegment` | file_server.py:167 | `split(".")[-1]` is the longest dot-free suffix: the whole name, or what follows its last dot |
| `Text.EndsWithSeparated` | file_server.py:167 | a name ends with "." plus a dot-free `ext` exactly when `ext` is its last segment and a dot precedes it |
| `Rounding.RoundHalfEven` | file_server.py:112 | the result is an integer nearest to `num / den`, and the even one on a tie |
| `Rounding.NearestTiesEvenUnique` | file_server.py:112 | at most one integer is nearest with ties to even, so the rounding is fully determined |
| `SizeLabel.ShowTenths` | file_server.py:112 | `%.1f` of a value rounded to `t` tenths reads back as exactly `t` |
| `SizeLabel.Render` | file_server.py:110-114 | a byte string ends in " B" with no decimal point; a KB string ends in " KB"; an MB string ends in " MB" |
| `SizeLabel.ParseRender` | file_server.py:109-114 | every size string reads back as the unit and the value it was made from |
| `SizeLabel.RenderParse` | file_server.py:109-114 | a string that reads back as a label is exactly that label's rendering, with no leading zeros; with `ParseRender`, a size string is fixed by its unit and value |
| `SizeLabel.RenderInjective` | file_server.py:109-114 | two different labels never print as the same size string |
| `SizeLabel.Scaled` | file_server.py:111-114 | KB exactly below 1048576 bytes, MB otherwise, tenths nearest to size/1024 (size/1048576) with ties to even |
| `SizeLabel.SizeLabelOf` | file_server.py:109-114 | bytes exactly below 1024 with the size itself; KB exactly in [1024, 1048576) with 1.0 to 1024.0 in rounded tenths; MB from 1048576 with at least 1.0 |
| `SizeLabel.FormatSize` | file_server.py:109-114 | the size string reads back as the band and rounded value of the size, which by `RenderParse` fixes the string exactly; below 1024 it has no decimal point |
| `SizeLabel.FileSizeText` | file_server.py:108-114 | a listed file's caption reads back as its size's label, which fixes it exactly; a file without a size shows "0 B" |
| `SizeLabel.FormatTotal` | file_server.py:185-188 | the total string reads back as KB below 1048576 bytes and MB from there on, never as bytes; by `RenderParse` that fixes the string exactly |
| `SizeLabel.TotalVersusFileSize` | file_server.py:185-188 | from 1024 bytes on, the total and the per-file size print alike; below 1024 they differ |
| `SizeLabel.ByteExamples` | file_server.py:109-110 | 0 prints "0 B" and 1023 prints "1023 B" |
| `SizeLabel.KiloExamples` | file_server.py:111-112 | 1024 prints "1.0 KB" and 1536 prints "1.5 KB" |
| `SizeLabel.KiloTieExamples` | file_server.py:111-112 | 1280 (1.25 KB) prints "1.2 KB" and 1792 (1.75 KB) prints "1.8 KB": ties go to the even tenth |
| `SizeLabel.KiloUpperEdge` | file_server.py:111-112 | 1048575 bytes stays in the KB band and prints "1024.0 KB" |
| `SizeLabel.MegaLowerEdge` | file_server.py:113-114 | 1048576 bytes prints "1.0 MB" |
| `SizeLabel.EmptyTotal` | file_server.py:185-186 | a total of 0 bytes prints "0.0 KB" |
| `Preview.AnyEndsWith` | file_server.py:156 | `any(name.endswith(ext) for ext in exts)` holds exactly when some listed extension ends the name |
| `Preview.CodeLanguage` | file_server.py:167-168 | there is a highlighting language exactly when the last dot-separated segment is py/json/html/css/js, and it is that segment |
| `Preview.CodeLanguageOfExtension` | file_server.py:167-168 | for a name with a dot, the highlighting language is its extension when that is a known language, and none otherwise |
| `Preview.Extension` | file_server.py:167 | a name's extension, when it has a dot, is dot-free and ends the name after a dot; a name without one has no dot |
| `Preview.EndsWithExtension` | file_server.py:156-173 | a name ends with "." plus a dot-free `ext` exactly when `ext` is its extension |
| `Preview.NamedSuffixes` | file_server.py:160-173 | a name ends with ".md", ".csv", ".txt" or ".pdf" exactly when that is its extension |
| `Preview.TextExtensionMatch` | file_server.py:156 | a name has one of the eight text extensions exactly when its extension is one of the eight text names |
| `Preview.ClassifyByExtension` | file_server.py:147-175 | the chain of MIME and suffix tests chooses the same preview as a lookup on the single extension |
| `Preview.Classify` | file_server.py:147-175 | image exactly for an `image/` MIME type; text exactly for a non-image with a text extension; the PDF notice only when neither applies; otherwise nothing. `ClassifyByExtension` and the four kind lemmas below give the text sub-kinds |
| `Preview.FilePreview` | file_server.py:143-175 | the name is lower-cased before matching and the MIME type is not: image exactly for an `image/` MIME type, text exactly for a non-image whose lower-cased name has a text extension |
| `Preview.MarkdownKind` | file_server.py:160-161 | a non-image file gets the markdown view exactly when its name ends with ".md" |
| `Preview.TableKind` | file_server.py:162-165 | a non-image file gets the table view exactly when its name ends with ".csv" |
| `Preview.PlainTextKind` | file_server.py:166-168 | a non-image file gets code without a language exactly when its name ends with ".txt" |
| `Preview.CodeLanguageKind` | file_server.py:166-168 | a non-image file gets code in `lang` exactly when `lang` is py/json/html/css/js and the name ends with "." plus `lang` |
| `Preview.PreviewIgnoresCase` | file_server.py:144 | two files with the same MIME type whose names differ only in case get the same preview |
| `Preview.CsvExample` | file_server.py:144-165 | "Report.CSV" with MIME type text/csv gets the table view |
| `Preview.ImageExample` | file_server.py:147 | "photo.JPG" with MIME type image/jpeg gets the image preview |
| `Preview.NoPreviewExample` | file_server.py:147-175 | "archive.zip" gets no preview |
| `Preview.TxtExample` | file_server.py:156-168 | "notes.txt" without a MIME type gets code without a language |
| `Preview.PythonExample` | file_server.py:156-168 | "main.PY" gets code highlighted as "py" |
| `Sidebar.TotalBytes` | file_server.py:184 | no file's size exceeds the total, and files without a size add nothing to it; `TotalBytesAppend`, `TotalBytesRemove` and `TotalBytesPermutation` relate it to other listings |
| `Sidebar.TotalBytesAppend` | file_server.py:184 | the total of two listings put together is the sum of their totals |
| `Sidebar.TotalBytesRemove` | file_server.py:184 | taking one file out of the listing takes exactly its size off the total |
| `Sidebar.TotalBytesPermutation` | file_server.py:184 | the total does not depend on the order of the listing |
| `Sidebar.Summarize` | file_server.py:182-188 | the count is the number of listed files; the total reads back in KB below 1048576 bytes and in MB from there on |
| `Sidebar.EmptySummary` | file_server.py:182-186 | an empty listing shows 0 files and "0.0 KB" |

## Left out

- Credential loading (Streamlit secrets or `credentials.json`) and building the Drive client: configuration I/O and a foreign SDK.
- `list_files`, `upload_file`, `download_file`, `delete_file` and the chunked download loop: thin wrappers over Drive API calls, whose behaviour is the Drive server's.
- The listing's order (`createdTime desc`): the Drive server sorts it. The model takes the listing as given, and the total does not depend on its order.
- The creation-time caption (ISO parsing and `strftime`), the UTF-8 decoding of a text preview and the pandas parsing of a CSV preview: library calls. The model stops at which preview is chosen.
- Every Streamlit widget, rerun, cache clearing and error banner, and the per-file error handling of the upload loop, which only wraps SDK calls.
- Sizes arrive from Drive as decimal strings that `int()` parses. The model takes them as non-negative integers.
- Sizes of 2^53 bytes and more, where `size / 1024` is no longer an exact double, are not modelled exactly. The model keeps exact integer rounding there.
- `Text.Lower`: lower-cases ASCII letters only, where Python's `str.lower` maps all of Unicode. Only two non-ASCII characters lower-case to something holding an ASCII letter: the Kelvin sign (to "k") and the capital I with a dot (to "i" and a combining dot). No extension here contains "k" or "i", so the suffix tests agree.
