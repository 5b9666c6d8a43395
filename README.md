# pdf_combiner in Dafny

A model of the document-merging core of *pdf_combiner*, with its properties proved. pdf_combiner combines PDF, DOC and DOCX files from a directory into one PDF. It converts office documents first and runs OCR on image-only PDFs. It records the source file names in the output's `/Subject` entry, and it can check a merged file against its source directory.

The model covers three programs that share those ideas:

- the `pdf_combiner` package (`PDFMerger` and its helpers);
- the stand-alone script `combine_pdfs.py`;
- its enhanced variant `combine_pdfs_enhanced.py`.

Files, PDFs and external tools are abstract values:

- A file system is a map from paths to nodes (kind, size, modification time) plus the order in which a directory is enumerated.
- A PDF is a sequence of page texts, each extracted or failing to extract, plus its information dictionary. A stored file either parses or is corrupt.
- An external program (LibreOffice, OCRmyPDF) is a function from the command line and its timeout to an outcome. The outcome is an exit code with the files present afterwards, a timeout, or "not installed". The `docx2pdf` library is a function to "returned", "cannot import" or "threw".
- An exception is an `Error` value: a kind, a message and a details map. A call that can raise returns `Result<T>`.

Modules follow the source:

| module | models |
|---|---|
| `Models` | `models.py`: `DocumentInfo` (a value), `ProcessingResult` (a class whose fields the pipeline updates), success rate, failed files, match percentage |
| `Exceptions` | `exceptions.py`: the error constructors and their details dictionaries |
| `Utils` | `utils.py`: type detection, the directory scan, counting, `get_file_info`, dependency checks, `sanitize_filename` |
| `Validators` | `validators.py`: the guard chains and the document list validation |
| `Converters` | `converters.py`: conversion dispatch, LibreOffice and docx2pdf paths, output naming, the batch converter's serial path |
| `Ocr`, `Batch` | `ocr.py`: `needs_ocr`, the command vector, `process_pdf`, `get_ocr_info`, and the OCR batch's passes |
| `Merger` | `merger.py`: `PDFMerger` construction, the three pipeline steps over a `ProcessingResult`, `merge_directory`, `verify_merged_pdf` |
| `CombinePdfs` | `combine_pdfs.py` |
| `CombinePdfsEnhanced` | `combine_pdfs_enhanced.py`, with `EnhancedPDFProcessor` as a class |
| `Provenance`, `Pages` | the `/Subject` writer and reader shared by all three, and the sampled-page text checks |
| `Strings`, `Paths`, `Order`, `Collections`, `World`, `Base` | Python's `str` operations used (`strip`, `split`, `join`, `replace`, `lower`), `PurePath` name/suffix/stem, stable sorting, small sequence and set facts, the abstract environment, `Option` |

The main results:

- **Provenance round trip.** Names written as `"Combined from: " + ", ".join(names)` read back as exactly those names. This holds when each name is non-empty, comma-free, has no surrounding whitespace and does not contain the sentinel (`Provenance.ParseNamesRoundTrip`). Conversely, a list that reads back as written has no name with a comma or surrounding whitespace (`Provenance.RoundTripNeedsCleanNames`). An empty list reads back as one empty name (`Provenance.EmptySubjectReadsBlank`).
- **Merge bookkeeping in `PDFMerger`.**
  - After a successful run every record is COMPLETED or FAILED and none is SKIPPED. The counters count exactly those records and add up to all documents. `total_pages` is the merged document's length, and `/Subject` names the completed documents in order (`Merger.PipelineSucceeds`).
  - Reading that output back finds exactly those names (`Merger.SucceededVerifies`).
- **Out-of-order completion.** In the enhanced script, results are collected as tasks complete and then re-sorted by catalog index. Whatever the completion order, this gives the successful documents in catalog order (`CombinePdfsEnhanced.MergeOrderIsCatalogOrder`).
- **Bookmarks.** Bookmark offsets are prefix sums of page counts (`CombinePdfsEnhanced.BookmarksFollowOneAnother`).
- **`sanitize_filename`.** Its output is safe, never empty and idempotent (`Utils.SanitizedIsSafe`, `Utils.SanitizedIdempotent`).

Two more properties are definitions rather than lemmas:

- `ProcessingResult.has_errors`: the predicate `Models.ProcessingResult.HasErrors`.
- The `ProcessingOptions` defaults: the constant `Models.DefaultOptions`. `max_workers ≥ 1` is the subset type `Models.Workers`.

Behaviours modelled as the code has them:

- In `converters.py` and `ocr.py`, a "no output file" error raised inside the `try` is caught by the generic `except` and raised again with the generic message.
- After a successful batch conversion, every record has a PDF, so `_merge_pdfs` never marks one SKIPPED.
- `combine_pdfs.py` writes `"Combined from: "` even when nothing was processed. That reads back as one empty name, so verification then reports a discrepancy rather than "cannot verify" (`CombinePdfs.EmptyMergeReportsBlankName`).

## Model

| member | source | states |
|---|---|---|
| Models.Extension | pdf_combiner_pro/pdf_combiner/models.py:71-74 | the extension has no dot; it is empty exactly when the path has no suffix, and otherwise the lower-cased suffix is a dot followed by it |
| Models.LoweredSuffixShape | pdf_combiner_pro/pdf_combiner/models.py:74 | `lstrip('.')` of a lower-cased suffix leaves dot-free text, empty exactly when the suffix is, and the suffix is that text after one dot |
| Models.FailedNamesSpec | pdf_combiner_pro/pdf_combiner/models.py:118-123 | the failed names are the names of the failed documents in document order, one per failed document, and a name is listed exactly when some document with that name failed |
| Models.FailedNamesAreFilter | pdf_combiner_pro/pdf_combiner/models.py:118-123 | the failed names are the names of the documents the comprehension keeps, in document order |
| Models.ProcessingResult.constructor | pdf_combiner_pro/pdf_combiner/models.py:90-104 | a new result holds the given counters, path and documents, with no errors and no warnings |
| Models.ProcessingResult.SuccessRate | pdf_combiner_pro/pdf_combiner/models.py:106-111 | 0 when there are no documents; between 0 and 100 when the processed count does not exceed the total; 100 exactly when all documents were processed |
| Models.ProcessingResult.GetFailedFiles | pdf_combiner_pro/pdf_combiner/models.py:118-123 | the names of the failed documents in document order, one per failed document; a name is listed exactly when some document with that name failed |
| Models.Percent | pdf_combiner_pro/pdf_combiner/models.py:111 | a part within its whole gives a percentage between 0 and 100, and 100 exactly when the part is the whole |
| Models.CommonCountFacts | pdf_combiner_pro/pdf_combiner/models.py:143 | the number of distinct expected names that were found is at most the expected count; if it equals that count, every expected name was found; for a list without repeats, the converse holds too |
| Models.VerificationResult.MatchPercentage | pdf_combiner_pro/pdf_combiner/models.py:138-144 | 100 for an empty expected list; always between 0 and 100; 100 only when every expected name was found, and (for a list without repeats) whenever every one was |
| Exceptions.PdfCombinerError | pdf_combiner_pro/pdf_combiner/exceptions.py:9-18 | a combiner error with the message; its details are the given map, or empty when none is given |
| Exceptions.ValidationError | pdf_combiner_pro/pdf_combiner/exceptions.py:24-37 | "field" and "value" are recorded exactly when given and non-empty, with their values, and nothing else is recorded |
| Exceptions.ConversionError | pdf_combiner_pro/pdf_combiner/exceptions.py:43-57 | "source_file" and "target_format" are recorded exactly when given and non-empty, and nothing else is |
| Exceptions.OcrError | pdf_combiner_pro/pdf_combiner/exceptions.py:63-75 | the engine is always recorded; "pdf_file" is recorded exactly when given and non-empty |
| Exceptions.FileReadError | pdf_combiner_pro/pdf_combiner/exceptions.py:81-88 | the only detail is "file_path", holding the path |
| Exceptions.MergeError | pdf_combiner_pro/pdf_combiner/exceptions.py:94-104 | "failed_files" is recorded exactly when the list is given and non-empty, and is then that list |
| Exceptions.DependencyError | pdf_combiner_pro/pdf_combiner/exceptions.py:110-122 | the dependency is always recorded; an install hint, when given and non-empty, extends the message with ". Install with: " and is recorded too; without one the message is the plain one |
| Models.NewDocument | pdf_combiner_pro/pdf_combiner/models.py:43-53 | a new record keeps its path, name, type and size, is PENDING, and has no OCR status, page count, text flag or error message |
| Utils.GetDocumentType | pdf_combiner_pro/pdf_combiner/utils.py:21-39 | a type is returned exactly when the lower-cased suffix is a supported one |
| Utils.DocumentTypeBySuffix | pdf_combiner_pro/pdf_combiner/utils.py:30-39 | PDF exactly for ".pdf", DOC exactly for ".doc" and DOCX exactly for ".docx", in any case |
| Utils.ExtensionCases | pdf_combiner_pro/pdf_combiner/utils.py:30-37 | the extension is "pdf", "doc" or "docx" exactly when the lower-cased suffix is that name after a dot |
| Utils.DocumentTypeIgnoresCase | pdf_combiner_pro/pdf_combiner/utils.py:30 | two names that are equal up to case get the same type |
| Utils.SupportedFiles | pdf_combiner_pro/pdf_combiner/utils.py:66-68 | a candidate is kept exactly when it is a regular file with a supported suffix |
| Utils.IterDocuments | pdf_combiner_pro/pdf_combiner/utils.py:42-68 | raises NotADirectoryError exactly when the path is not a directory, with the message for a missing path or for a file; otherwise yields exactly the supported files below the directory (only direct children unless recursive), in sorted order, strictly ascending when no entry is listed twice |
| Utils.ScanFacts | pdf_combiner_pro/pdf_combiner/utils.py:63-68 | the loop yields exactly the supported files below the directory, in order, and strictly ascending when no entry is listed twice |
| Utils.ScanOrder | pdf_combiner_pro/pdf_combiner/utils.py:66-68 | filtering the sorted glob result leaves it sorted |
| Utils.ScanStrictOrder | pdf_combiner_pro/pdf_combiner/utils.py:66-68 | filtering a sorted glob result without repeats leaves it strictly ascending |
| Utils.CountDocuments | pdf_combiner_pro/pdf_combiner/utils.py:71-81 | the error of `iter_documents`, or the number of documents it yields, which is the number of distinct documents when no entry is listed twice |
| Utils.CountIsSize | pdf_combiner_pro/pdf_combiner/utils.py:81 | when no entry is listed twice, the count is the size of the set of accepted documents |
| Utils.CountListedOnce | pdf_combiner_pro/pdf_combiner/utils.py:81 | with every entry listed once, the documents yielded are as many as the distinct accepted documents |
| Utils.GetFileInfo | pdf_combiner_pro/pdf_combiner/utils.py:84-109 | a ValueError naming the suffix exactly for an unsupported type; a FileNotFoundError for a supported but missing file; otherwise a pending record with the file's name, type, size and times, and no optional field set |
| Utils.CheckSystemDependencies | pdf_combiner_pro/pdf_combiner/utils.py:112-147 | the available and missing lists partition the checked tools in checking order: a tool is missing exactly when it is checked and not found on the path |
| Utils.RecordAllFilters | pdf_combiner_pro/pdf_combiner/utils.py:121-145 | the sequence of appends adds the found tools to the available list and the others to the missing list, in order |
| Utils.KnownHintsDiffer | pdf_combiner_pro/pdf_combiner/utils.py:160-180 | no hint in the table coincides with the generic one |
| Utils.InstallCommand | pdf_combiner_pro/pdf_combiner/utils.py:150-180 | the table's hint when it has one; the generic "Install … for your system" exactly when it has none, and always on an unknown platform |
| Utils.MissingRequired | pdf_combiner_pro/pdf_combiner/utils.py:194 | a tool is selected exactly when it is required and missing |
| Utils.EnsureDependencies | pdf_combiner_pro/pdf_combiner/utils.py:183-204 | raises exactly when some required tool is missing, with a DependencyError for the first such tool and its install hint |
| Utils.EnsureSelects | pdf_combiner_pro/pdf_combiner/utils.py:194-204 | a non-empty selection starts with a required missing tool, and the error names it with its install hint |
| Utils.MissingRequiredFirst | pdf_combiner_pro/pdf_combiner/utils.py:194 | the selection is empty exactly when no required tool is missing; otherwise it starts with the first required tool that is missing |
| Utils.UncheckedNeverMissing | pdf_combiner_pro/pdf_combiner/utils.py:140-145 | off Linux, LibreOffice is never checked and so never reported missing |
| Utils.RunCommand | pdf_combiner_pro/pdf_combiner/utils.py:207-256 | succeeds exactly when the tool exits with code 0; a timeout raises TimeoutExpired, a missing program raises FileNotFoundError naming it, and a non-zero exit raises CalledProcessError, whose message gives the command's `repr` and the exit status or the killing signal |
| Utils.StrRepr | pdf_combiner_pro/pdf_combiner/utils.py:231-236 | `repr` of a command argument, as `CalledProcessError` prints it, begins and ends with the delimiter `repr` picks |
| Utils.ReprQuote | pdf_combiner_pro/pdf_combiner/utils.py:231-236 | the delimiter `repr` picks is a single or a double quote |
| Utils.HexValue | pdf_combiner_pro/pdf_combiner/utils.py:231-236 | a hexadecimal digit's value is below 16 |
| Utils.UnescapeChar | pdf_combiner_pro/pdf_combiner/utils.py:231-236 | each character `repr` writes, escaped or not, reads back as itself |
| Utils.UnescapePair | pdf_combiner_pro/pdf_combiner/utils.py:231-236 | a two-character escape (quote, backslash, tab, newline, carriage return) reads back as its character |
| Utils.UnescapeHex | pdf_combiner_pro/pdf_combiner/utils.py:231-236 | a `\xhh` escape of a control character reads back as that character |
| Utils.HexDigitValue | pdf_combiner_pro/pdf_combiner/utils.py:231-236 | a hexadecimal digit reads back as its value |
| Utils.ReprBodyRoundTrip | pdf_combiner_pro/pdf_combiner/utils.py:231-236 | `repr` loses nothing: unescaping the text between its delimiters gives back the argument |
| Utils.PlainRepr | pdf_combiner_pro/pdf_combiner/utils.py:231-236 | an argument with no quote, backslash or control character is printed as itself between single quotes |
| Utils.PlainBody | pdf_combiner_pro/pdf_combiner/utils.py:231-236 | such an argument's escaped text is the argument |
| Utils.ReplaceEachChars | pdf_combiner_pro/pdf_combiner/utils.py:287-288 | after the replacements, each invalid character has become '_' and every other character is unchanged |
| Utils.ReplacedAvoids | pdf_combiner_pro/pdf_combiner/utils.py:287-288 | no invalid character survives the replacements |
| Utils.SanitizedIsSafe | pdf_combiner_pro/pdf_combiner/utils.py:276-297 | every sanitised name is non-empty, has no invalid character and no dot or space at either end |
| Utils.UnnamedIsSafe | pdf_combiner_pro/pdf_combiner/utils.py:294-295 | the fallback "unnamed" is a safe name |
| Utils.SafeNameFixed | pdf_combiner_pro/pdf_combiner/utils.py:276-297 | a safe name is left unchanged |
| Utils.SanitizedIdempotent | pdf_combiner_pro/pdf_combiner/utils.py:276-297 | sanitising twice is the same as sanitising once |
| Utils.SanitizeFilename | pdf_combiner_pro/pdf_combiner/utils.py:276-297 | the loop returns the sanitised name, which is safe and a fixed point of sanitising |
| Pages.SliceCount | combine_pdfs.py:140 | `pages[:k]` of `n` pages selects `min(k, n)` pages for a non-negative `k` and drops `-k` pages from the end for a negative one |
| Pages.RangeCount | combine_pdfs_enhanced.py:230-232 | `range(min(k, n))` visits `min(k, n)` pages, and none for a non-positive `k` |
| Pages.ScanPages | combine_pdfs.py:139-146 | the scan finds text exactly when some page has text after only blank pages; it finds none exactly when every page is blank; it fails exactly when a raising page comes after only blank pages, and with that page's error |
| Pages.AnyText | combine_pdfs_enhanced.py:232-240 | the tolerant scan is true exactly when some page has text; a page whose extraction raises is passed over |
| Pages.ScansAgree | combine_pdfs_enhanced.py:226-245 | when no extraction raises, the strict scan and the tolerant scan return the same answer |
| Pages.FirstText | pdf_combiner_pro/pdf_combiner/validators.py:148-152 | if some page has text, a first page with text exists and every page before it is blank |
| Pages.CountText | pdf_combiner_pro/pdf_combiner/ocr.py:175-180 | the number of pages with text is at most the page count, and is zero exactly when no page has text |
| Provenance.SubjectCarriesMarker | combine_pdfs.py:268 | every "Combined from: …" value the writer produces contains the marker the readers look for |
| Provenance.StripEach | combine_pdfs.py:190 | one stripped piece for each piece, in order |
| Provenance.ParseNames | combine_pdfs.py:189-190 | the reader returns at least one name, and every name is comma-free and already stripped |
| Provenance.NonEmpty | combine_pdfs_enhanced.py:566 | the kept entries are exactly the non-empty ones, and there are no more of them than entries |
| Provenance.ParseNonBlankNames | combine_pdfs_enhanced.py:565-566 | the enhanced reader keeps exactly the non-empty names the plain reader returns |
| Provenance.SplitJoined | combine_pdfs.py:190 | splitting a ", "-join of recoverable names on ',' and stripping each piece gives the names back |
| Provenance.ParseNamesRoundTrip | combine_pdfs.py:268 | the reader recovers, in order and one for one, every non-empty list of names without commas, surrounding whitespace or the marker that the writer joined |
| Provenance.RoundTripNeedsCleanNames | combine_pdfs.py:189-190 | conversely, a list that reads back as written has no name with a comma or surrounding whitespace |
| Provenance.EmptySubjectReadsBlank | combine_pdfs.py:268 | with no names the writer leaves "Combined from: ", which the plain reader returns as one empty name and the enhanced reader as none |
| Provenance.NonBlankRoundTrip | combine_pdfs_enhanced.py:566 | the enhanced reader recovers the set of names the writer joined |
| Provenance.FindInFields | combine_pdfs.py:185-190 | the value of the first of the searched entries that is present and contains the marker; none exactly when no searched entry holds the marker |
| Validators.Rejection | pdf_combiner_pro/pdf_combiner/validators.py:28-31 | a ValidationError with the message that records the field it is about |
| Validators.ValidateDirectory | pdf_combiner_pro/pdf_combiner/validators.py:18-49 | succeeds exactly for a readable directory; otherwise a ValidationError on "directory" says whether the path is missing, not a directory or not readable |
| Validators.ValidateOutputPath | pdf_combiner_pro/pdf_combiner/validators.py:52-98 | succeeds exactly when the parent exists, the file is absent or may be overwritten, the parent is writable and the suffix is ".pdf"; otherwise a ValidationError on "output_path" names the first check that failed |
| Validators.Sample | pdf_combiner_pro/pdf_combiner/validators.py:149 | the first three pages, or all pages when there are fewer |
| Validators.ValidateDocument | pdf_combiner_pro/pdf_combiner/validators.py:101-158 | a missing path, a path that is not a file and an unsupported suffix each raise their ValidationError on "document"; an accepted record is the file record with only the PDF facts added, and a non-PDF record is exactly the file record; a supported file raises only for a PDF, and then only with a missing file or a failure other than `PdfReadError` |
| Validators.ReadDocument | pdf_combiner_pro/pdf_combiner/validators.py:137-158 | for an existing supported file the file record exists; the result is that record with only the PDF facts added, and only a PDF can raise |
| Validators.ReadRecord | pdf_combiner_pro/pdf_combiner/validators.py:141-158 | what reading adds to a file record: nothing for a non-PDF; for a PDF only the PDF facts, raising only with the reader's own non-`PdfReadError` failure or a page's extraction error |
| Validators.PdfRecord | pdf_combiner_pro/pdf_combiner/validators.py:141-156 | an accepted PDF has a page count and a text flag exactly when it could be opened; the count is its number of pages; the flag is true exactly when a sampled page has text after only blank ones; an error message is recorded exactly when a `PdfReadError` was caught |
| Validators.AcceptedPdfIsRead | pdf_combiner_pro/pdf_combiner/validators.py:137-158 | an accepted PDF is what reading the file makes of its file record |
| Validators.ReadPdfRecord | pdf_combiner_pro/pdf_combiner/validators.py:141-156 | the facts of `PdfRecord`, stated in terms of what opening the file gave |
| Validators.MissingPdfRaises | pdf_combiner_pro/pdf_combiner/validators.py:143-144 | a PDF that the reader cannot find makes validation raise a FileNotFoundError |
| Validators.ReadPdf | pdf_combiner_pro/pdf_combiner/validators.py:141-156 | a `PdfReadError` is caught and recorded as the error message; any other failure escapes; a readable PDF gets its page count and the result of the text scan of its first three pages |
| Validators.ValidatorKeepsPath | pdf_combiner_pro/pdf_combiner/validators.py:137-158 | an accepted path's record names that same path |
| Validators.DocPaths | pdf_combiner_pro/pdf_combiner/validators.py:177-183 | one path per record, in order |
| Validators.CollectNoFatal | pdf_combiner_pro/pdf_combiner/validators.py:179-185 | the loop finishes without an escaping exception exactly when no path fails other than by a ValidationError |
| Validators.CollectAccepted | pdf_combiner_pro/pdf_combiner/validators.py:179-185 | without an escaping exception, the records kept are those of the accepted paths, in order, each the validation of its path, and each path is kept or has an error logged |
| Validators.CollectFatal | pdf_combiner_pro/pdf_combiner/validators.py:179-185 | an escaping exception is that of the first path that fails other than by a ValidationError |
| Validators.CollectStep | pdf_combiner_pro/pdf_combiner/validators.py:179-185 | one more path extends the loop's progress by that path's outcome |
| Validators.FatalStays | pdf_combiner_pro/pdf_combiner/validators.py:179-185 | once an exception has escaped, the remaining paths change nothing |
| Validators.ValidateDocuments | pdf_combiner_pro/pdf_combiner/validators.py:161-195 | raises "No documents provided" for an empty list; succeeds exactly when some path is accepted and none fails other than by a ValidationError, and then returns the records of exactly the accepted paths, in order; an escaping exception is that of the first such path |
| Validators.ValidateEach | pdf_combiner_pro/pdf_combiner/validators.py:172-195 | the loop returns what `validate_documents` returns or raises, for any validation of one path |
| Validators.ValidateOutcome | pdf_combiner_pro/pdf_combiner/validators.py:161-195 | the promises of `ValidateDocuments`, for the validator it runs |
| Validators.OutcomeFacts | pdf_combiner_pro/pdf_combiner/validators.py:161-195 | for any validation that keeps paths: a success is non-empty and is the accepted records in order; success exactly when some path is accepted and none fails fatally; a non-validation error is the first fatal one |
| Validators.UnusualLanguageParts | pdf_combiner_pro/pdf_combiner/validators.py:198-218 | the warned-about codes are exactly the '+'-separated parts that are unusual |
| Validators.CommonLanguagesUsual | pdf_combiner_pro/pdf_combiner/validators.py:208-218 | a common code, alone or joined with another by '+', draws no warning |
| Validators.ValidateConfigFile | pdf_combiner_pro/pdf_combiner/validators.py:221-268 | succeeds exactly for an existing file with a ".yaml" or ".yml" suffix that loads; otherwise a ValidationError on "config" for a missing path, a non-file, a wrong suffix, bad YAML or a failed read |
| Batch.PassFailure | pdf_combiner_pro/pdf_combiner/ocr.py:236-249 | a pass stops exactly when an operation on a selected document raises, and then at the first such document, with that document's error |
| Batch.PassResults | pdf_combiner_pro/pdf_combiner/ocr.py:236-244 | a pass that ran to the end has an entry exactly for the starting entries and the selected documents; with unique paths each selected document maps to its operation's result, and untouched starting entries are kept |
| Batch.AddSelfFacts | pdf_combiner_pro/pdf_combiner/ocr.py:215-225 | mapping the selected documents to themselves adds an entry exactly for each of them, to its own path when paths are unique, and keeps every other entry |
| Batch.SamePathsUnique | pdf_combiner_pro/pdf_combiner/ocr.py:221-284 | a pass that changes only statuses keeps the documents' keys unique |
| Batch.ThreePassKeys | pdf_combiner_pro/pdf_combiner/ocr.py:204-286 | when the three passes between them select every document and the middle one ran to the end, every document has an entry and every key is a document's |
| Batch.ThreePassValues | pdf_combiner_pro/pdf_combiner/ocr.py:204-286 | when each document is selected by exactly one pass and paths are unique, a worked-on document maps to its result and every other document to itself |
| Ocr.NewOcrProcessor | pdf_combiner_pro/pdf_combiner/ocr.py:22-52 | construction fails exactly when ocrmypdf, Tesseract or Ghostscript is missing, with that DependencyError; otherwise the settings are kept and missing extra arguments become none |
| Ocr.NeedsOcr | pdf_combiner_pro/pdf_combiner/ocr.py:54-85 | OCR is needed exactly when the file opens and every sampled page of the first `min(sample, count)` has been read as blank; a read error or an extraction error answers no |
| Ocr.NoOcrReasons | pdf_combiner_pro/pdf_combiner/ocr.py:70-85 | for a file that opens, a "no" means some sampled page has text or raises on extraction |
| Ocr.OcrCommand | pdf_combiner_pro/pdf_combiner/ocr.py:113-129 | the command is ocrmypdf with language, DPI and "--quiet", then "--skip-text" when pages with text are skipped, then the extra arguments, then input and output |
| Ocr.OcrOutput | pdf_combiner_pro/pdf_combiner/ocr.py:105-108 | the given output path, or "ocr_" before the input's name in the system temporary directory |
| Ocr.ProcessPdf | pdf_combiner_pro/pdf_combiner/ocr.py:87-152 | a PDF that needs no OCR is returned as it is; otherwise success exactly when the tool runs and leaves the output, which is returned; a missing ocrmypdf raises DependencyError with its install hint; any other failure, the missing output included, raises an OCRError naming the input |
| Ocr.FirstFailure | pdf_combiner_pro/pdf_combiner/ocr.py:175-176 | the position of the first page whose extraction raises, or the page count; every page before it is extracted |
| Ocr.OcrInfoFacts | pdf_combiner_pro/pdf_combiner/ocr.py:154-188 | the text and image counts add up to the page count exactly when no extraction raised; has_text implies a text page; needs_ocr implies an image page and skipping; for a fully read file, has_text holds exactly when some page has text and needs_ocr exactly when some page has none and skipping is on |
| Ocr.GetOcrInfo | pdf_combiner_pro/pdf_combiner/ocr.py:154-188 | the loop reports what `OcrInfoFacts` describes for the file |
| Ocr.ClassifyPages | pdf_combiner_pro/pdf_combiner/ocr.py:175-184 | the loop over the pages counts the text and image pages up to the first that raises, with the flags of a file that opens |
| Ocr.BatchOutput | pdf_combiner_pro/pdf_combiner/ocr.py:239-242 | an output path exactly when an output directory is given, and it is "ocr_" before the document's name in it |
| Ocr.Triaged | pdf_combiner_pro/pdf_combiner/ocr.py:215-225 | the first pass marks each record on its own, keeping the list's length |
| Ocr.WorkCount | pdf_combiner_pro/pdf_combiner/ocr.py:219-227 | the number of PDFs needing OCR among the first `n` is at most `n` |
| Ocr.NoWork | pdf_combiner_pro/pdf_combiner/ocr.py:227-229 | the count is zero exactly when none of the records needs OCR |
| Ocr.Marked | pdf_combiner_pro/pdf_combiner/ocr.py:234-279 | the OCR pass updates each record on its own, keeping the list's length |
| Ocr.Finished | pdf_combiner_pro/pdf_combiner/ocr.py:281-284 | the last pass updates each record on its own, keeping the list's length |
| Ocr.BatchTestsPathOnly | pdf_combiner_pro/pdf_combiner/ocr.py:215-220 | the batch's tests for "is a PDF" and "needs OCR" look only at the path |
| Ocr.NoWorkOutcome | pdf_combiner_pro/pdf_combiner/ocr.py:227-229 | when no PDF needs OCR, the batch returns after the first pass with each PDF mapped to itself |
| Ocr.OcrBatchRecords | pdf_combiner_pro/pdf_combiner/ocr.py:204-286 | after a successful batch only the OCR status of each record has changed; each PDF is completed or not needed by its own test; a document that is not a PDF is not needed when some PDF needed OCR, and untouched otherwise |
| Ocr.OkBatchRecords | pdf_combiner_pro/pdf_combiner/ocr.py:227-286 | a successful batch returns the first pass's records when no PDF needs OCR, and the records after all three passes otherwise |
| Ocr.TriagedRecords | pdf_combiner_pro/pdf_combiner/ocr.py:215-229 | when no PDF needs OCR, the first pass marks every PDF not needed and leaves everything else unchanged |
| Ocr.FinishedRecords | pdf_combiner_pro/pdf_combiner/ocr.py:215-284 | after the three passes each PDF is completed or not needed by its test, and every other document is not needed |
| Ocr.OcrPassesSelect | pdf_combiner_pro/pdf_combiner/ocr.py:215-284 | the three passes keep the paths, and each document is selected by exactly the pass its kind calls for |
| Ocr.SkipMapFacts | pdf_combiner_pro/pdf_combiner/ocr.py:219-229 | when no PDF needs OCR there is one entry per PDF and no other, each mapped to the PDF itself when paths are unique |
| Ocr.OcrBatchMap | pdf_combiner_pro/pdf_combiner/ocr.py:204-286 | a successful batch has an entry for every PDF, and for every document when some PDF needed OCR; every key is a document's; with unique paths, a PDF that needed OCR maps to its job's output and every other mapped document to itself |
| Ocr.BatchMapping | pdf_combiner_pro/pdf_combiner/ocr.py:227-286 | the facts of `OcrBatchMap`, for the mapping either branch of a successful batch returns |
| Ocr.OkBatchMapping | pdf_combiner_pro/pdf_combiner/ocr.py:231-286 | a successful batch that needs OCR for some PDF ran the OCR pass to the end and returns the mapping of the three passes |
| Ocr.WorkedMapping | pdf_combiner_pro/pdf_combiner/ocr.py:231-286 | when the OCR pass ran every job, every document has an entry, every key is a document's, and with unique paths a PDF that needed OCR maps to its output and every other document to itself |
| Ocr.ProcessDocuments | pdf_combiner_pro/pdf_combiner/ocr.py:204-286 | the method returns the records and the mapping (or the error) the three passes describe, including the worker-count error of the parallel branch |
| Ocr.TriagePass | pdf_combiner_pro/pdf_combiner/ocr.py:215-225 | the loop marks each PDF, maps those needing no OCR to themselves and counts those needing it |
| Ocr.OcrPass | pdf_combiner_pro/pdf_combiner/ocr.py:234-279 | the loop runs the job on each PDF needing OCR in order, recording its output; the first failure marks that record failed and raises the error itself when serial, or a batch OCRError naming the document otherwise |
| Ocr.FinishPass | pdf_combiner_pro/pdf_combiner/ocr.py:281-284 | the loop maps every document that is not a PDF to itself and marks it not needed |
| Ocr.OcrBatchRaised | pdf_combiner_pro/pdf_combiner/ocr.py:227-279 | a batch needing no OCR succeeds; the parallel branch refuses a worker limit below one; otherwise the batch fails exactly when the job fails for some PDF needing OCR, and then with the first such PDF's error (as it is when serial, wrapped in a batch OCRError naming the document when parallel), every PDF needing OCR before it having succeeded |
| Ocr.OcrBatchPass | pdf_combiner_pro/pdf_combiner/ocr.py:234-279 | once the OCR pass runs, the batch fails exactly when the pass stops, with the error raised for the record it stopped at |
| Ocr.TriagedFailure | pdf_combiner_pro/pdf_combiner/ocr.py:219-279 | the OCR pass stops exactly when the job fails for a PDF needing OCR, and then at the first such PDF, all earlier ones having succeeded |
| Converters.ExpectedOutput | pdf_combiner_pro/pdf_combiner/converters.py:80 | the converted file lies in the output directory, with the input's stem and the suffix ".pdf" |
| Converters.OfficeOutputDir | pdf_combiner_pro/pdf_combiner/converters.py:76-77 | the given directory, else the converter's temporary directory, else the system one |
| Converters.ConversionFailure | pdf_combiner_pro/pdf_combiner/converters.py:108-112 | a ConversionError with the message that names the input and the target format "pdf" |
| Converters.ConvertWithDocx2Pdf | pdf_combiner_pro/pdf_combiner/converters.py:89-128 | succeeds exactly when the library returns and leaves the output, which is returned; every failure is a ConversionError naming the input: the import message when docx2pdf is missing, and otherwise "Failed to convert document: …", for a missing output too |
| Converters.LibreOfficeCommand | pdf_combiner_pro/pdf_combiner/converters.py:143-149 | the command is libreoffice headless, converting to pdf into the output directory, then the input |
| Converters.ExpectedMatches | pdf_combiner_pro/pdf_combiner/converters.py:155-159 | the expected output is itself one of the files the glob finds |
| Converters.ConvertWithLibreOffice | pdf_combiner_pro/pdf_combiner/converters.py:130-182 | succeeds exactly when the tool runs and some file in the directory matches the stem glob; returns the expected output when present, else the first match; a missing tool raises the LibreOffice DependencyError; any other failure, a missing output included, raises "LibreOffice conversion failed: …" naming the input |
| Converters.ConvertOffice | pdf_combiner_pro/pdf_combiner/converters.py:63-87 | docx2pdf into the expected output on Windows and macOS, LibreOffice into the output directory elsewhere |
| Converters.ConvertToPdf | pdf_combiner_pro/pdf_combiner/converters.py:37-61 | a PDF is returned as it is; a converted document lies in the output directory, named by the input's stem and ending in ".pdf" (exactly the expected output on Windows and macOS); a failure is a ConversionError naming the input, or the LibreOffice DependencyError off Windows and macOS |
| Converters.ConvertedIsPresent | pdf_combiner_pro/pdf_combiner/converters.py:107-115 | a successful conversion returns a file that the route reported present |
| Converters.AddNothing | pdf_combiner_pro/pdf_combiner/converters.py:198-251 | the final pass of the batch, which selects no document, changes nothing |
| Converters.ConvertBatchOk | pdf_combiner_pro/pdf_combiner/converters.py:198-251 | a successful batch has an entry for every document and no other; with unique paths a PDF maps to itself and every other document to its conversion |
| Converters.ConvertBatchRaised | pdf_combiner_pro/pdf_combiner/converters.py:219-251 | the parallel branch refuses a worker limit below one; otherwise a batch fails exactly when some document to convert fails, and then with the first such document's error, wrapped in a batch ConversionError when parallel, every earlier document having converted |
| Converters.ConvertDocuments | pdf_combiner_pro/pdf_combiner/converters.py:198-251 | the method returns what the batch describes for its own converter |
| Converters.RunBatch | pdf_combiner_pro/pdf_combiner/converters.py:210-251 | the loop maps every PDF to itself and collects the rest, refuses a worker limit below one in the parallel branch, then runs the conversion pass |
| Converters.ConvertPass | pdf_combiner_pro/pdf_combiner/converters.py:219-249 | the loop converts the documents in order and records each result; the first failure raises the error as it is when serial, or a batch ConversionError naming the document when parallel |
| Merger.ConfigTempDir | pdf_combiner_pro/pdf_combiner/config.py:129-141 | the configured temporary directory when there is one, otherwise "pdf_combiner" under the system temporary directory |
| Merger.NewMerger | pdf_combiner_pro/pdf_combiner/merger.py:34-64 | construction fails, with a dependency error, exactly when OCR is enabled and an OCR dependency is missing; otherwise the batch converter uses the configured temporary directory and worker count, an OCR processor exists exactly when OCR is enabled and carries the configured language, DPI, skip flag, timeout and extra arguments, and the OCR batch gets min(2, max_workers) workers |
| Merger.ConvertedRecords | pdf_combiner_pro/pdf_combiner/merger.py:202-206 | the conversion step keeps every record in place and updates each one by whether the mapping has a PDF for it |
| Merger.NoneUnconverted | pdf_combiner_pro/pdf_combiner/merger.py:202-207 | no record counts as unconverted exactly when every record's path is a key of the mapping |
| Merger.ConversionCountsFailed | pdf_combiner_pro/pdf_combiner/merger.py:202-207 | after the conversion loop, the records marked FAILED are exactly the unconverted ones and all others are PROCESSING |
| Merger.ConversionLeavesNoneFailed | pdf_combiner_pro/pdf_combiner/merger.py:199-207 | when the batch conversion succeeds it has a PDF for every record, so the loop marks every record PROCESSING and none FAILED |
| Merger.FailedPendingRecords | pdf_combiner_pro/pdf_combiner/merger.py:211-216 | the handler keeps every record in place and marks the pending ones FAILED with the error's message |
| Merger.ConvertStep | pdf_combiner_pro/pdf_combiner/merger.py:187-217 | `_convert_documents` returns or raises what the batch converter does; on success each record becomes PROCESSING or FAILED and `failed_documents` grows by exactly the number of unconverted records; on failure pending records become FAILED with the message, the counter is unchanged, and the other counters, errors and warnings stay as they were |
| Merger.MarkConverted | pdf_combiner_pro/pdf_combiner/merger.py:202-207 | the status loop leaves the converted records and adds the number of unconverted records to the failed counter |
| Merger.MarkPendingFailed | pdf_combiner_pro/pdf_combiner/merger.py:213-216 | the handler loop leaves exactly the records with pending ones marked FAILED |
| Merger.TempRecord | pdf_combiner_pro/pdf_combiner/merger.py:237-245 | the stand-in record for a converted PDF exists exactly when the PDF exists (else the `stat` error); it carries the PDF's path, name and size, the original type, status PENDING and no OCR status |
| Merger.TempRecordsFail | pdf_combiner_pro/pdf_combiner/merger.py:233-246 | building the stand-in records fails exactly when some mapped record's PDF is missing, and otherwise every stand-in is for a mapped record's PDF |
| Merger.TempRecordsFailureStays | pdf_combiner_pro/pdf_combiner/merger.py:233-246 | once building the stand-ins has raised, later records do not change the error |
| Merger.Relinked | pdf_combiner_pro/pdf_combiner/merger.py:252-257 | the redirected mapping has exactly the input's keys; an entry whose PDF the OCR batch mapped takes the OCR output, every other entry keeps its PDF |
| Merger.OcrStep | pdf_combiner_pro/pdf_combiner/merger.py:219-264 | `_ocr_documents` returns the redirected mapping when OCR succeeds; on any exception it returns the input mapping unchanged and appends exactly one warning; either way the keys are the input's and records, counters and errors are unchanged |
| Merger.BuildTempRecords | pdf_combiner_pro/pdf_combiner/merger.py:233-246 | the loop builds the stand-in records for the mapped records in order, or stops at the first `stat` error |
| Merger.Relink | pdf_combiner_pro/pdf_combiner/merger.py:252-257 | the loop builds the redirected mapping key by key |
| Merger.VisitOf | pdf_combiner_pro/pdf_combiner/merger.py:281-309 | a record without a PDF is skipped; one whose PDF opens is read with its pages; otherwise the open error decides between a read error and another failure |
| Merger.Visits | pdf_combiner_pro/pdf_combiner/merger.py:280-281 | the records are visited in list order, one visit each |
| Merger.SettledRecords | pdf_combiner_pro/pdf_combiner/merger.py:280-313 | the first `n` records are settled by their visit, the rest are untouched |
| Merger.FirstStop | pdf_combiner_pro/pdf_combiner/merger.py:306-313 | the loop stops at the first visit that raises: a non-read error, or a read error under `fail_fast` |
| Merger.Reached | pdf_combiner_pro/pdf_combiner/merger.py:306-313 | the loop settles at most every record |
| Merger.AppendedNamesOrder | pdf_combiner_pro/pdf_combiner/merger.py:292-293 | `processed_files` holds exactly the names of the appended records |
| Merger.MergedMetadata | pdf_combiner_pro/pdf_combiner/merger.py:317-323 | the information dictionary has exactly the keys /Title, /Subject, /Producer, /Creator and /CreationDate; /Subject is the provenance for the appended names; /Title counts them; producer and creator are "PDF Combiner Pro" |
| Merger.OutputPdf | pdf_combiner_pro/pdf_combiner/merger.py:316-328 | the merged document has the appended pages, and carries the metadata exactly when it is asked for and something was appended |
| Merger.FirstStopAt | pdf_combiner_pro/pdf_combiner/merger.py:306-313 | the loop stops at any visit that stops after none before it did |
| Merger.AdvancedCounts | pdf_combiner_pro/pdf_combiner/merger.py:292-302 | over the visits, `total_pages` grows by the number of merged pages and `processed_documents` by the number of names collected |
| Merger.MergePdfs | pdf_combiner_pro/pdf_combiner/merger.py:266-340 | `_merge_pdfs` settles the records up to where the loop stops, advances the four counters by those visits, and returns the error that stopped it or the merged document; the total, errors and warnings are unchanged |
| Merger.SettleOne | pdf_combiner_pro/pdf_combiner/merger.py:282-310 | one iteration: a skipped, completed or failed record, one counter step, and the name and pages appended only for a readable PDF |
| Merger.MergeVisits | pdf_combiner_pro/pdf_combiner/merger.py:280-313 | the loop settles exactly the reached records, advances the counters by them, and either stops with the first stopping visit's error or collects every appended name and page in order |
| Merger.VisitStep | pdf_combiner_pro/pdf_combiner/merger.py:282-310 | one more visit advances the counters, the names and the pages by one step |
| Merger.EffectiveOptions | pdf_combiner_pro/pdf_combiner/merger.py:137-144 | given options are used as they are; otherwise OCR, metadata, worker count and temporary directory come from the configuration |
| Merger.AfterOcr | pdf_combiner_pro/pdf_combiner/merger.py:167-170 | the OCR step keeps the mapping's keys and adds at most one warning |
| Merger.MergeStage | pdf_combiner_pro/pdf_combiner/merger.py:167-174 | the OCR and merge steps keep one record per document |
| Merger.PipelineRun | pdf_combiner_pro/pdf_combiner/merger.py:162-174 | the three steps keep one record per document |
| Merger.Finished | pdf_combiner_pro/pdf_combiner/merger.py:176-183 | a run that did not raise returns its document; one that raised becomes a merge error "Failed to merge documents: …" whose failed files, when there are any, are the names of the FAILED records |
| Merger.MergeDocumentsOutcome | pdf_combiner_pro/pdf_combiner/merger.py:134-183 | an empty list raises the validation error "No documents provided"; a missing parent for the temporary directory raises `FileNotFoundError` naming it, before any step; any other failure is a merge error |
| Merger.DefaultTempDirMissing | pdf_combiner_pro/pdf_combiner/merger.py:136-159 | with default options, no configured temporary directory and no `<system temp>/pdf_combiner`, `merge_documents` raises `FileNotFoundError` before step 1 |
| Merger.MergeTallies | pdf_combiner_pro/pdf_combiner/merger.py:280-302 | over records that were PROCESSING, the counters grow by the numbers of COMPLETED, FAILED and SKIPPED records and by the summed page counts of the completed ones, and the names collected are the completed records' names in order |
| Merger.CompletedOrFailed | pdf_combiner_pro/pdf_combiner/merger.py:280-313 | when every record is completed or failed, the two counts add up to all and none is skipped |
| Merger.CountStatusSnoc | pdf_combiner_pro/pdf_combiner/models.py:118-123 | counting records of one status front to back matches counting with one record added at the end |
| Merger.MergeSucceeds | pdf_combiner_pro/pdf_combiner/merger.py:280-324 | a merge that does not raise over converted records leaves each record completed or failed and none skipped; the counters count those exactly, `total_pages` is the merged document's length and the completed records' page sum; /Subject is written exactly when asked for and something completed, naming the completed records in order |
| Merger.PipelineSucceeds | pdf_combiner_pro/pdf_combiner/merger.py:162-174 | every run of the three steps that does not raise leaves every record completed or failed and none skipped, counters that count them and add up to all documents, pages equal to the output's length, and provenance exactly when asked for and something completed, naming the completed records in order |
| Merger.StageSucceeds | pdf_combiner_pro/pdf_combiner/merger.py:167-174 | the same after the OCR step, which keeps a PDF for every record |
| Merger.MergeSucceedsFresh | pdf_combiner_pro/pdf_combiner/merger.py:147-156 | the same from the fresh counters a new result starts with |
| Merger.MergeDocuments | pdf_combiner_pro/pdf_combiner/merger.py:118-185 | `merge_documents` raises or returns what the model says; no result exists exactly for an empty list or a missing temporary-directory parent; otherwise a fresh result for the output path with `total_documents` = the number of documents holds the records, counters and warnings of the run, and one error record when the run raised |
| Merger.RunSteps | pdf_combiner_pro/pdf_combiner/merger.py:162-183 | the `try` block and its handler over a fresh result leave exactly what the run says |
| Merger.OcrAndMerge | pdf_combiner_pro/pdf_combiner/merger.py:167-183 | steps 2 and 3 and the handler leave exactly what the stage says |
| Merger.OcrIfEnabled | pdf_combiner_pro/pdf_combiner/merger.py:168-170 | step 2 runs only when OCR is enabled and there is an OCR processor; it changes only the mapping and the warnings |
| Merger.RecordFailure | pdf_combiner_pro/pdf_combiner/merger.py:176-183 | the handler appends exactly one "merge_error" record with the error's message and raises the merge error naming the failed files; nothing else changes |
| Merger.FileInfos | pdf_combiner_pro/pdf_combiner/merger.py:102-110 | without `fail_fast` the loop never raises; with it, it succeeds exactly when every path gives a record |
| Merger.FileInfosKeep | pdf_combiner_pro/pdf_combiner/merger.py:102-110 | without `fail_fast` the records are exactly those the paths give; with it a success keeps one record per path in order, and a failure is the first path's error |
| Merger.FileInfosRaisedStays | pdf_combiner_pro/pdf_combiner/merger.py:102-110 | once the loop has raised, later paths do not change the error |
| Merger.CollectFileInfos | pdf_combiner_pro/pdf_combiner/merger.py:102-110 | the loop computes the records or the error |
| Merger.DirectoryOutcome | pdf_combiner_pro/pdf_combiner/merger.py:88-116 | the directory is validated first and the output path second, each raising its own error; a scan that finds nothing raises "No supported documents found in …" and no merge step runs |
| Merger.ValidatedDirectoryScans | pdf_combiner_pro/pdf_combiner/merger.py:91-95 | a directory that passes validation is always scanned without error |
| Merger.MergeDirectory | pdf_combiner_pro/pdf_combiner/merger.py:66-116 | `merge_directory` raises or returns what the model says; a success comes with a fresh result for the output path; whenever a result is returned, the scan produced a non-empty list of records, the temporary directory's parent exists, the result counts all of them, and its records, counters, warnings and errors are those the `merge_documents` pipeline leaves for them |
| Merger.RecordedNames | pdf_combiner_pro/pdf_combiner/merger.py:407-411 | names are recovered exactly when /Subject is present and carries the sentinel |
| Merger.VerifyMergedPdf | pdf_combiner_pro/pdf_combiner/merger.py:388-435 | expected names are the scan's; missing = expected − found and extra = found − expected, each sorted without repeats; valid iff the two sets are equal; an unreadable document finds nothing and has page count 0, a readable one finds its recorded names and its page count; a missing source directory raises |
| Merger.VerifyRecorded | pdf_combiner_pro/pdf_combiner/merger.py:403-413 | a document whose /Subject records clean names reads back with exactly those names and its page count |
| Merger.VerifyReadsBack | pdf_combiner_pro/pdf_combiner/merger.py:316-324 | the merged document written with provenance for clean names reads back with exactly those names and its pages, and is valid iff they are the source directory's names |
| Merger.SucceededVerifies | pdf_combiner_pro/pdf_combiner/merger.py:388-435 | the merge-then-verify round trip: the output of a successful run, read back, finds exactly the completed documents in order and the pages counted, and is valid iff they are the source directory's names |
| CombinePdfs.IterDocuments | combine_pdfs.py:78-85 | raises `NotADirectoryError` "… is not a directory" exactly for a non-directory; otherwise yields exactly the top-level entries with a supported suffix, in sorted order |
| CombinePdfs.ScansAgreeOnFiles | combine_pdfs.py:78-85 | on a directory holding only files, the script's scan and the package's non-recursive scan yield the same list |
| CombinePdfs.CountExpectedFiles | combine_pdfs.py:88-90 | the count raises exactly when the scan does, and otherwise is the number of documents the scan yields, which is the number of supported top-level entries |
| CombinePdfs.CountListedOnce | combine_pdfs.py:88-90 | when each entry is listed once, the scan yields as many documents as there are supported top-level entries |
| CombinePdfs.RunDocx2Pdf | combine_pdfs.py:99-101 | the Windows/macOS path returns the files present after `docx2pdf` returns, re-raises its error, and fails with an import error when the library is absent |
| CombinePdfs.RunLibreOffice | combine_pdfs.py:103-125 | the Linux path runs the LibreOffice command; it succeeds exactly on exit code 0, and a non-zero exit or a missing tool raises the "LibreOffice is required …" runtime error |
| CombinePdfs.RunConverter | combine_pdfs.py:99-125 | `docx2pdf` is used on Windows and macOS, LibreOffice everywhere else |
| CombinePdfs.ConvertDocToPdf | combine_pdfs.py:93-130 | a conversion that succeeds returns `<output_dir>/<stem>.pdf`; a tool failure is re-raised; after the tool, it succeeds exactly when that file exists and otherwise raises "Failed to convert … to PDF" |
| CombinePdfs.Sample | combine_pdfs.py:140 | the sample is the first min(`sample_pages`, page count) pages, following Python's slice rules |
| CombinePdfs.PdfHasText | combine_pdfs.py:133-146 | a read error gives False and any other open error propagates; otherwise the result is True exactly when a sampled page has non-blank text before any extraction error, and it raises exactly when a non-read extraction error comes first |
| CombinePdfs.FailureKind | combine_pdfs.py:138-145 | an extraction error that comes first propagates exactly when it is not a read error |
| CombinePdfs.HasTextIffSampleHasText | combine_pdfs.py:133-146 | when every sampled page extracts, the result is True iff one of them has non-blank text |
| CombinePdfs.OcrCommand | combine_pdfs.py:161-167 | the OCR command is exactly `ocrmypdf --skip-text --quiet <source> <dest>` |
| CombinePdfs.OcrPdf | combine_pdfs.py:149-175 | a PDF that already has text is returned unchanged, and an error of the text check propagates; otherwise OCR writes `dest_dir/<name>`, which is returned exactly on exit code 0, and a non-zero exit or a missing tool raises "OCRmyPDF is required …" |
| CombinePdfs.GetPdfMetadata | combine_pdfs.py:178-193 | an unreadable document gives []; otherwise the names are empty exactly when none of /Subject, /Keywords, /Producer carries the sentinel, and are parsed from the first one that does |
| CombinePdfs.ReadsBackProvenance | combine_pdfs.py:266-270 | reading back the script's metadata gives the appended names when they are clean, and one empty name when nothing was appended |
| CombinePdfs.ReadyPdf | combine_pdfs.py:250-257 | a DOC/DOCX document is converted first and its error propagates; every PDF then goes through `ocr_pdf` |
| CombinePdfs.Appended | combine_pdfs.py:250-258 | appending succeeds exactly when the ready PDF exists and opens, and appends that PDF |
| CombinePdfs.MergeLoop | combine_pdfs.py:248-264 | each document ends up in exactly one of the two lists |
| CombinePdfs.MergeLoopPartition | combine_pdfs.py:248-264 | `processed_files` is the names of the documents that appended, and `failed_files` the names of those that did not, each in catalog order |
| CombinePdfs.FinalReport | combine_pdfs.py:275-281 | a count mismatch is reported exactly when the processed count differs from the expected one, and the failed list is reported exactly when, besides, some document failed |
| CombinePdfs.CombineFacts | combine_pdfs.py:248-281 | a run partitions the documents into processed and failed ones in catalog order, writes /Subject provenance for the processed ones even when there are none, and reports both warnings exactly when some document failed |
| CombinePdfs.MergeOutcome | combine_pdfs.py:233-273 | a non-directory raises the scan's error; otherwise the run is the loop over the scanned documents, counted on the same list |
| CombinePdfs.MergeDocuments | combine_pdfs.py:233-289 | `merge_documents` computes exactly that outcome |
| CombinePdfs.MergeLoopRun | combine_pdfs.py:248-281 | the loop and the report compute exactly that run |
| CombinePdfs.Judge | combine_pdfs.py:301-321 | no recovered names gives "cannot verify" rather than success; otherwise it verifies exactly when the two sets are equal, and a discrepancy reports missing = expected − found and extra = found − expected, each sorted |
| CombinePdfs.VerifyCombinedPdf | combine_pdfs.py:292-329 | a non-directory raises; otherwise the verdict judges the scanned names against the recovered ones, and the page count is reported exactly when the PDF reads |
| CombinePdfs.NothingFailedVerifies | combine_pdfs.py:297-309 | a run in which nothing failed and clean names were appended reads back as verified |
| CombinePdfs.MergeThenVerify | combine_pdfs.py:233-321 | the merge-then-verify round trip: a directory merged without failures, with clean names, verifies once the output is written outside that directory |
| CombinePdfs.WriteElsewhereKeepsScan | combine_pdfs.py:78-85 | a file written outside the directory leaves the directory's scan unchanged |
| CombinePdfs.WriteIntoDirectoryAddsName | combine_pdfs.py:78-85 | a supported file written directly into the directory, not there before, adds exactly its name to the scanned names, a name no earlier entry has |
| CombinePdfs.OneMorePathsName | combine_pdfs.py:297-301 | one more path in the same directory adds exactly its name, which no other entry has |
| CombinePdfs.OneMoreNameMissing | combine_pdfs.py:302-321 | judged against a listing with one name more than the metadata, that name alone is missing and nothing is extra |
| CombinePdfs.AddedOutputReportedMissing | combine_pdfs.py:292-321 | when the metadata names exactly the files scanned before, verifying after the output is written into the directory reports only the output's own name missing |
| CombinePdfs.OutputInSourceReportedMissing | combine_pdfs.py:292-321 | the default output `./combined.pdf` (combine_pdfs.py:375, written at line 272) of a run from inside the directory it combines is listed by the verifier, which reports its name missing and nothing else wrong |
| CombinePdfs.EmptyRunReportsBlankName | combine_pdfs.py:267-270 | an output with nothing appended reads back as one blank name, so verification reports a discrepancy with "" as the only extra name and every expected name missing, not "cannot verify" |
| CombinePdfs.BlankNameDiffers | combine_pdfs.py:303-318 | a lone blank name is judged a discrepancy against any names that are not blank |
| CombinePdfs.EmptyMergeReportsBlankName | combine_pdfs.py:267-321 | verifying the output of a merge that appended nothing reports "" as the only extra name and every name in the directory as missing |
| CombinePdfs.SupportedNamesNonEmpty | combine_pdfs.py:84 | a document with a supported suffix never has an empty name |
| CombinePdfsEnhanced.AnyMatch | combine_pdfs_enhanced.py:145-147 | some pattern, lower-cased, matches the name |
| CombinePdfsEnhanced.MatchesPatterns | combine_pdfs_enhanced.py:135-149 | a file is admitted iff no exclude pattern matches its lower-cased name and some include pattern does, so an exclude match wins over any include |
| CombinePdfsEnhanced.GetFileSortKey | combine_pdfs_enhanced.py:152-161 | the key is the lower-cased name for "name" and for any unknown order, the modification time for "date" and the size for "size"; the last two raise the `stat` error for a missing file |
| CombinePdfsEnhanced.CustomOrder | combine_pdfs_enhanced.py:179 | the custom order holds exactly the non-blank stripped lines |
| CombinePdfsEnhanced.OrderDict | combine_pdfs_enhanced.py:180 | the rank dictionary has exactly the listed names as keys, and maps each to its last index in the list |
| CombinePdfsEnhanced.Rank | combine_pdfs_enhanced.py:181 | a listed name ranks at its last index, and an unlisted one at the list's length, after every listed one |
| CombinePdfsEnhanced.SortFiles | combine_pdfs_enhanced.py:176-188 | sorting the listing keeps exactly its files, as a permutation |
| CombinePdfsEnhanced.SortFilesOrdered | combine_pdfs_enhanced.py:176-188 | the sorted files are in key order, descending for "date" |
| CombinePdfsEnhanced.SortFilesStable | combine_pdfs_enhanced.py:176-188 | the sort is stable: files with equal keys keep their listing order |
| CombinePdfsEnhanced.CustomOrderIsStable | combine_pdfs_enhanced.py:181 | with a custom order, files of equal rank keep their listing order |
| CombinePdfsEnhanced.AdmittedFiles | combine_pdfs_enhanced.py:170-173 | the collected files are exactly the top-level regular files admitted by the patterns |
| CombinePdfsEnhanced.Listing | combine_pdfs_enhanced.py:164-190 | a non-directory raises "… is not a directory"; otherwise the listing is the admitted files, sorted |
| CombinePdfsEnhanced.ListingMembers | combine_pdfs_enhanced.py:164-190 | the listing is a permutation of the admitted files, holds exactly them and only regular files |
| CombinePdfsEnhanced.ListingCustomOrder | combine_pdfs_enhanced.py:176-184 | with a readable order file the listing ascends by rank, unlisted files after all listed ones; when the file cannot be read it falls back to case-insensitive name order |
| CombinePdfsEnhanced.ListingStandardOrder | combine_pdfs_enhanced.py:185-188 | without a custom order, "date" lists newest first, "size" smallest first, and any other order by lower-cased name |
| CombinePdfsEnhanced.SortKeyOrder | combine_pdfs_enhanced.py:152-161 | two files in key order are in modification-time, size or lower-cased-name order as the sort order asks |
| CombinePdfsEnhanced.CollectFiles | combine_pdfs_enhanced.py:170-173 | the loop collects exactly the admitted files |
| CombinePdfsEnhanced.IterDocuments | combine_pdfs_enhanced.py:164-190 | `iter_documents` computes exactly the listing |
| CombinePdfsEnhanced.RunEnhancedConverter | combine_pdfs_enhanced.py:201-213 | `docx2pdf` on Windows and macOS; otherwise the LibreOffice command with a 120 s timeout |
| CombinePdfsEnhanced.ConvertDocToPdfEnhanced | combine_pdfs_enhanced.py:193-223 | success returns `<output_dir>/<stem>.pdf`, exactly when the tool ran and the file exists; a timeout raises "Conversion timeout for …", every other failure, including the missing file, raises "Conversion failed for …: …"; every error is a `RuntimeError` |
| CombinePdfsEnhanced.PdfHasTextEnhanced | combine_pdfs_enhanced.py:226-245 | True iff the PDF opens and one of its first min(`sample_pages`, page count) pages has non-blank text; a page whose extraction fails is skipped |
| CombinePdfsEnhanced.TextChecksAgree | combine_pdfs_enhanced.py:226-245 | whenever the plain script's check finds text the enhanced one does, and when every sampled page extracts the two agree |
| CombinePdfsEnhanced.OcrCommandEnhanced | combine_pdfs_enhanced.py:259-266 | the command is exactly `ocrmypdf --skip-text --optimize 1 --quiet <source> <dest>` |
| CombinePdfsEnhanced.OcrPdfEnhanced | combine_pdfs_enhanced.py:248-276 | the source is returned when it has text, or when OCR times out or fails; otherwise `dest_dir/<name>` |
| CombinePdfsEnhanced.ProcessedPath | combine_pdfs_enhanced.py:292-309 | processing fails exactly when a DOC/DOCX conversion fails, with its error; otherwise it yields the PDF, passed through OCR when OCR is enabled |
| CombinePdfsEnhanced.Completion | combine_pdfs_enhanced.py:397-408 | each completed task lands in exactly one of the two lists |
| CombinePdfsEnhanced.CompletionStep | combine_pdfs_enhanced.py:397-408 | one more completed task appends its (name, path) pair, or its name to the failed list |
| CombinePdfsEnhanced.CompletionMembers | combine_pdfs_enhanced.py:397-408 | every successful task's pair is collected, and every collected pair is a successful task's |
| CombinePdfsEnhanced.CompletionFailures | combine_pdfs_enhanced.py:311-315 | the failed list holds exactly the names of the tasks that failed |
| CombinePdfsEnhanced.CompletionNoDuplicates | combine_pdfs_enhanced.py:397-403 | with distinct names, each task completing once, no pair is collected twice |
| CombinePdfsEnhanced.CatalogIndex | combine_pdfs_enhanced.py:419 | `list.index`: the first position of the name, or the length when it is absent |
| CombinePdfsEnhanced.RestoreOrder | combine_pdfs_enhanced.py:419 | the re-sort is a permutation of the collected pairs, ascending by catalog index |
| CombinePdfsEnhanced.Successes | combine_pdfs_enhanced.py:397-403 | the successful documents' pairs, in catalog order |
| CombinePdfsEnhanced.SuccessesMembers | combine_pdfs_enhanced.py:397-403 | a pair is a success exactly when some catalog document's job gives its path under its name |
| CombinePdfsEnhanced.CatalogIndexOfDistinct | combine_pdfs_enhanced.py:419 | with distinct names, every document's index is its position |
| CombinePdfsEnhanced.SuccessesAscend | combine_pdfs_enhanced.py:419 | with distinct names, the successes strictly ascend by catalog index |
| CombinePdfsEnhanced.SuccessByName | combine_pdfs_enhanced.py:419 | with distinct names, two successes with the same catalog index are the same |
| CombinePdfsEnhanced.CompletedAreSuccesses | combine_pdfs_enhanced.py:389-408 | whatever the completion order, the collected pairs are exactly the successes |
| CombinePdfsEnhanced.RestoredStrictly | combine_pdfs_enhanced.py:419 | a duplicate-free re-sort of the successes ascends strictly by catalog index |
| CombinePdfsEnhanced.MergeOrderIsCatalogOrder | combine_pdfs_enhanced.py:397-423 | whatever the completion order, re-sorting the collected pairs gives the successes in catalog order, so the merge order is a subsequence of catalog order |
| CombinePdfsEnhanced.Appends | combine_pdfs_enhanced.py:422-423 | appending succeeds exactly when every PDF opens, and otherwise raises the first open error |
| CombinePdfsEnhanced.AppendsRaisedStays | combine_pdfs_enhanced.py:422-423 | once appending has raised, later files do not change the error |
| CombinePdfsEnhanced.AppendAll | combine_pdfs_enhanced.py:422-423 | the loop appends exactly what `Appends` says |
| CombinePdfsEnhanced.Outlined | combine_pdfs_enhanced.py:322-335 | at most one bookmark per file, and one for every file exactly when every file reads |
| CombinePdfsEnhanced.MarksExtend | combine_pdfs_enhanced.py:330-332 | a bookmark pointing at a document's pages still does after more pages are appended |
| CombinePdfsEnhanced.BookmarksPointAtDocuments | combine_pdfs_enhanced.py:322-332 | when every file was appended, each bookmark carries its file's stem and points at the first page of that file's pages in the merged document, and the running page is the merged length |
| CombinePdfsEnhanced.MarksLast | combine_pdfs_enhanced.py:329-332 | the bookmark added at the current page points at the document appended there |
| CombinePdfsEnhanced.BookmarksFollowOneAnother | combine_pdfs_enhanced.py:322-332 | the first bookmark is at page 0 and each next one at the previous one plus the previous document's page count: the offsets are prefix sums |
| CombinePdfsEnhanced.BookmarksEnd | combine_pdfs_enhanced.py:322-332 | the running page ends at the last bookmark plus the last document's page count |
| CombinePdfsEnhanced.Firsts | combine_pdfs_enhanced.py:431 | the names of the pairs, in order |
| CombinePdfsEnhanced.RecoveredNames | combine_pdfs_enhanced.py:560-567 | no names without a marked field among /Subject, /Keywords, /Producer; otherwise exactly the non-blank names parsed from the first marked one |
| CombinePdfsEnhanced.EnhancedReadsBack | combine_pdfs_enhanced.py:429-434 | the metadata stamped for clean names reads back as exactly those names, as a set |
| CombinePdfsEnhanced.MergeRun | combine_pdfs_enhanced.py:368-454 | a listing error propagates; an empty listing raises `ValueError` "No matching documents found in directory"; a non-empty listing with `max_workers <= 0` raises the thread pool's `ValueError` "max_workers must be greater than 0" |
| CombinePdfsEnhanced.ListingNamesDistinct | combine_pdfs_enhanced.py:164-190 | when each entry is listed once, the listed names are distinct |
| CombinePdfsEnhanced.SuccessNames | combine_pdfs_enhanced.py:431 | the names of the successes are those of the successful documents, in catalog order |
| CombinePdfsEnhanced.FailedNames | combine_pdfs_enhanced.py:311-315 | with distinct names, a document's name is in `failed_files` exactly when its processing failed |
| CombinePdfsEnhanced.FailedName | combine_pdfs_enhanced.py:311-315 | the same for one document, from the failed list's two inclusions |
| CombinePdfsEnhanced.FailedCount | combine_pdfs_enhanced.py:311-315 | `failed_documents` grows by the number of documents minus the successes |
| CombinePdfsEnhanced.AssembleFails | combine_pdfs_enhanced.py:413-454 | the merge step raises exactly when some re-sorted PDF does not open, with the first such error |
| CombinePdfsEnhanced.AssembleMerges | combine_pdfs_enhanced.py:413-446 | a merge step that does not raise merges the re-sorted files, writes an output exactly when something was processed, with their pages and the metadata naming them in merge order, and bookmarks them when configured |
| CombinePdfsEnhanced.AssembledRunFails | combine_pdfs_enhanced.py:413-454 | over the tasks in any completion order, the merge step raises exactly when a successful document's PDF does not open, with the first such error in catalog order |
| CombinePdfsEnhanced.AssembledRunMerges | combine_pdfs_enhanced.py:397-446 | over the tasks in any completion order, the merge merges the successes in catalog order, with /Subject naming them in that order and the failed list of the collection |
| CombinePdfsEnhanced.MergeRunOrder | combine_pdfs_enhanced.py:368-454 | a run that does not raise merges the successful documents in catalog order, and a listed document is in `failed_files` exactly when its processing failed |
| CombinePdfsEnhanced.VerifyCombinedPdfEnhanced | combine_pdfs_enhanced.py:542-602 | a non-directory raises; an empty listing only warns; otherwise an output that does not open cannot be analysed, and one that does is judged on the listed names against the recovered ones, with its page count |
| CombinePdfsEnhanced.NoneFailed | combine_pdfs_enhanced.py:311-315 | an empty failed list means every document succeeded |
| CombinePdfsEnhanced.StampedVerifies | combine_pdfs_enhanced.py:429-434 | the metadata stamped for clean names verifies against those names |
| CombinePdfsEnhanced.AllMerged | combine_pdfs_enhanced.py:413-434 | with nothing failed, every document is merged in catalog order and the metadata names them all |
| CombinePdfsEnhanced.CollectedThenVerify | combine_pdfs_enhanced.py:413-434 | with nothing failed and clean names, the output exists and its metadata verifies against the catalog |
| CombinePdfsEnhanced.MergeRunRecovers | combine_pdfs_enhanced.py:368-437 | a run without failures over clean names writes metadata whose names are exactly the listing's |
| CombinePdfsEnhanced.FileKeyIgnoresWrite | combine_pdfs_enhanced.py:152-161 | a written file changes no other file's sort key |
| CombinePdfsEnhanced.AdmittedIgnoresWriteElsewhere | combine_pdfs_enhanced.py:170-173 | a file written outside the directory leaves the admitted files unchanged |
| CombinePdfsEnhanced.ListingIgnoresWriteElsewhere | combine_pdfs_enhanced.py:164-189 | a file written outside the directory leaves its sorted listing unchanged, for every sort order |
| CombinePdfsEnhanced.MergeThenVerifyEnhanced | combine_pdfs_enhanced.py:368-602 | the merge-then-verify round trip: a run without failures over clean names, written outside the source directory and read back, is analysed as verified with every listed name and the merged page count |
| CombinePdfsEnhanced.WriteIntoListingAddsPath | combine_pdfs_enhanced.py:164-189 | an admitted file written directly into the directory, not there before, is added to the listing and nothing else is |
| CombinePdfsEnhanced.WrittenListingNames | combine_pdfs_enhanced.py:164-189 | an admitted file written directly into the directory, not there before, leaves the listing non-empty and adds exactly its name, which no earlier entry has |
| CombinePdfsEnhanced.AddedOutputReportedMissing | combine_pdfs_enhanced.py:542-575 | when the metadata names exactly the files listed before, verifying after the output is written into the directory analyses it and reports only the output's own name missing |
| CombinePdfsEnhanced.OutputInSourceReportedMissingEnhanced | combine_pdfs_enhanced.py:542-575 | an output (by default `./combined.pdf`, combine_pdfs_enhanced.py:619, written at line 437) written into the directory it combines, when the patterns admit it, is listed by the verifier, which reports its name missing and nothing else wrong |
| CombinePdfsEnhanced.VerifiesAnalysed | combine_pdfs_enhanced.py:555-590 | an output that opens and whose names verify is reported as verified with its page count |
| CombinePdfsEnhanced.ProcessingResult.constructor | combine_pdfs_enhanced.py:99-108 | zero counters and empty lists |
| CombinePdfsEnhanced.EnhancedPdfProcessor.constructor | combine_pdfs_enhanced.py:286-288 | keeps the configuration and starts a fresh result |
| CombinePdfsEnhanced.EnhancedPdfProcessor.ProcessSingleDocument | combine_pdfs_enhanced.py:290-315 | returns the processed path; on any failure returns None, appends exactly that document's name to `failed_files` and adds 1 to `failed_documents`; the other fields are unchanged |
| CombinePdfsEnhanced.EnhancedPdfProcessor.CollectOne | combine_pdfs_enhanced.py:397-410 | one completed task: either one more processed pair and `processed_documents` + 1, or one more failed name in both the collection and `failed_files` with `failed_documents` + 1 |
| CombinePdfsEnhanced.EnhancedPdfProcessor.CollectResults | combine_pdfs_enhanced.py:389-410 | the collection loop gathers exactly the completion of the tasks, and the counters and `failed_files` grow by exactly what it gathered |
| CombinePdfsEnhanced.EnhancedPdfProcessor.CreateBookmarks | combine_pdfs_enhanced.py:317-335 | no bookmarks unless configured; otherwise exactly the outline of the readable files |
| CombinePdfsEnhanced.EnhancedPdfProcessor.MergeDocuments | combine_pdfs_enhanced.py:368-471 | `merge_documents` returns or raises what the model says; nothing changes when the listing fails or is empty, or when `max_workers <= 0` makes the thread pool raise; otherwise the counters and `failed_files` grow by the collection, and `total_pages` is the output's page count when one was written |
| CombinePdfsEnhanced.EnhancedPdfProcessor.AssembleOutput | combine_pdfs_enhanced.py:412-454 | the merge step computes `Assemble` and sets `total_pages` to the output's page count only when an output was written |
| Merger.Unconverted | pdf_combiner_pro/pdf_combiner/merger.py:205-207 | the number of records without a PDF never exceeds the number of records |
| Merger.StatusCount | pdf_combiner_pro/pdf_combiner/models.py:118-123 | the number of records of one status never exceeds the number of records |
| Merger.TempRecords | pdf_combiner_pro/pdf_combiner/merger.py:233-246 | at most one stand-in record per record |
| Merger.CompletedNames | pdf_combiner_pro/pdf_combiner/merger.py:293 | one name per COMPLETED record |
| Paths.SortPaths | pdf_combiner_pro/pdf_combiner/utils.py:66 | `sorted` over paths: a permutation in ascending path order |
| World.OpenPdf | combine_pdfs.py:139 | opening a PDF succeeds exactly for a stored, parseable file and yields its pages and metadata; a stored file that does not parse raises `PdfReadError`, a missing one `FileNotFoundError` |
| Strings.Lower | combine_pdfs_enhanced.py:137 | `str.lower` keeps the length and lower-cases each character |
| Strings.JoinSplit | pdf_combiner_pro/pdf_combiner/merger.py:411 | joining the pieces of `split` with the separator gives back the string |

## Left out

- Concurrency. The `ThreadPoolExecutor` branches of the batch converter and the OCR batch are modelled as if their futures complete in submission order; only the serial/parallel threshold and the worker-count guard are exact. In the enhanced script the completion order is a parameter (any permutation), and the properties hold for every order.
- `fnmatch` is a parameter, `matches(name, pattern)`. Glob semantics are library behaviour.
- Converters.GlobMatch: takes the stem in `output_dir.glob(f"{stem}*.pdf")` literally. A stem containing `*`, `?` or `[` is a pattern in the source, and the model does not interpret it.
- Validators.UnsupportedMessage: lists the supported types as ".pdf, .doc, .docx". The source joins a `set`, so the order in its message depends on the string hash seed; the model fixes one order.
- Utils.StrRepr: writes a non-ASCII character as itself. Python's `repr` also escapes non-printable non-ASCII characters; those escapes are not modelled.
- Utils.ExitDescription: names signals by their Linux numbers. On other platforms, `signal.Signals` numbers some signals differently.
- The contents of a custom order file are a parameter: the file's lines, or the error reading them.
- PyPDF2 appending, writing and outline calls. `merger.write` is modelled as succeeding, and the output is the appended pages with the metadata. The merge functions return the output rather than storing it. The round trips add the written file to the directory listing with `World.WriteFile` and take the PDF store after the write as a parameter. PyPDF2's own default metadata entries are not modelled.
- The enhanced script's final re-read of the output for `total_pages` is modelled as succeeding. The model uses the merged page count, and the `except` branch that sets 0 is not modelled.
- Logging, progress bars and printed reports. The count-mismatch and failed-files warnings of `combine_pdfs.py` are modelled as a report list; `check_only`'s report is not modelled.
- Clocks and timing: `time.time`, `processing_time_seconds`, `created_at`/`modified_at` and the ISO timestamps are parameters (`now`, `isoNow`).
- Output size and the floating-point report values: `format_file_size`, size in MB, average pages per document and success-rate formatting. The percentages in `models.py` are exact `real`s.
- `tempfile` directories and `mkdir` are file-system side effects. The name of the temporary directory is a parameter. Whether its parent exists is modelled: `Merger.TempParentExists`. The configured directory counts as existing because `get_temp_dir` creates it.
- `apply_security` (encryption, password warnings) and the `is_encrypted` report in `verify_combined_pdf_enhanced`, because they are library calls with logging only.
- `PDFMerger.check_directory`, `check_documents_enhanced` and `check_only`, because they are reporting passes whose counters add nothing beyond the merge loops.
- The command-line entry points (`cli.py`, `click`/`argparse` in both scripts) and the YAML configuration loaders (`config.py`, `ProcessingConfig.from_file`/`to_file`) are UI and I/O. Only `Config.get_temp_dir` is modelled.
- The import-time `sys.exit` of `combine_pdfs.py` when python-docx or docx2pdf is missing. A missing docx2pdf is modelled as an import error at the call.
- The import-time `sys.exit` of `combine_pdfs_enhanced.py` (lines 40-59) when PyPDF2, python-docx or, on Windows and macOS, docx2pdf is missing. The script never starts in that case. The model instead lets a missing docx2pdf surface at the call, through `CombinePdfs.RunDocx2Pdf`, as a "Conversion failed for …" error. That outcome is unreachable in the source.
- `DocumentInfo.validate_path`: existence is part of the abstract file system, and records are built only from scanned paths.
- `convert_to_pdf`'s "Unsupported document type" branch is unreachable. `DocumentType` has only PDF, DOC and DOCX, and all three are dispatched.
- In-place updates and aliasing. `ProcessingResult.documents` is a sequence field that each step reassigns. The caller's list and `result.documents` hold the same `DocumentInfo` objects in the source, so a status set through one is seen through the other; the model keeps only the result's copies. The in-place `list.sort` calls are modelled on values as a stable sort.
- `Strings.Lower` lower-cases ASCII letters only; other Unicode case mappings are not modelled.
