/**
 * The enhanced script `combine_pdfs_enhanced.py`: a listing filtered by
 * include/exclude patterns and ordered by name, date, size or a custom
 * order file; per-document conversion and OCR whose failures are counted
 * in a `ProcessingResult`; results collected in completion order and put
 * back in catalog order; one bookmark per appended document; and the
 * `/Subject` provenance that the verifier reads back.
 */
module CombinePdfsEnhanced {
  import opened Base
  import opened Strings
  import opened Order
  import opened Paths
  import opened Collections
  import opened Exceptions
  import opened World
  import opened Pages
  import opened Provenance
  import Utils
  import Converters
  import CombinePdfs

  /** `ProcessingConfig`: the settings a run takes from the command line or a YAML file. */
  datatype ProcessingConfig = ProcessingConfig(
    maxWorkers: int,
    compressionLevel: int,
    addBookmarks: bool,
    includePatterns: seq<string>,
    excludePatterns: seq<string>,
    sortOrder: string,
    customOrderFile: Option<string>,
    password: Option<string>,
    ocrEnabled: bool,
    preserveMetadata: bool,
    logFile: Option<string>)

  /** The dataclass defaults. */
  const DefaultConfig := ProcessingConfig(4, 5, true, ["*.pdf", "*.doc", "*.docx"], [], "name", None, None, true, true, None)

  // ---------------------------------------------------------------------------
  // Filtering and ordering the listing
  // ---------------------------------------------------------------------------

  /**
   * Some pattern of `patterns`, lower-cased, matches `name` under the glob
   * matcher `matches` (`fnmatch.fnmatch`).
   */
  function AnyMatch(matches: (string, string) -> bool, name: string, patterns: seq<string>): (r: bool)
    ensures r <==> exists i :: 0 <= i < |patterns| && matches(name, Lower(patterns[i]))
  {
    if patterns == [] then false
    else
      assert forall i :: 1 <= i < |patterns| ==> patterns[i] == patterns[1..][i - 1];
      matches(name, Lower(patterns[0])) || AnyMatch(matches, name, patterns[1..])
  }

  /**
   * `matches_patterns`: on the lower-cased file name, an exclude pattern
   * that matches rejects the file whatever the include patterns say;
   * otherwise it is kept exactly when some include pattern matches.
   */
  function MatchesPatterns(matches: (string, string) -> bool, p: Path, includes: seq<string>, excludes: seq<string>): (r: bool)
    ensures r <==>
      (forall i :: 0 <= i < |excludes| ==> !matches(Lower(p.name), Lower(excludes[i]))) &&
      (exists i :: 0 <= i < |includes| && matches(Lower(p.name), Lower(includes[i])))
  {
    var filename := Lower(p.name);
    if AnyMatch(matches, filename, excludes) then false
    else AnyMatch(matches, filename, includes)
  }

  /**
   * `get_file_sort_key`: the lower-cased name for "name" and for any order
   * it does not know, the modification time for "date" and the size for
   * "size"; `stat` on a path that does not exist raises `FileNotFoundError`.
   */
  function GetFileSortKey(fs: FileSystem, p: Path, sortOrder: string): (r: Result<Key>)
    ensures sortOrder !in {"date", "size"} ==> r == Ok(Key.Text(Lower(p.name)))
    ensures sortOrder in {"date", "size"} ==> (r.Ok? <==> fs.Exists(p))
    ensures sortOrder == "date" && fs.Exists(p) ==> r == Ok(Number(fs.nodes[p].modified))
    ensures sortOrder == "size" && fs.Exists(p) ==> r == Ok(Number(fs.nodes[p].size))
    ensures r.Raised? ==> r.error == Builtin(FileNotFound, NoSuchFile(ToString(p)))
  {
    if sortOrder == "name" then Ok(Key.Text(Lower(p.name)))
    else if sortOrder == "date" || sortOrder == "size" then
      if p !in fs.nodes then Raised(Builtin(FileNotFound, NoSuchFile(ToString(p))))
      else if sortOrder == "date" then Ok(Number(fs.nodes[p].modified))
      else Ok(Number(fs.nodes[p].size))
    else Ok(Key.Text(Lower(p.name)))
  }

  /** The key `files.sort` uses for `sortOrder` (every listed file exists, so `stat` succeeds on it). */
  function SortKeyOf(fs: FileSystem, sortOrder: string): Path -> Key
  {
    (p: Path) => if GetFileSortKey(fs, p, sortOrder).Ok? then GetFileSortKey(fs, p, sortOrder).value else Key.Text(Lower(p.name))
  }

  /** The custom order file is used: the order is "custom" and a non-empty file name is configured. */
  predicate UsesCustomOrder(config: ProcessingConfig)
  {
    config.sortOrder == "custom" && config.customOrderFile.Some? && config.customOrderFile.value != ""
  }

  /** `[line.strip() for line in f if line.strip()]`. */
  function CustomOrder(lines: seq<string>): (order: seq<string>)
    ensures forall n :: n in order <==> n != "" && exists i :: 0 <= i < |lines| && n == Strip(lines[i])
  {
    NonEmpty(StripEach(lines))
  }

  /**
   * `{name: i for i, name in enumerate(order)}`: every listed name is a
   * key, and a name listed more than once keeps the index of its last
   * occurrence, because later entries overwrite earlier ones.
   */
  function OrderDict(order: seq<string>): (d: map<string, nat>)
    ensures d.Keys == Elements(order)
    ensures forall n :: n in d ==> d[n] < |order| && order[d[n]] == n
    ensures forall n :: n in d ==> forall j :: d[n] < j < |order| ==> order[j] != n
    decreases |order|
  {
    if order == [] then map[]
    else
      var init := order[..|order| - 1];
      var last := order[|order| - 1];
      assert forall j :: 0 <= j < |init| ==> order[j] == init[j];
      assert order == init + [last];
      OrderDict(init)[last := |order| - 1]
  }

  /** `order_dict.get(f.name, len(custom_order))`. */
  function Rank(order: seq<string>, name: string): (r: nat)
    ensures r <= |order|
    ensures r == |order| <==> name !in order
    ensures r < |order| ==> order[r] == name && forall j :: r < j < |order| ==> order[j] != name
  {
    var d := OrderDict(order);
    if name in d then d[name] else |order|
  }

  function RankKey(order: seq<string>): Path -> Key
  {
    (p: Path) => Number(Rank(order, p.name))
  }

  /**
   * The key of the `files.sort(...)` in `iter_documents`: the rank in the
   * custom order when that file is used and can be read, the lower-cased
   * name when it cannot, and the configured key otherwise.
   */
  function FileKey(fs: FileSystem, config: ProcessingConfig, customLines: Result<seq<string>>): Path -> Key
  {
    if UsesCustomOrder(config) then
      if customLines.Ok? then RankKey(CustomOrder(customLines.value)) else SortKeyOf(fs, "name")
    else SortKeyOf(fs, config.sortOrder)
  }

  /** `reverse = config.sort_order == "date"`, on the branch that uses it: newest first. */
  predicate Descending(config: ProcessingConfig)
  {
    !UsesCustomOrder(config) && config.sortOrder == "date"
  }

  /**
   * The `files.sort(...)` of `iter_documents`: the same files, none placed
   * after one whose key it precedes. Python's sort is stable, also with
   * `reverse=True`, so files with equal keys keep their listing order.
   */
  function SortFiles(fs: FileSystem, files: seq<Path>, config: ProcessingConfig, customLines: Result<seq<string>>): (r: seq<Path>)
    ensures |r| == |files| && multiset(r) == multiset(files)
  {
    SortByFacts(files, FileKey(fs, config, customLines), Descending(config));
    SortBy(files, FileKey(fs, config, customLines), Descending(config))
  }

  /** No file is placed after one whose key it precedes. */
  lemma {:induction false} SortFilesOrdered(fs: FileSystem, files: seq<Path>, config: ProcessingConfig, customLines: Result<seq<string>>)
    ensures var r := SortFiles(fs, files, config, customLines); var key := FileKey(fs, config, customLines);
      forall i, j :: 0 <= i < j < |r| ==> !Less(key(r[j]), key(r[i]), Descending(config))
  {
    SortByFacts(files, FileKey(fs, config, customLines), Descending(config));
  }

  /** The sort is stable: the files that share a key come out in their listing order. */
  lemma {:induction false} SortFilesStable(fs: FileSystem, files: seq<Path>, config: ProcessingConfig, customLines: Result<seq<string>>, k: Key)
    ensures Filter(SortFiles(fs, files, config, customLines), KeyIs(FileKey(fs, config, customLines), k)) ==
            Filter(files, KeyIs(FileKey(fs, config, customLines), k))
  {
    SortByStable(files, FileKey(fs, config, customLines), Descending(config), k);
  }

  /** With a readable custom order file, the files of one rank come out in their listing order. */
  lemma {:induction false} CustomOrderIsStable(fs: FileSystem, files: seq<Path>, config: ProcessingConfig, lines: seq<string>, k: nat)
    requires UsesCustomOrder(config)
    ensures var order := CustomOrder(lines);
      Filter(SortFiles(fs, files, config, Ok(lines)), (p: Path) => Rank(order, p.name) == k) ==
      Filter(files, (p: Path) => Rank(order, p.name) == k)
  {
    var order := CustomOrder(lines);
    var key := FileKey(fs, config, Ok(lines));
    var sorted := SortFiles(fs, files, config, Ok(lines));
    SortFilesStable(fs, files, config, Ok(lines), Number(k));
    forall x: Path ensures KeyIs(key, Number(k))(x) == (Rank(order, x.name) == k) {
      assert key(x) == RankKey(order)(x) == Number(Rank(order, x.name));
      assert KeyIs(key, Number(k))(x) == (key(x) == Number(k));
    }
    FilterAgrees(sorted, KeyIs(key, Number(k)), (p: Path) => Rank(order, p.name) == k);
    FilterAgrees(files, KeyIs(key, Number(k)), (p: Path) => Rank(order, p.name) == k);
  }

  /** The test `iter_documents` applies to each entry: a regular file that the patterns admit. */
  function Keeps(fs: FileSystem, matches: (string, string) -> bool, config: ProcessingConfig): Path -> bool
  {
    (p: Path) => fs.IsFile(p) && MatchesPatterns(matches, p, config.includePatterns, config.excludePatterns)
  }

  /**
   * The files the loop of `iter_documents` collects: the regular files
   * directly in `directory` that the patterns admit, in listing order.
   */
  function AdmittedFiles(fs: FileSystem, matches: (string, string) -> bool, config: ProcessingConfig, directory: Path): (files: seq<Path>)
    ensures forall p :: p in files <==>
      p in fs.listing && Under(p, directory, false) && fs.IsFile(p) &&
      MatchesPatterns(matches, p, config.includePatterns, config.excludePatterns)
  {
    Filter(Below(fs.listing, directory, false), Keeps(fs, matches, config))
  }

  /**
   * `iter_documents`: a path that is not a directory raises
   * `NotADirectoryError`; otherwise the admitted files, sorted.
   */
  function Listing(fs: FileSystem, matches: (string, string) -> bool, config: ProcessingConfig,
                   customLines: Result<seq<string>>, directory: Path): (r: Result<seq<Path>>)
    ensures r.Raised? <==> !fs.IsDir(directory)
    ensures r.Raised? ==> r.error == Builtin(NotADirectory, ToString(directory) + " is not a directory")
    ensures r.Ok? ==> r.value == SortFiles(fs, AdmittedFiles(fs, matches, config, directory), config, customLines)
  {
    if !fs.IsDir(directory) then Raised(Builtin(NotADirectory, ToString(directory) + " is not a directory"))
    else Ok(SortFiles(fs, AdmittedFiles(fs, matches, config, directory), config, customLines))
  }

  /**
   * The listing holds exactly the admitted files, each as often as the
   * directory lists it; so every listed document is a regular file.
   */
  lemma {:induction false} ListingMembers(fs: FileSystem, matches: (string, string) -> bool, config: ProcessingConfig,
                       customLines: Result<seq<string>>, directory: Path)
    requires fs.IsDir(directory)
    ensures var r := Listing(fs, matches, config, customLines, directory).value;
      multiset(r) == multiset(AdmittedFiles(fs, matches, config, directory)) &&
      (forall p :: p in r <==>
        p in fs.listing && Under(p, directory, false) && fs.IsFile(p) &&
        MatchesPatterns(matches, p, config.includePatterns, config.excludePatterns)) &&
      forall i :: 0 <= i < |r| ==> fs.IsFile(r[i])
  {
    var r := Listing(fs, matches, config, customLines, directory).value;
    PermutedMembers(r, AdmittedFiles(fs, matches, config, directory));
  }

  /**
   * The order of the listing with a custom order file: ascending rank, so
   * the files it does not name come after all it names; when the file
   * cannot be read, ascending lower-cased name.
   */
  lemma {:induction false} ListingCustomOrder(fs: FileSystem, matches: (string, string) -> bool, config: ProcessingConfig,
                           customLines: Result<seq<string>>, directory: Path)
    requires fs.IsDir(directory) && UsesCustomOrder(config)
    ensures var r := Listing(fs, matches, config, customLines, directory).value;
      (customLines.Ok? ==>
        var order := CustomOrder(customLines.value);
        (forall i, j :: 0 <= i < j < |r| ==> Rank(order, r[i].name) <= Rank(order, r[j].name)) &&
        (forall i, j :: 0 <= i < j < |r| && r[i].name !in order ==> r[j].name !in order)) &&
      (customLines.Raised? ==>
        forall i, j :: 0 <= i < j < |r| ==> !StrLess(Lower(r[j].name), Lower(r[i].name)))
  {
    var r := Listing(fs, matches, config, customLines, directory).value;
    SortFilesOrdered(fs, AdmittedFiles(fs, matches, config, directory), config, customLines);
    var key := FileKey(fs, config, customLines);
    forall i, j | 0 <= i < j < |r|
      ensures customLines.Ok? ==> Rank(CustomOrder(customLines.value), r[i].name) <= Rank(CustomOrder(customLines.value), r[j].name)
      ensures customLines.Raised? ==> !StrLess(Lower(r[j].name), Lower(r[i].name))
    {
      assert !Less(key(r[j]), key(r[i]), false);
    }
  }

  /**
   * The order of the listing without a custom order file: newest first for
   * "date", smallest first for "size", and ascending lower-cased name for
   * "name" or an order the script does not know.
   */
  lemma {:induction false} ListingStandardOrder(fs: FileSystem, matches: (string, string) -> bool, config: ProcessingConfig,
                             customLines: Result<seq<string>>, directory: Path)
    requires fs.IsDir(directory) && !UsesCustomOrder(config)
    ensures var r := Listing(fs, matches, config, customLines, directory).value;
      (forall i :: 0 <= i < |r| ==> fs.IsFile(r[i])) &&
      (config.sortOrder == "date" ==>
        forall i, j :: 0 <= i < j < |r| ==> fs.nodes[r[i]].modified >= fs.nodes[r[j]].modified) &&
      (config.sortOrder == "size" ==>
        forall i, j :: 0 <= i < j < |r| ==> fs.nodes[r[i]].size <= fs.nodes[r[j]].size) &&
      (config.sortOrder !in {"date", "size"} ==>
        forall i, j :: 0 <= i < j < |r| ==> !StrLess(Lower(r[j].name), Lower(r[i].name)))
  {
    var r := Listing(fs, matches, config, customLines, directory).value;
    ListingMembers(fs, matches, config, customLines, directory);
    SortFilesOrdered(fs, AdmittedFiles(fs, matches, config, directory), config, customLines);
    var key := FileKey(fs, config, customLines);
    var o := config.sortOrder;
    forall i, j | 0 <= i < j < |r|
      ensures o == "date" ==> fs.nodes[r[i]].modified >= fs.nodes[r[j]].modified
      ensures o == "size" ==> fs.nodes[r[i]].size <= fs.nodes[r[j]].size
      ensures o !in {"date", "size"} ==> !StrLess(Lower(r[j].name), Lower(r[i].name))
    {
      assert !Less(key(r[j]), key(r[i]), o == "date");
      SortKeyOrder(fs, o, r[i], r[j]);
    }
  }

  /** Two files in the order of the sort key of `sort_order`: newest first, smallest first, or by lower-cased name. */
  lemma {:induction false} SortKeyOrder(fs: FileSystem, o: string, a: Path, b: Path)
    requires fs.IsFile(a) && fs.IsFile(b)
    requires !Less(SortKeyOf(fs, o)(b), SortKeyOf(fs, o)(a), o == "date")
    ensures o == "date" ==> fs.nodes[a].modified >= fs.nodes[b].modified
    ensures o == "size" ==> fs.nodes[a].size <= fs.nodes[b].size
    ensures o !in {"date", "size"} ==> !StrLess(Lower(b.name), Lower(a.name))
  {
  }

  /** The loop of `iter_documents` that collects the admitted files in listing order. */
  method CollectFiles(fs: FileSystem, matches: (string, string) -> bool, config: ProcessingConfig, directory: Path)
    returns (files: seq<Path>)
    ensures files == AdmittedFiles(fs, matches, config, directory)
  {
    var entries := Below(fs.listing, directory, false);
    var keep := Keeps(fs, matches, config);
    files := [];
    for i := 0 to |entries|
      invariant files == Filter(entries[..i], keep)
    {
      FilterPrefixStep(entries, i, keep);
      if keep(entries[i]) {
        files := files + [entries[i]];
      }
    }
    assert entries[..|entries|] == entries;
  }

  /** `iter_documents` as the script runs it: the directory check, the collecting loop, then the sort. */
  method IterDocuments(fs: FileSystem, matches: (string, string) -> bool, config: ProcessingConfig,
                       customLines: Result<seq<string>>, directory: Path) returns (r: Result<seq<Path>>)
    ensures r == Listing(fs, matches, config, customLines, directory)
  {
    if !fs.IsDir(directory) {
      return Raised(Builtin(NotADirectory, ToString(directory) + " is not a directory"));
    }
    var files := CollectFiles(fs, matches, config, directory);
    return Ok(SortFiles(fs, files, config, customLines));
  }

  // ---------------------------------------------------------------------------
  // Conversion, text detection and OCR
  // ---------------------------------------------------------------------------

  /** The converter `convert_doc_to_pdf_enhanced` runs: docx2pdf on Windows and macOS, else LibreOffice with a 120-second timeout. */
  function RunEnhancedConverter(env: Env, doc: Path, outputDir: Path): (r: Result<seq<Path>>)
    ensures env.system in Converters.Docx2PdfSystems ==>
      r == CombinePdfs.RunDocx2Pdf(env.docx2pdf, doc, Converters.ExpectedOutput(outputDir, doc))
    ensures env.system !in Converters.Docx2PdfSystems ==>
      r == Utils.RunCommand(env.tools, Converters.LibreOfficeCommand(outputDir, doc), Some(Converters.LibreOfficeTimeout))
  {
    if env.system in Converters.Docx2PdfSystems then
      CombinePdfs.RunDocx2Pdf(env.docx2pdf, doc, Converters.ExpectedOutput(outputDir, doc))
    else Utils.RunCommand(env.tools, Converters.LibreOfficeCommand(outputDir, doc), Some(Converters.LibreOfficeTimeout))
  }

  /** The message of the `RuntimeError` that wraps any other failure of a conversion. */
  function ConversionFailed(doc: Path, reason: string): string
  {
    "Conversion failed for " + doc.name + ": " + reason
  }

  /**
   * `convert_doc_to_pdf_enhanced`: the converted file is
   * `outputDir/<stem>.pdf`. Every failure becomes a `RuntimeError`: a
   * timeout says so, anything else (including the converter leaving no such
   * file) is wrapped as "Conversion failed for <name>: <reason>".
   */
  function ConvertDocToPdfEnhanced(env: Env, doc: Path, outputDir: Path): (r: Result<Path>)
    ensures r.Ok? ==> r.value == Converters.ExpectedOutput(outputDir, doc)
    ensures r.Raised? ==> r.error.kind == Runtime
    ensures var run := RunEnhancedConverter(env, doc, outputDir);
      (run.Ok? ==> (r.Ok? <==> Converters.ExpectedOutput(outputDir, doc) in run.value)) &&
      (run.Raised? && run.error.kind == Timeout ==> r == Raised(Builtin(Runtime, "Conversion timeout for " + doc.name))) &&
      (run.Raised? && run.error.kind != Timeout ==> r == Raised(Builtin(Runtime, ConversionFailed(doc, run.error.message)))) &&
      (run.Ok? && r.Raised? ==> r.error.message == ConversionFailed(doc,
        "Conversion failed: " + ToString(Converters.ExpectedOutput(outputDir, doc)) + " was not created"))
    ensures env.system !in Converters.Docx2PdfSystems ==>
      var outcome := env.tools(Invocation(Converters.LibreOfficeCommand(outputDir, doc), Some(Converters.LibreOfficeTimeout)));
      (r.Ok? <==> outcome.Exited? && outcome.code == 0 && Converters.ExpectedOutput(outputDir, doc) in outcome.present) &&
      (outcome.TimedOut? ==> r == Raised(Builtin(Runtime, "Conversion timeout for " + doc.name)))
  {
    var pdfPath := Converters.ExpectedOutput(outputDir, doc);
    match RunEnhancedConverter(env, doc, outputDir)
    case Raised(e) =>
      if e.kind == Timeout then Raised(Builtin(Runtime, "Conversion timeout for " + doc.name))
      else Raised(Builtin(Runtime, ConversionFailed(doc, e.message)))
    case Ok(present) =>
      if pdfPath in present then Ok(pdfPath)
      else Raised(Builtin(Runtime, ConversionFailed(doc, "Conversion failed: " + ToString(pdfPath) + " was not created")))
  }

  /**
   * `pdf_has_text_enhanced`: true when one of the first `samplePages` pages
   * has non-blank text. A page whose extraction raises is passed over, and
   * a file that cannot be read has none.
   */
  function PdfHasTextEnhanced(pdfs: PdfStore, path: Path, samplePages: int): (r: bool)
    ensures r <==> (OpenPdf(pdfs, path).Ok? &&
      exists i :: 0 <= i < RangeCount(|OpenPdf(pdfs, path).value.pages|, samplePages) &&
        HasText(OpenPdf(pdfs, path).value.pages[i]))
  {
    match OpenPdf(pdfs, path)
    case Raised(_) => false
    case Ok(pdf) =>
      var sample := pdf.pages[..RangeCount(|pdf.pages|, samplePages)];
      assert forall i :: 0 <= i < |sample| ==> sample[i] == pdf.pages[i];
      AnyText(sample)
  }

  /**
   * The tolerant check finds text whenever the plain script's check does,
   * and, when no sampled page raises, exactly when it does.
   */
  lemma {:induction false} TextChecksAgree(pdfs: PdfStore, path: Path, samplePages: nat)
    ensures CombinePdfs.PdfHasText(pdfs, path, samplePages) == Ok(true) ==> PdfHasTextEnhanced(pdfs, path, samplePages)
    ensures (OpenPdf(pdfs, path).Ok? &&
      forall i :: 0 <= i < |OpenPdf(pdfs, path).value.pages| && i < samplePages ==> OpenPdf(pdfs, path).value.pages[i].Extracted?) ==>
      (PdfHasTextEnhanced(pdfs, path, samplePages) <==> CombinePdfs.PdfHasText(pdfs, path, samplePages) == Ok(true))
  {
    if OpenPdf(pdfs, path).Ok? {
      var pages := OpenPdf(pdfs, path).value.pages;
      var sample := CombinePdfs.Sample(pages, samplePages);
      assert |sample| == RangeCount(|pages|, samplePages);
      assert forall i :: 0 <= i < |sample| ==> sample[i] == pages[i];
      if CombinePdfs.PdfHasText(pdfs, path, samplePages) == Ok(true) {
        var i :| 0 <= i < |sample| && HasText(sample[i]) && forall j :: 0 <= j < i ==> Blank(sample[j]);
        assert HasText(pages[i]);
      }
      if forall i :: 0 <= i < |pages| && i < samplePages ==> pages[i].Extracted? {
        CombinePdfs.HasTextIffSampleHasText(pdfs, path, samplePages);
      }
    }
  }

  /** How long OCRmyPDF may run, in seconds. */
  const OcrTimeout := 300

  /** The OCRmyPDF invocation of `ocr_pdf_enhanced`. */
  function OcrCommandEnhanced(source: Path, dest: Path): (cmd: seq<string>)
    ensures |cmd| == 7 && Utils.Program(cmd) == "ocrmypdf"
    ensures cmd[1..5] == ["--skip-text", "--optimize", "1", "--quiet"]
    ensures cmd[5] == ToString(source) && cmd[6] == ToString(dest)
  {
    ["ocrmypdf", "--skip-text", "--optimize", "1", "--quiet", ToString(source), ToString(dest)]
  }

  /**
   * `ocr_pdf_enhanced`: a PDF with text is kept as it is; otherwise
   * OCRmyPDF writes `destDir/<name>`, which is used once the run succeeds,
   * and the original is kept when the run times out, fails or cannot start.
   * It never raises.
   */
  function OcrPdfEnhanced(env: Env, source: Path, destDir: Path): (r: Path)
    ensures r == source || r == Child(destDir, source.name)
    ensures PdfHasTextEnhanced(env.pdfs, source, CombinePdfs.SamplePages) ==> r == source
    ensures !PdfHasTextEnhanced(env.pdfs, source, CombinePdfs.SamplePages) ==>
      var outcome := env.tools(Invocation(OcrCommandEnhanced(source, Child(destDir, source.name)), Some(OcrTimeout)));
      r == (if outcome.Exited? && outcome.code == 0 then Child(destDir, source.name) else source)
  {
    if PdfHasTextEnhanced(env.pdfs, source, CombinePdfs.SamplePages) then source
    else
      var dest := Child(destDir, source.name);
      match Utils.RunCommand(env.tools, OcrCommandEnhanced(source, dest), Some(OcrTimeout))
      case Ok(_) => dest
      case Raised(_) => source
  }

  /**
   * The `try` body of `process_single_document`: a DOC or DOCX file is
   * converted first, then OCR runs when it is enabled. Only the conversion
   * can fail.
   */
  function ProcessedPath(env: Env, ocrEnabled: bool, doc: Path, tmp: Path): (r: Result<Path>)
    ensures r.Raised? <==> CombinePdfs.IsWordDocument(doc) && ConvertDocToPdfEnhanced(env, doc, tmp).Raised?
    ensures r.Raised? ==> r.error == ConvertDocToPdfEnhanced(env, doc, tmp).error
    ensures r.Ok? ==>
      var pdfPath := if CombinePdfs.IsWordDocument(doc) then ConvertDocToPdfEnhanced(env, doc, tmp).value else doc;
      r.value == (if ocrEnabled then OcrPdfEnhanced(env, pdfPath, tmp) else pdfPath)
  {
    var converted := if CombinePdfs.IsWordDocument(doc) then ConvertDocToPdfEnhanced(env, doc, tmp) else Ok(doc);
    match converted
    case Raised(e) => Raised(e)
    case Ok(pdfPath) => Ok(if ocrEnabled then OcrPdfEnhanced(env, pdfPath, tmp) else pdfPath)
  }

  // ---------------------------------------------------------------------------
  // Collecting results in completion order and restoring catalog order
  // ---------------------------------------------------------------------------

  /** What processing one document yields, for every document of a run. */
  function Processor(env: Env, ocrEnabled: bool, tmp: Path): Path -> Result<Path>
  {
    (d: Path) => ProcessedPath(env, ocrEnabled, d, tmp)
  }

  /**
   * An order in which `as_completed` can hand back the `n` submitted tasks:
   * each task index exactly once.
   */
  predicate IsOrdering(order: seq<nat>, n: nat)
  {
    |order| == n && NoDuplicates(order) &&
    (forall i :: 0 <= i < |order| ==> order[i] < n) &&
    (forall k :: 0 <= k < n ==> k in order)
  }

  /** The `(name, path)` pairs collected so far, and the names of the documents that failed. */
  datatype Collected = Collected(processed: seq<(string, Path)>, failed: seq<string>)

  /**
   * The collection loop of `merge_documents`, with the tasks handing back
   * their results in `order`: a document whose processing succeeds adds its
   * `(name, path)` pair, one that fails has its name recorded as failed.
   */
  function Completion(job: Path -> Result<Path>, docs: seq<Path>, order: seq<nat>): (c: Collected)
    requires forall i :: 0 <= i < |order| ==> order[i] < |docs|
    ensures |c.processed| + |c.failed| == |order|
    decreases |order|
  {
    if order == [] then Collected([], [])
    else
      var c := Completion(job, docs, order[..|order| - 1]);
      var doc := docs[order[|order| - 1]];
      match job(doc)
      case Ok(path) => Collected(c.processed + [(doc.name, path)], c.failed)
      case Raised(_) => Collected(c.processed, c.failed + [doc.name])
  }

  /** One more task handed back: its outcome extends the collection so far. */
  lemma {:induction false} CompletionStep(job: Path -> Result<Path>, docs: seq<Path>, order: seq<nat>, i: nat)
    requires forall j :: 0 <= j < |order| ==> order[j] < |docs|
    requires i < |order|
    ensures var c := Completion(job, docs, order[..i]);
      var doc := docs[order[i]];
      Completion(job, docs, order[..i + 1]) ==
        if job(doc).Ok? then Collected(c.processed + [(doc.name, job(doc).value)], c.failed)
        else Collected(c.processed, c.failed + [doc.name])
  {
    assert order[..i + 1][..i] == order[..i];
  }

  /**
   * Every task handed back lands on the side its outcome says: a success as
   * its pair, a failure as its name; and every collected pair comes from a
   * task that succeeded with that path.
   */
  lemma {:induction false} CompletionMembers(job: Path -> Result<Path>, docs: seq<Path>, order: seq<nat>)
    requires forall i :: 0 <= i < |order| ==> order[i] < |docs|
    ensures var c := Completion(job, docs, order);
      (forall j :: 0 <= j < |order| && job(docs[order[j]]).Ok? ==>
        (docs[order[j]].name, job(docs[order[j]]).value) in c.processed) &&
      (forall j :: 0 <= j < |order| && job(docs[order[j]]).Raised? ==> docs[order[j]].name in c.failed) &&
      (forall x :: x in c.processed ==>
        exists j :: 0 <= j < |order| && job(docs[order[j]]) == Ok(x.1) && x.0 == docs[order[j]].name)
    decreases |order|
  {
    if order != [] {
      var init := order[..|order| - 1];
      CompletionMembers(job, docs, init);
      assert forall j :: 0 <= j < |init| ==> order[j] == init[j];
    }
  }

  /** A task handed back is among the failed names exactly when it fails, under its name. */
  lemma {:induction false} CompletionFailures(job: Path -> Result<Path>, docs: seq<Path>, order: seq<nat>)
    requires forall i :: 0 <= i < |order| ==> order[i] < |docs|
    ensures var c := Completion(job, docs, order);
      (forall j :: 0 <= j < |order| && job(docs[order[j]]).Raised? ==> docs[order[j]].name in c.failed) &&
      (forall n :: n in c.failed ==>
        exists j :: 0 <= j < |order| && job(docs[order[j]]).Raised? && n == docs[order[j]].name)
    decreases |order|
  {
    if order != [] {
      var init := order[..|order| - 1];
      var doc := docs[order[|order| - 1]];
      CompletionFailures(job, docs, init);
      var c0 := Completion(job, docs, init);
      var c := Completion(job, docs, order);
      assert c.failed == if job(doc).Ok? then c0.failed else c0.failed + [doc.name];
      forall n | n in c.failed
        ensures exists j :: 0 <= j < |order| && job(docs[order[j]]).Raised? && n == docs[order[j]].name
      {
        if n in c0.failed {
          var j :| 0 <= j < |init| && job(docs[init[j]]).Raised? && n == docs[init[j]].name;
          assert order[j] == init[j];
        } else {
          var j := |order| - 1;
          assert job(docs[order[j]]).Raised? && n == docs[order[j]].name;
        }
      }
      forall j | 0 <= j < |order| && job(docs[order[j]]).Raised?
        ensures docs[order[j]].name in c.failed
      {
        if j < |init| {
          assert order[j] == init[j];
        }
      }
    }
  }

  /** With distinct document names and each task handed back once, no pair is collected twice. */
  lemma {:induction false} CompletionNoDuplicates(job: Path -> Result<Path>, docs: seq<Path>, order: seq<nat>)
    requires forall i :: 0 <= i < |order| ==> order[i] < |docs|
    requires NoDuplicates(order) && NoDuplicates(NamesOf(docs))
    ensures NoDuplicates(Completion(job, docs, order).processed)
    decreases |order|
  {
    if order != [] {
      var init := order[..|order| - 1];
      var last := order[|order| - 1];
      assert forall j :: 0 <= j < |init| ==> init[j] == order[j] && init[j] != last;
      CompletionNoDuplicates(job, docs, init);
      CompletionMembers(job, docs, init);
      var c0 := Completion(job, docs, init);
      var doc := docs[last];
      if job(doc).Ok? {
        var pair := (doc.name, job(doc).value);
        assert forall j :: 0 <= j < |init| ==> docs[init[j]].name != doc.name by {
          forall j | 0 <= j < |init| ensures docs[init[j]].name != doc.name {
            assert NamesOf(docs)[init[j]] != NamesOf(docs)[last];
          }
        }
        assert pair !in c0.processed;
        assert Completion(job, docs, order).processed == c0.processed + [pair];
      }
    }
  }

  /** `[doc.name for doc in documents].index(name)`: the first position of `name`, or the length when it is absent. */
  function CatalogIndex(names: seq<string>, name: string): (i: nat)
    ensures i <= |names|
    ensures i < |names| ==> names[i] == name
    ensures forall j :: 0 <= j < i ==> names[j] != name
  {
    if names == [] then 0
    else if names[0] == name then 0
    else 1 + CatalogIndex(names[1..], name)
  }

  function CatalogKey(names: seq<string>): ((string, Path)) -> Key
  {
    (x: (string, Path)) => Number(CatalogIndex(names, x.0))
  }

  /**
   * `processed_files.sort(key=...index(x[0]))`: the same pairs, by
   * non-decreasing position of their name in the catalog.
   */
  function RestoreOrder(names: seq<string>, processed: seq<(string, Path)>): (r: seq<(string, Path)>)
    ensures |r| == |processed| && multiset(r) == multiset(processed)
    ensures forall i, j :: 0 <= i < j < |r| ==> CatalogIndex(names, r[i].0) <= CatalogIndex(names, r[j].0)
  {
    var key := CatalogKey(names);
    SortByFacts(processed, key, false);
    var r := SortBy(processed, key, false);
    assert forall i, j :: 0 <= i < j < |r| ==> !Less(key(r[j]), key(r[i]), false);
    r
  }

  /** The documents whose processing succeeds. */
  function Succeeds(job: Path -> Result<Path>): Path -> bool
  {
    (d: Path) => job(d).Ok?
  }

  /** The documents whose processing succeeds, as `(name, path)` pairs, in catalog order. */
  function Successes(job: Path -> Result<Path>, docs: seq<Path>): (s: seq<(string, Path)>)
    ensures var ok := Filter(docs, Succeeds(job));
      |s| == |ok| && forall i :: 0 <= i < |s| ==> job(ok[i]).Ok? && s[i] == (ok[i].name, job(ok[i]).value)
  {
    var ok := Filter(docs, Succeeds(job));
    assert forall i :: 0 <= i < |ok| ==> ok[i] in ok;
    seq(|ok|, i requires 0 <= i < |ok| => (ok[i].name, job(ok[i]).value))
  }

  /** A pair is a success exactly when some document succeeds with that path under that name. */
  lemma {:induction false} SuccessesMembers(job: Path -> Result<Path>, docs: seq<Path>)
    ensures var s := Successes(job, docs);
      forall x :: x in s <==> exists k :: 0 <= k < |docs| && job(docs[k]) == Ok(x.1) && x.0 == docs[k].name
  {
    var s := Successes(job, docs);
    var ok := Filter(docs, Succeeds(job));
    forall x | x in s ensures exists k :: 0 <= k < |docs| && job(docs[k]) == Ok(x.1) && x.0 == docs[k].name {
      var i :| 0 <= i < |s| && s[i] == x;
      assert ok[i] in ok;
      var k :| 0 <= k < |docs| && docs[k] == ok[i];
    }
    forall k | 0 <= k < |docs| && job(docs[k]).Ok? ensures (docs[k].name, job(docs[k]).value) in s {
      assert Succeeds(job)(docs[k]);
      assert docs[k] in ok;
      var i :| 0 <= i < |ok| && ok[i] == docs[k];
      assert s[i] == (docs[k].name, job(docs[k]).value);
    }
  }

  /** With distinct names, each name's catalog position is where it stands. */
  lemma {:induction false} CatalogIndexOfDistinct(docs: seq<Path>)
    requires NoDuplicates(NamesOf(docs))
    ensures forall k :: 0 <= k < |docs| ==> CatalogIndex(NamesOf(docs), docs[k].name) == k
  {
    var names := NamesOf(docs);
    forall k | 0 <= k < |docs| ensures CatalogIndex(names, docs[k].name) == k {
      assert names[k] == docs[k].name;
    }
  }

  /** With distinct names, the successes strictly ascend in catalog position. */
  lemma {:induction false} SuccessesAscend(job: Path -> Result<Path>, docs: seq<Path>)
    requires NoDuplicates(NamesOf(docs))
    ensures var s := Successes(job, docs); var names := NamesOf(docs);
      forall i, j :: 0 <= i < j < |s| ==> CatalogIndex(names, s[i].0) < CatalogIndex(names, s[j].0)
  {
    var names := NamesOf(docs);
    var before := (a: Path, b: Path) => CatalogIndex(names, a.name) < CatalogIndex(names, b.name);
    CatalogIndexOfDistinct(docs);
    FilterKeepsOrder(docs, Succeeds(job), before);
  }

  /** With distinct names, a success is determined by its name. */
  lemma {:induction false} SuccessByName(job: Path -> Result<Path>, docs: seq<Path>)
    requires NoDuplicates(NamesOf(docs))
    ensures var s := Successes(job, docs);
      forall x, y :: x in s && y in s && CatalogIndex(NamesOf(docs), x.0) == CatalogIndex(NamesOf(docs), y.0) ==> x == y
  {
    var s := Successes(job, docs);
    var names := NamesOf(docs);
    SuccessesMembers(job, docs);
    forall x, y | x in s && y in s && CatalogIndex(names, x.0) == CatalogIndex(names, y.0) ensures x == y {
      var k :| 0 <= k < |docs| && job(docs[k]) == Ok(x.1) && x.0 == docs[k].name;
      var m :| 0 <= m < |docs| && job(docs[m]) == Ok(y.1) && y.0 == docs[m].name;
      assert names[k] == x.0 && names[m] == y.0;
      assert k == m;
    }
  }

  /** Whatever the completion order, the completed documents are exactly the successes. */
  lemma {:induction false} CompletedAreSuccesses(job: Path -> Result<Path>, docs: seq<Path>, order: seq<nat>)
    requires IsOrdering(order, |docs|)
    ensures Elements(Completion(job, docs, order).processed) == Elements(Successes(job, docs))
  {
    var c := Completion(job, docs, order);
    var s := Successes(job, docs);
    CompletionMembers(job, docs, order);
    SuccessesMembers(job, docs);
    forall x | x in s ensures x in c.processed {
      var k :| 0 <= k < |docs| && job(docs[k]) == Ok(x.1) && x.0 == docs[k].name;
      assert k in order;
      var j :| 0 <= j < |order| && order[j] == k;
      assert (docs[order[j]].name, job(docs[order[j]]).value) == x;
    }
  }

  /**
   * A catalog-ordered listing without repeats, drawn from pairs that differ
   * whenever their catalog positions do not, ascends strictly.
   */
  lemma {:induction false} RestoredStrictly(names: seq<string>, c: seq<(string, Path)>, r: seq<(string, Path)>, s: seq<(string, Path)>)
    requires NoDuplicates(r) && Elements(c) == Elements(s) && (forall x :: x in r <==> x in c)
    requires forall i, j :: 0 <= i < j < |r| ==> CatalogIndex(names, r[i].0) <= CatalogIndex(names, r[j].0)
    requires forall x, y :: x in s && y in s && CatalogIndex(names, x.0) == CatalogIndex(names, y.0) ==> x == y
    ensures forall i :: 0 <= i < |r| ==> r[i] in s
    ensures forall i, j :: 0 <= i < j < |r| ==> CatalogIndex(names, r[i].0) < CatalogIndex(names, r[j].0)
  {
    forall i | 0 <= i < |r| ensures r[i] in s {
      assert r[i] in c;
      assert r[i] in Elements(c);
      assert r[i] in Elements(s);
    }
    forall i, j | 0 <= i < j < |r| ensures CatalogIndex(names, r[i].0) < CatalogIndex(names, r[j].0) {
      assert r[i] != r[j];
    }
  }

  /**
   * Whatever order the tasks complete in, putting the collected pairs back
   * in catalog order gives exactly the documents that succeeded, each once,
   * in catalog order: the merge order is a subsequence of the catalog.
   */
  lemma {:induction false} MergeOrderIsCatalogOrder(job: Path -> Result<Path>, docs: seq<Path>, order: seq<nat>)
    requires IsOrdering(order, |docs|) && NoDuplicates(NamesOf(docs))
    ensures RestoreOrder(NamesOf(docs), Completion(job, docs, order).processed) == Successes(job, docs)
  {
    var names := NamesOf(docs);
    var c := Completion(job, docs, order).processed;
    var r := RestoreOrder(names, c);
    var s := Successes(job, docs);
    CompletionNoDuplicates(job, docs, order);
    CompletedAreSuccesses(job, docs, order);
    PermutedMembers(r, c);
    PermutationNoDuplicates(c, r);
    SuccessesAscend(job, docs);
    SuccessByName(job, docs);
    var rank := (x: (string, Path)) => CatalogIndex(names, x.0);
    RestoredStrictly(names, c, r, s);
    StrictlyRankedEqual(r, s, rank);
  }

  // ---------------------------------------------------------------------------
  // Appending, bookmarks and metadata
  // ---------------------------------------------------------------------------

  /**
   * `merger.append(str(pdf_path))` for each collected pair in turn: the
   * pages of all of them, or the error of the first that does not open,
   * which ends the merge.
   */
  function Appends(pdfs: PdfStore, files: seq<(string, Path)>): (r: Result<seq<PageText>>)
    ensures r.Ok? <==> forall i :: 0 <= i < |files| ==> OpenPdf(pdfs, files[i].1).Ok?
    ensures r.Raised? ==> exists i :: (0 <= i < |files| && OpenPdf(pdfs, files[i].1) == Raised(r.error) &&
      forall j :: 0 <= j < i ==> OpenPdf(pdfs, files[j].1).Ok?)
    decreases |files|
  {
    if files == [] then Ok([])
    else
      var init := files[..|files| - 1];
      assert forall j :: 0 <= j < |init| ==> init[j] == files[j];
      match Appends(pdfs, init)
      case Raised(e) => Raised(e)
      case Ok(pages) =>
        match OpenPdf(pdfs, files[|files| - 1].1)
        case Raised(e) => Raised(e)
        case Ok(pdf) => Ok(pages + pdf.pages)
  }

  /** Once a prefix of the pairs fails to append, the whole run fails with that error. */
  lemma {:induction false} AppendsRaisedStays(pdfs: PdfStore, files: seq<(string, Path)>, n: nat)
    requires n <= |files| && Appends(pdfs, files[..n]).Raised?
    ensures Appends(pdfs, files) == Appends(pdfs, files[..n])
    decreases |files| - n
  {
    if n < |files| {
      var init := files[..|files| - 1];
      assert init[..n] == files[..n];
      AppendsRaisedStays(pdfs, init, n);
    } else {
      assert files[..n] == files;
    }
  }

  /** The appending loop of `merge_documents`. */
  method AppendAll(pdfs: PdfStore, files: seq<(string, Path)>) returns (r: Result<seq<PageText>>)
    ensures r == Appends(pdfs, files)
  {
    var pages: seq<PageText> := [];
    for i := 0 to |files|
      invariant Appends(pdfs, files[..i]) == Ok(pages)
    {
      assert files[..i + 1][..i] == files[..i];
      var reader := OpenPdf(pdfs, files[i].1);
      if reader.Raised? {
        AppendsRaisedStays(pdfs, files, i + 1);
        return Raised(reader.error);
      }
      pages := pages + reader.value.pages;
    }
    assert files[..|files|] == files;
    r := Ok(pages);
  }

  /** An outline item: its title and the page it points at. */
  datatype Bookmark = Bookmark(title: string, page: nat)

  /** The bookmarks added so far and `current_page`. */
  datatype Outline = Outline(bookmarks: seq<Bookmark>, nextPage: nat)

  /**
   * The loop of `create_bookmarks`: a file that opens gets a bookmark
   * titled with the stem of its original name at the current page, which
   * then advances by its page count; one that does not open is passed over
   * with a warning. Every file is bookmarked exactly when every file opens.
   */
  function Outlined(pdfs: PdfStore, files: seq<(string, Path)>): (o: Outline)
    ensures |o.bookmarks| <= |files|
    ensures |o.bookmarks| == |files| <==> forall i :: 0 <= i < |files| ==> OpenPdf(pdfs, files[i].1).Ok?
    decreases |files|
  {
    if files == [] then Outline([], 0)
    else
      var init := files[..|files| - 1];
      assert forall j :: 0 <= j < |init| ==> init[j] == files[j];
      var o := Outlined(pdfs, init);
      var (name, path) := files[|files| - 1];
      match OpenPdf(pdfs, path)
      case Raised(_) => o
      case Ok(pdf) => Outline(o.bookmarks + [Bookmark(Stem(name), o.nextPage)], o.nextPage + |pdf.pages|)
  }

  /** Bookmark `b` is titled for `name` and the pages of `pages` from its page on are `doc`. */
  predicate Marks(b: Bookmark, name: string, doc: seq<PageText>, pages: seq<PageText>)
  {
    b.title == Stem(name) && b.page + |doc| <= |pages| && pages[b.page..b.page + |doc|] == doc
  }

  /** A bookmark into a prefix of the merged pages still marks the same pages after more are appended. */
  lemma {:induction false} MarksExtend(b: Bookmark, name: string, doc: seq<PageText>, pages: seq<PageText>, more: seq<PageText>)
    requires Marks(b, name, doc, pages)
    ensures Marks(b, name, doc, pages + more)
  {
    assert (pages + more)[b.page..b.page + |doc|] == pages[b.page..b.page + |doc|];
  }

  /**
   * After a successful append of every pair, there is one bookmark per
   * pair, bookmark `i` is titled with the stem of pair `i`'s name, and the
   * merged pages from its page on are exactly that file's.
   */
  lemma {:induction false} BookmarksPointAtDocuments(pdfs: PdfStore, files: seq<(string, Path)>)
    requires Appends(pdfs, files).Ok?
    ensures var o := Outlined(pdfs, files); var pages := Appends(pdfs, files).value;
      o.nextPage == |pages| && |o.bookmarks| == |files| &&
      (forall i :: 0 <= i < |files| ==>
        Marks(o.bookmarks[i], files[i].0, OpenPdf(pdfs, files[i].1).value.pages, pages))
    decreases |files|
  {
    if files != [] {
      var init := files[..|files| - 1];
      assert forall j :: 0 <= j < |init| ==> init[j] == files[j];
      BookmarksPointAtDocuments(pdfs, init);
      var o0 := Outlined(pdfs, init);
      var pages0 := Appends(pdfs, init).value;
      var last := OpenPdf(pdfs, files[|files| - 1].1).value.pages;
      var o := Outlined(pdfs, files);
      var b := Bookmark(Stem(files[|files| - 1].0), o0.nextPage);
      assert o.bookmarks == o0.bookmarks + [b];
      assert Appends(pdfs, files).value == pages0 + last;
      forall i | 0 <= i < |files|
        ensures Marks(o.bookmarks[i], files[i].0, OpenPdf(pdfs, files[i].1).value.pages, pages0 + last)
      {
        if i < |init| {
          MarksExtend(o0.bookmarks[i], init[i].0, OpenPdf(pdfs, init[i].1).value.pages, pages0, last);
        } else {
          MarksLast(files[i].0, pages0, last);
        }
      }
    }
  }

  /** A bookmark titled with the name's stem at the end of the merged pages marks the pages appended next. */
  lemma {:induction false} MarksLast(name: string, pages: seq<PageText>, last: seq<PageText>)
    ensures Marks(Bookmark(Stem(name), |pages|), name, last, pages + last)
  {
    assert (pages + last)[|pages|..|pages| + |last|] == last;
  }

  /**
   * After a successful append of every pair, the first bookmark points at
   * page 0 and each next one just past the pages of the one before.
   */
  lemma {:induction false} BookmarksFollowOneAnother(pdfs: PdfStore, files: seq<(string, Path)>)
    requires Appends(pdfs, files).Ok?
    ensures var o := Outlined(pdfs, files);
      |o.bookmarks| == |files| &&
      (|files| > 0 ==> o.bookmarks[0].page == 0) &&
      (forall i :: 0 < i < |files| ==>
        o.bookmarks[i].page == o.bookmarks[i - 1].page + |OpenPdf(pdfs, files[i - 1].1).value.pages|)
    decreases |files|
  {
    if files != [] {
      var init := files[..|files| - 1];
      assert forall j :: 0 <= j < |init| ==> init[j] == files[j];
      BookmarksFollowOneAnother(pdfs, init);
      BookmarksPointAtDocuments(pdfs, init);
      var o0 := Outlined(pdfs, init);
      var o := Outlined(pdfs, files);
      assert o.bookmarks == o0.bookmarks + [Bookmark(Stem(files[|files| - 1].0), o0.nextPage)];
      if |init| > 0 {
        assert o0.nextPage == o0.bookmarks[|init| - 1].page + |OpenPdf(pdfs, init[|init| - 1].1).value.pages| by {
          BookmarksEnd(pdfs, init);
        }
      }
    }
  }

  /** The page after the last bookmarked file is the one after that file's pages. */
  lemma {:induction false} BookmarksEnd(pdfs: PdfStore, files: seq<(string, Path)>)
    requires Appends(pdfs, files).Ok? && files != []
    ensures var o := Outlined(pdfs, files);
      |o.bookmarks| == |files| &&
      o.nextPage == o.bookmarks[|files| - 1].page + |OpenPdf(pdfs, files[|files| - 1].1).value.pages|
  {
    var init := files[..|files| - 1];
    assert forall j :: 0 <= j < |init| ==> init[j] == files[j];
  }

  /** What the enhanced script calls itself in the document information. */
  const EnhancedProducer := "Enhanced PDF Combiner"

  /** The entries `merge_documents` adds with `merger.add_metadata` for the merged `names`. */
  function EnhancedMetadata(names: seq<string>): map<string, string>
  {
    map["/Title" := "Combined Document - " + NatToString(|names|) + " files",
        "/Subject" := SubjectFor(names),
        "/Producer" := EnhancedProducer,
        "/Creator" := EnhancedProducer]
  }

  /** `[pf[0] for pf in processed_files]`. */
  function Firsts(files: seq<(string, Path)>): (names: seq<string>)
    ensures |names| == |files| && forall i :: 0 <= i < |files| ==> names[i] == files[i].0
  {
    seq(|files|, i requires 0 <= i < |files| => files[i].0)
  }

  /**
   * The metadata parse of `verify_combined_pdf_enhanced`: the non-blank
   * names of the first of `/Subject`, `/Keywords`, `/Producer` that carries
   * the sentinel, and none when no field does.
   */
  function RecoveredNames(meta: map<string, string>): (names: seq<string>)
    ensures FindInFields(meta, ScanFields).None? ==> names == []
    ensures FindInFields(meta, ScanFields).Some? ==>
      forall n :: n in names <==> n in ParseNames(FindInFields(meta, ScanFields).value) && n != ""
  {
    match FindInFields(meta, ScanFields)
    case None => []
    case Some(value) => ParseNonBlankNames(value)
  }

  /** The verifier reads back the names the merger wrote, as a set, when they are clean. */
  lemma {:induction false} EnhancedReadsBack(names: seq<string>)
    requires |names| > 0 && AllRecoverable(names)
    ensures Elements(RecoveredNames(EnhancedMetadata(names))) == Elements(names)
  {
    var meta := EnhancedMetadata(names);
    SubjectCarriesMarker(names);
    assert FindInFields(meta, ScanFields) == Some(SubjectFor(names));
    NonBlankRoundTrip(names);
  }

  // ---------------------------------------------------------------------------
  // The enhanced merge
  // ---------------------------------------------------------------------------

  /**
   * What a run of `merge_documents` produces: the `(name, path)` pairs it
   * appended, in merge order, the names of the documents that failed, the
   * written document, when anything was processed, and its outline.
   */
  datatype Merged = Merged(files: seq<(string, Path)>, failed: seq<string>, output: Option<Pdf>, bookmarks: seq<Bookmark>)

  /**
   * The merge step on the collected results: nothing is written when no
   * document was processed; otherwise the pairs are put back in catalog
   * order, appended, bookmarked when configured and stamped with the
   * metadata, or the first append error ends the run.
   */
  function Assemble(pdfs: PdfStore, addBookmarks: bool, names: seq<string>, c: Collected): Result<Merged>
  {
    if c.processed == [] then Ok(Merged([], c.failed, None, []))
    else
      var files := RestoreOrder(names, c.processed);
      match Appends(pdfs, files)
      case Raised(e) => Raised(e)
      case Ok(pages) =>
        Ok(Merged(files, c.failed, Some(World.Pdf(pages, EnhancedMetadata(Firsts(files)))),
          if addBookmarks then Outlined(pdfs, files).bookmarks else []))
  }

  /** The run on a non-empty catalog `docs` whose tasks complete in `order`. */
  function MergeCollected(env: Env, config: ProcessingConfig, tmp: Path, docs: seq<Path>, order: seq<nat>): Result<Merged>
    requires IsOrdering(order, |docs|)
  {
    Assemble(env.pdfs, config.addBookmarks, NamesOf(docs), Completion(Processor(env, config.ocrEnabled, tmp), docs, order))
  }

  /**
   * `EnhancedPDFProcessor(config).merge_documents(directory, output_file)`
   * with `tmp` as its temporary directory, the glob matcher `matches`, the
   * lines of the custom order file (or the error reading it) and
   * `schedule(n)` the order in which `as_completed` hands back `n` tasks:
   * the listing error, the `ValueError` of an empty listing, the
   * `ValueError` the thread pool raises for a worker count below one, or the
   * merge of the collected results.
   */
  function MergeRun(env: Env, matches: (string, string) -> bool, config: ProcessingConfig,
                    customLines: Result<seq<string>>, directory: Path, tmp: Path, schedule: nat -> seq<nat>): (r: Result<Merged>)
    requires forall n: nat :: IsOrdering(schedule(n), n)
    ensures var listing := Listing(env.fs, matches, config, customLines, directory);
      (listing.Raised? ==> r == Raised(listing.error)) &&
      (listing.Ok? && listing.value == [] ==> r == Raised(Builtin(ValueErr, "No matching documents found in directory"))) &&
      (listing.Ok? && listing.value != [] && config.maxWorkers <= 0 ==>
         r == Raised(Builtin(ValueErr, "max_workers must be greater than 0")))
  {
    match Listing(env.fs, matches, config, customLines, directory)
    case Raised(e) => Raised(e)
    case Ok(docs) =>
      if docs == [] then Raised(Builtin(ValueErr, "No matching documents found in directory"))
      else if config.maxWorkers <= 0 then Raised(Builtin(ValueErr, "max_workers must be greater than 0"))
      else
        assert IsOrdering(schedule(|docs|), |docs|);
        MergeCollected(env, config, tmp, docs, schedule(|docs|))
  }

  /**
   * The documents of one directory have distinct names: a directory lists
   * each of its entries once, and entries directly in the same directory
   * differ in name.
   */
  lemma {:induction false} ListingNamesDistinct(fs: FileSystem, matches: (string, string) -> bool, config: ProcessingConfig,
                             customLines: Result<seq<string>>, directory: Path)
    requires fs.IsDir(directory) && fs.ListedOnce()
    ensures NoDuplicates(NamesOf(Listing(fs, matches, config, customLines, directory).value))
  {
    var below := Below(fs.listing, directory, false);
    FilterNoDuplicates(fs.listing, p => Under(p, directory, false));
    FilterNoDuplicates(below, Keeps(fs, matches, config));
    var admitted := AdmittedFiles(fs, matches, config, directory);
    var r := Listing(fs, matches, config, customLines, directory).value;
    ListingMembers(fs, matches, config, customLines, directory);
    PermutationNoDuplicates(admitted, r);
    forall i, j | 0 <= i < j < |r| ensures NamesOf(r)[i] != NamesOf(r)[j] {
      assert r[i] in r && r[j] in r;
      assert r[i].dir == r[j].dir;
    }
  }

  /** The names on the success side of the catalog are the names of the successful documents, in catalog order. */
  lemma {:induction false} SuccessNames(job: Path -> Result<Path>, docs: seq<Path>)
    ensures Firsts(Successes(job, docs)) == NamesOf(Filter(docs, Succeeds(job)))
  {
  }

  /**
   * Each document of a catalog with distinct names ends up on exactly one
   * side: its name is among the failed ones exactly when its processing
   * fails.
   */
  lemma {:induction false} FailedNames(job: Path -> Result<Path>, docs: seq<Path>, order: seq<nat>)
    requires IsOrdering(order, |docs|) && NoDuplicates(NamesOf(docs))
    ensures var c := Completion(job, docs, order);
      forall k :: 0 <= k < |docs| ==> (docs[k].name in c.failed <==> job(docs[k]).Raised?)
  {
    CompletionFailures(job, docs, order);
    forall k | 0 <= k < |docs| ensures docs[k].name in Completion(job, docs, order).failed <==> job(docs[k]).Raised? {
      FailedName(job, docs, order, Completion(job, docs, order).failed, k);
    }
  }

  /** One document's side, in a catalog with distinct names, given where failures land. */
  lemma {:induction false} FailedName(job: Path -> Result<Path>, docs: seq<Path>, order: seq<nat>, failed: seq<string>, k: nat)
    requires IsOrdering(order, |docs|) && NoDuplicates(NamesOf(docs)) && k < |docs|
    requires forall j :: 0 <= j < |order| && job(docs[order[j]]).Raised? ==> docs[order[j]].name in failed
    requires forall n :: n in failed ==>
      exists j :: 0 <= j < |order| && job(docs[order[j]]).Raised? && n == docs[order[j]].name
    ensures docs[k].name in failed <==> job(docs[k]).Raised?
  {
    assert k in order;
    var j :| 0 <= j < |order| && order[j] == k;
    if docs[k].name in failed {
      var m :| 0 <= m < |order| && job(docs[order[m]]).Raised? && docs[k].name == docs[order[m]].name;
      assert NamesOf(docs)[k] == NamesOf(docs)[order[m]];
    }
  }

  /** The failed names are as many as the documents that did not succeed. */
  lemma {:induction false} FailedCount(job: Path -> Result<Path>, docs: seq<Path>, order: seq<nat>)
    requires IsOrdering(order, |docs|) && NoDuplicates(NamesOf(docs))
    ensures |Completion(job, docs, order).failed| == |docs| - |Successes(job, docs)|
  {
    var c := Completion(job, docs, order);
    MergeOrderIsCatalogOrder(job, docs, order);
    assert |RestoreOrder(NamesOf(docs), c.processed)| == |c.processed|;
  }

  /**
   * The merge step on collected results that restore to `s`: it fails
   * exactly when some pair of `s` does not open, with the error of the first.
   */
  lemma {:induction false} AssembleFails(pdfs: PdfStore, addBookmarks: bool, names: seq<string>, c: Collected, s: seq<(string, Path)>)
    requires RestoreOrder(names, c.processed) == s
    ensures var r := Assemble(pdfs, addBookmarks, names, c);
      (r.Raised? <==> exists i :: 0 <= i < |s| && OpenPdf(pdfs, s[i].1).Raised?) &&
      (r.Raised? ==> exists i :: (0 <= i < |s| && OpenPdf(pdfs, s[i].1) == Raised(r.error) &&
        forall j :: 0 <= j < i ==> OpenPdf(pdfs, s[j].1).Ok?))
  {
    assert |s| == |c.processed|;
  }

  /**
   * Otherwise it merges `s`, writes an output exactly when `s` is not
   * empty, made of the pages of `s` and stamped with its names, and
   * bookmarks it when configured.
   */
  lemma {:induction false} AssembleMerges(pdfs: PdfStore, addBookmarks: bool, names: seq<string>, c: Collected, s: seq<(string, Path)>)
    requires RestoreOrder(names, c.processed) == s && Assemble(pdfs, addBookmarks, names, c).Ok?
    ensures var m := Assemble(pdfs, addBookmarks, names, c).value;
      m.files == s && m.failed == c.failed && (m.output.Some? <==> s != []) &&
      (m.output.Some? ==>
        Appends(pdfs, s).Ok? && m.output.value.pages == Appends(pdfs, s).value &&
        m.output.value.metadata == EnhancedMetadata(Firsts(s))) &&
      m.bookmarks == (if addBookmarks && s != [] then Outlined(pdfs, s).bookmarks else [])
  {
    assert |s| == |c.processed|;
  }

  /**
   * The merge step on a catalog with distinct names, whatever the completion
   * order, fails exactly when some successful document's result does not
   * open, with the error of the first such in catalog order.
   */
  lemma {:induction false} AssembledRunFails(pdfs: PdfStore, addBookmarks: bool, job: Path -> Result<Path>, docs: seq<Path>, order: seq<nat>)
    requires IsOrdering(order, |docs|) && NoDuplicates(NamesOf(docs))
    ensures var r := Assemble(pdfs, addBookmarks, NamesOf(docs), Completion(job, docs, order));
      var s := Successes(job, docs);
      (r.Raised? <==> exists i :: 0 <= i < |s| && OpenPdf(pdfs, s[i].1).Raised?) &&
      (r.Raised? ==> exists i :: (0 <= i < |s| && OpenPdf(pdfs, s[i].1) == Raised(r.error) &&
        forall j :: 0 <= j < i ==> OpenPdf(pdfs, s[j].1).Ok?))
  {
    MergeOrderIsCatalogOrder(job, docs, order);
    AssembleFails(pdfs, addBookmarks, NamesOf(docs), Completion(job, docs, order), Successes(job, docs));
  }

  /**
   * Otherwise it merges the successes in catalog order, writes an output
   * exactly when there is one, made of their pages and stamped with their
   * names, and bookmarks it when configured.
   */
  lemma {:induction false} AssembledRunMerges(pdfs: PdfStore, addBookmarks: bool, job: Path -> Result<Path>, docs: seq<Path>, order: seq<nat>)
    requires IsOrdering(order, |docs|) && NoDuplicates(NamesOf(docs))
    requires Assemble(pdfs, addBookmarks, NamesOf(docs), Completion(job, docs, order)).Ok?
    ensures var m := Assemble(pdfs, addBookmarks, NamesOf(docs), Completion(job, docs, order)).value;
      var s := Successes(job, docs);
      m.files == s && m.failed == Completion(job, docs, order).failed &&
      (m.output.Some? <==> s != []) &&
      (m.output.Some? ==>
        Appends(pdfs, s).Ok? && m.output.value.pages == Appends(pdfs, s).value &&
        m.output.value.metadata == EnhancedMetadata(NamesOf(Filter(docs, Succeeds(job))))) &&
      m.bookmarks == (if addBookmarks && s != [] then Outlined(pdfs, s).bookmarks else [])
  {
    MergeOrderIsCatalogOrder(job, docs, order);
    SuccessNames(job, docs);
    AssembleMerges(pdfs, addBookmarks, NamesOf(docs), Completion(job, docs, order), Successes(job, docs));
  }

  /**
   * A run of the merge on `docs` taken from a directory lists each name
   * once, so it merges the successful documents in catalog order, and a
   * document's name is recorded as failed exactly when its processing fails.
   */
  lemma {:induction false} MergeRunOrder(env: Env, matches: (string, string) -> bool, config: ProcessingConfig,
                      customLines: Result<seq<string>>, directory: Path, tmp: Path, schedule: nat -> seq<nat>)
    requires forall n: nat :: IsOrdering(schedule(n), n)
    requires env.fs.ListedOnce() && MergeRun(env, matches, config, customLines, directory, tmp, schedule).Ok?
    ensures var docs := Listing(env.fs, matches, config, customLines, directory).value;
      var m := MergeRun(env, matches, config, customLines, directory, tmp, schedule).value;
      var job := Processor(env, config.ocrEnabled, tmp);
      docs != [] && m.files == Successes(job, docs) &&
      (forall k :: 0 <= k < |docs| ==> (docs[k].name in m.failed <==> job(docs[k]).Raised?))
  {
    var docs := Listing(env.fs, matches, config, customLines, directory).value;
    var job := Processor(env, config.ocrEnabled, tmp);
    var order := schedule(|docs|);
    ListingNamesDistinct(env.fs, matches, config, customLines, directory);
    AssembledRunMerges(env.pdfs, config.addBookmarks, job, docs, order);
    FailedNames(job, docs, order);
  }

  // ---------------------------------------------------------------------------
  // Verifying a merged document
  // ---------------------------------------------------------------------------

  /** The findings of `verify_combined_pdf_enhanced`. */
  datatype EnhancedCheck =
    | NoMatchingFiles
    | CouldNotAnalyze(error: Error)
    | Analysed(verdict: CombinePdfs.Verdict, pageCount: nat)

  /**
   * `verify_combined_pdf_enhanced(pdf_path, source_dir, config)`: the
   * listing error propagates; an empty listing only warns; an output that
   * does not open is reported as not analysable; otherwise the names in the
   * directory are compared, as sets, with the names recovered from the
   * output's metadata, and its pages are counted.
   */
  function VerifyCombinedPdfEnhanced(fs: FileSystem, pdfs: PdfStore, matches: (string, string) -> bool, config: ProcessingConfig,
                                     customLines: Result<seq<string>>, pdfPath: Path, sourceDir: Path): (r: Result<EnhancedCheck>)
    ensures r.Raised? <==> !fs.IsDir(sourceDir)
    ensures r.Ok? ==> var docs := Listing(fs, matches, config, customLines, sourceDir).value;
      (r.value.NoMatchingFiles? <==> docs == []) &&
      (docs != [] ==> (r.value.CouldNotAnalyze? <==> OpenPdf(pdfs, pdfPath).Raised?)) &&
      (r.value.CouldNotAnalyze? ==> r.value.error == OpenPdf(pdfs, pdfPath).error) &&
      (r.value.Analysed? ==>
        r.value.verdict == CombinePdfs.Judge(NamesOf(docs), RecoveredNames(OpenPdf(pdfs, pdfPath).value.metadata)) &&
        r.value.pageCount == |OpenPdf(pdfs, pdfPath).value.pages|)
  {
    match Listing(fs, matches, config, customLines, sourceDir)
    case Raised(e) => Raised(e)
    case Ok(docs) =>
      if docs == [] then Ok(NoMatchingFiles)
      else
        match OpenPdf(pdfs, pdfPath)
        case Raised(e) => Ok(CouldNotAnalyze(e))
        case Ok(pdf) => Ok(Analysed(CombinePdfs.Judge(NamesOf(docs), RecoveredNames(pdf.metadata)), |pdf.pages|))
  }

  /** When no task fails, every document of the catalog succeeds. */
  lemma {:induction false} NoneFailed(job: Path -> Result<Path>, docs: seq<Path>, order: seq<nat>)
    requires IsOrdering(order, |docs|) && NoDuplicates(NamesOf(docs))
    requires Completion(job, docs, order).failed == []
    ensures Filter(docs, Succeeds(job)) == docs
  {
    FailedNames(job, docs, order);
    forall d | d in docs ensures Succeeds(job)(d) {
      var k :| 0 <= k < |docs| && docs[k] == d;
    }
    FilterAll(docs, Succeeds(job));
  }

  /** An output stamped with clean names reads back as exactly those names. */
  lemma {:induction false} StampedVerifies(names: seq<string>)
    requires names != [] && AllRecoverable(names)
    ensures CombinePdfs.Judge(names, RecoveredNames(EnhancedMetadata(names))).Verified?
  {
    EnhancedReadsBack(names);
    assert names[0] in Elements(names);
  }

  /**
   * When the merge step reports no failed document, it merged every
   * document of the catalog, in catalog order.
   */
  lemma {:induction false} AllMerged(pdfs: PdfStore, addBookmarks: bool, job: Path -> Result<Path>, docs: seq<Path>, order: seq<nat>)
    requires IsOrdering(order, |docs|) && NoDuplicates(NamesOf(docs))
    requires var r := Assemble(pdfs, addBookmarks, NamesOf(docs), Completion(job, docs, order));
      r.Ok? && r.value.failed == []
    ensures var m := Assemble(pdfs, addBookmarks, NamesOf(docs), Completion(job, docs, order)).value;
      |m.files| == |docs| && Firsts(m.files) == NamesOf(docs) &&
      (m.output.Some? <==> docs != []) &&
      (m.output.Some? ==> m.output.value.metadata == EnhancedMetadata(NamesOf(docs)))
  {
    AssembledRunMerges(pdfs, addBookmarks, job, docs, order);
    NoneFailed(job, docs, order);
    SuccessNames(job, docs);
  }

  /**
   * The round trip on one catalog: when no document failed and the names
   * are clean, the output the merge step writes reads back as exactly the
   * catalog's names.
   */
  lemma {:induction false} CollectedThenVerify(pdfs: PdfStore, addBookmarks: bool, job: Path -> Result<Path>, docs: seq<Path>, order: seq<nat>)
    requires IsOrdering(order, |docs|) && NoDuplicates(NamesOf(docs)) && docs != [] && AllRecoverable(NamesOf(docs))
    requires var r := Assemble(pdfs, addBookmarks, NamesOf(docs), Completion(job, docs, order));
      r.Ok? && r.value.failed == []
    ensures var m := Assemble(pdfs, addBookmarks, NamesOf(docs), Completion(job, docs, order)).value;
      m.output.Some? && CombinePdfs.Judge(NamesOf(docs), RecoveredNames(m.output.value.metadata)).Verified?
  {
    AllMerged(pdfs, addBookmarks, job, docs, order);
    StampedVerifies(NamesOf(docs));
  }

  /**
   * When no document of the directory failed and their names are clean,
   * the names recovered from the written output's metadata are exactly
   * those of the directory's listing.
   */
  lemma {:induction false} MergeRunRecovers(env: Env, matches: (string, string) -> bool, config: ProcessingConfig,
                                customLines: Result<seq<string>>, directory: Path, tmp: Path, schedule: nat -> seq<nat>)
    requires forall n: nat :: IsOrdering(schedule(n), n)
    requires env.fs.ListedOnce()
    requires var r := MergeRun(env, matches, config, customLines, directory, tmp, schedule);
      r.Ok? && r.value.failed == [] && r.value.output.Some? && AllRecoverable(Firsts(r.value.files))
    ensures var listing := Listing(env.fs, matches, config, customLines, directory);
      var out := MergeRun(env, matches, config, customLines, directory, tmp, schedule).value.output.value;
      listing.Ok? && listing.value != [] &&
      CombinePdfs.Judge(NamesOf(listing.value), RecoveredNames(out.metadata)).Verified?
  {
    var listing := Listing(env.fs, matches, config, customLines, directory);
    var run := MergeRun(env, matches, config, customLines, directory, tmp, schedule);
    assert listing.Ok? && listing.value != [];
    var docs := listing.value;
    var job := Processor(env, config.ocrEnabled, tmp);
    var order := schedule(|docs|);
    assert IsOrdering(order, |docs|);
    assert run == Assemble(env.pdfs, config.addBookmarks, NamesOf(docs), Completion(job, docs, order));
    ListingNamesDistinct(env.fs, matches, config, customLines, directory);
    AllMerged(env.pdfs, config.addBookmarks, job, docs, order);
    CollectedThenVerify(env.pdfs, config.addBookmarks, job, docs, order);
  }

  /** A written file changes no other file's sort key. */
  lemma {:induction false} FileKeyIgnoresWrite(fs: FileSystem, p: Path, node: Node, config: ProcessingConfig,
                                customLines: Result<seq<string>>, q: Path)
    requires !fs.IsDir(p) && node.kind == RegularFile && q != p
    ensures FileKey(WriteFile(fs, p, node), config, customLines)(q) == FileKey(fs, config, customLines)(q)
  {
    var written := WriteFile(fs, p, node);
    assert written.Exists(q) == fs.Exists(q);
    assert GetFileSortKey(written, q, config.sortOrder) == GetFileSortKey(fs, q, config.sortOrder);
    assert GetFileSortKey(written, q, "name") == GetFileSortKey(fs, q, "name");
  }

  /** Writing a file outside the directory leaves the admitted files as they were. */
  lemma {:induction false} AdmittedIgnoresWriteElsewhere(fs: FileSystem, p: Path, node: Node, matches: (string, string) -> bool,
                                config: ProcessingConfig, directory: Path)
    requires !fs.IsDir(p) && node.kind == RegularFile
    requires !Under(p, directory, false)
    ensures AdmittedFiles(WriteFile(fs, p, node), matches, config, directory) == AdmittedFiles(fs, matches, config, directory)
  {
    var written := WriteFile(fs, p, node);
    WriteElsewhereKeepsBelow(fs, p, node, directory);
    var below := Below(fs.listing, directory, false);
    forall q | q in below ensures Keeps(written, matches, config)(q) == Keeps(fs, matches, config)(q) {
      assert q != p;
      assert written.IsFile(q) == fs.IsFile(q);
    }
    FilterAgrees(below, Keeps(written, matches, config), Keeps(fs, matches, config));
  }

  /** Writing a file outside the directory leaves its listing as it was, whatever the sort order. */
  lemma {:induction false} ListingIgnoresWriteElsewhere(fs: FileSystem, p: Path, node: Node, matches: (string, string) -> bool,
                                config: ProcessingConfig, customLines: Result<seq<string>>, directory: Path)
    requires !fs.IsDir(p) && node.kind == RegularFile
    requires !Under(p, directory, false)
    ensures Listing(WriteFile(fs, p, node), matches, config, customLines, directory) ==
            Listing(fs, matches, config, customLines, directory)
  {
    var written := WriteFile(fs, p, node);
    assert written.IsDir(directory) == fs.IsDir(directory);
    if fs.IsDir(directory) {
      AdmittedIgnoresWriteElsewhere(fs, p, node, matches, config, directory);
      var files := AdmittedFiles(fs, matches, config, directory);
      forall q | q in files ensures FileKey(written, config, customLines)(q) == FileKey(fs, config, customLines)(q) {
        FileKeyIgnoresWrite(fs, p, node, config, customLines, q);
      }
      SortByAgrees(files, FileKey(written, config, customLines), FileKey(fs, config, customLines), Descending(config));
    }
  }

  /**
   * Writing an admitted file that was not there directly into the
   * directory adds exactly that file to its listing.
   */
  lemma {:induction false} WriteIntoListingAddsPath(fs: FileSystem, p: Path, node: Node, matches: (string, string) -> bool,
                                config: ProcessingConfig, customLines: Result<seq<string>>, directory: Path)
    requires fs.IsDir(directory) && !fs.IsDir(p) && node.kind == RegularFile && p !in fs.listing
    requires Under(p, directory, false) && MatchesPatterns(matches, p, config.includePatterns, config.excludePatterns)
    ensures var before := Listing(fs, matches, config, customLines, directory).value;
      var after := Listing(WriteFile(fs, p, node), matches, config, customLines, directory).value;
      (forall q :: q in after <==> q in before || q == p) &&
      (forall q :: q in before ==> q.dir == p.dir && q != p)
  {
    var written := WriteFile(fs, p, node);
    assert written.IsDir(directory);
    ListingMembers(fs, matches, config, customLines, directory);
    ListingMembers(written, matches, config, customLines, directory);
  }

  /**
   * The round trip of the enhanced script: when no document of the
   * directory failed and their names are clean, verifying the output,
   * once written outside that directory, against the same directory and
   * configuration finds every file, and counts the output's pages.
   */
  lemma {:induction false} MergeThenVerifyEnhanced(env: Env, matches: (string, string) -> bool, config: ProcessingConfig,
                                customLines: Result<seq<string>>, directory: Path, tmp: Path, schedule: nat -> seq<nat>,
                                after: PdfStore, pdfPath: Path, node: Node)
    requires forall n: nat :: IsOrdering(schedule(n), n)
    requires env.fs.ListedOnce()
    requires var r := MergeRun(env, matches, config, customLines, directory, tmp, schedule);
      r.Ok? && r.value.failed == [] && r.value.output.Some? && AllRecoverable(Firsts(r.value.files)) &&
      pdfPath in after && after[pdfPath] == Parsed(r.value.output.value)
    requires !env.fs.IsDir(pdfPath) && node.kind == RegularFile && !Under(pdfPath, directory, false)
    ensures var docs := Listing(env.fs, matches, config, customLines, directory).value;
      var out := MergeRun(env, matches, config, customLines, directory, tmp, schedule).value.output.value;
      VerifyCombinedPdfEnhanced(WriteFile(env.fs, pdfPath, node), after, matches, config, customLines, pdfPath, directory) ==
        Ok(Analysed(CombinePdfs.Verified(|Elements(NamesOf(docs))|), |out.pages|))
  {
    var docs := Listing(env.fs, matches, config, customLines, directory).value;
    var out := MergeRun(env, matches, config, customLines, directory, tmp, schedule).value.output.value;
    MergeRunRecovers(env, matches, config, customLines, directory, tmp, schedule);
    ListingIgnoresWriteElsewhere(env.fs, pdfPath, node, matches, config, customLines, directory);
    assert OpenPdf(after, pdfPath) == Ok(out);
    VerifiesAnalysed(WriteFile(env.fs, pdfPath, node), after, matches, config, customLines, pdfPath, directory, docs, out);
  }

  /** Writing an admitted file that was not there directly into the directory adds exactly its name to the listed names. */
  lemma {:induction false} WrittenListingNames(fs: FileSystem, p: Path, node: Node, matches: (string, string) -> bool,
                                config: ProcessingConfig, customLines: Result<seq<string>>, directory: Path)
    requires fs.IsDir(directory) && !fs.IsDir(p) && node.kind == RegularFile && p !in fs.listing
    requires Under(p, directory, false) && MatchesPatterns(matches, p, config.includePatterns, config.excludePatterns)
    ensures var before := Listing(fs, matches, config, customLines, directory).value;
      var after := Listing(WriteFile(fs, p, node), matches, config, customLines, directory);
      after.Ok? && after.value != [] &&
      Elements(NamesOf(after.value)) == Elements(NamesOf(before)) + {p.name} && p.name !in Elements(NamesOf(before))
  {
    var before := Listing(fs, matches, config, customLines, directory).value;
    var after := Listing(WriteFile(fs, p, node), matches, config, customLines, directory).value;
    WriteIntoListingAddsPath(fs, p, node, matches, config, customLines, directory);
    assert p in after;
    CombinePdfs.OneMorePathsName(before, after, p);
  }

  /**
   * Verification, after the output is written into the directory, of an
   * output whose metadata names exactly the files listed before: the
   * output's own name is the only one missing.
   */
  lemma {:induction false} AddedOutputReportedMissing(fs: FileSystem, after: PdfStore, matches: (string, string) -> bool,
                                config: ProcessingConfig, customLines: Result<seq<string>>, pdfPath: Path, directory: Path,
                                node: Node, docs: seq<Path>, out: Pdf)
    requires Listing(fs, matches, config, customLines, directory) == Ok(docs)
    requires CombinePdfs.Judge(NamesOf(docs), RecoveredNames(out.metadata)).Verified?
    requires OpenPdf(after, pdfPath) == Ok(out)
    requires !fs.IsDir(pdfPath) && node.kind == RegularFile && pdfPath !in fs.listing
    requires Under(pdfPath, directory, false) && MatchesPatterns(matches, pdfPath, config.includePatterns, config.excludePatterns)
    ensures var v := VerifyCombinedPdfEnhanced(WriteFile(fs, pdfPath, node), after, matches, config, customLines, pdfPath, directory);
      v.Ok? && v.value.Analysed? && v.value.verdict.Discrepancy? &&
      Elements(v.value.verdict.missing) == {pdfPath.name} && v.value.verdict.extra == []
  {
    var written := WriteFile(fs, pdfPath, node);
    WrittenListingNames(fs, pdfPath, node, matches, config, customLines, directory);
    var docs2 := Listing(written, matches, config, customLines, directory).value;
    var found := RecoveredNames(out.metadata);
    CombinePdfs.OneMoreNameMissing(NamesOf(docs2), found, Elements(NamesOf(docs)), pdfPath.name);
  }


  /**
   * The default output `./combined.pdf` of a run from inside the directory
   * it combines, when the patterns admit it, is itself listed when that
   * directory is verified: its name is reported missing from the metadata,
   * and no other name is wrong.
   */
  lemma {:induction false} OutputInSourceReportedMissingEnhanced(env: Env, matches: (string, string) -> bool, config: ProcessingConfig,
                                customLines: Result<seq<string>>, directory: Path, tmp: Path, schedule: nat -> seq<nat>,
                                after: PdfStore, pdfPath: Path, node: Node)
    requires forall n: nat :: IsOrdering(schedule(n), n)
    requires env.fs.ListedOnce()
    requires var r := MergeRun(env, matches, config, customLines, directory, tmp, schedule);
      r.Ok? && r.value.failed == [] && r.value.output.Some? && AllRecoverable(Firsts(r.value.files)) &&
      pdfPath in after && after[pdfPath] == Parsed(r.value.output.value)
    requires !env.fs.IsDir(pdfPath) && node.kind == RegularFile && pdfPath !in env.fs.listing
    requires Under(pdfPath, directory, false) && MatchesPatterns(matches, pdfPath, config.includePatterns, config.excludePatterns)
    ensures var v := VerifyCombinedPdfEnhanced(WriteFile(env.fs, pdfPath, node), after, matches, config, customLines, pdfPath, directory);
      v.Ok? && v.value.Analysed? && v.value.verdict.Discrepancy? &&
      Elements(v.value.verdict.missing) == {pdfPath.name} && v.value.verdict.extra == []
  {
    var docs := Listing(env.fs, matches, config, customLines, directory).value;
    var out := MergeRun(env, matches, config, customLines, directory, tmp, schedule).value.output.value;
    MergeRunRecovers(env, matches, config, customLines, directory, tmp, schedule);
    assert OpenPdf(after, pdfPath) == Ok(out);
    AddedOutputReportedMissing(env.fs, after, matches, config, customLines, pdfPath, directory, node, docs, out);
  }


  /** Verification against a non-empty listing, of an output that opens and matches it, reports it verified with its pages. */
  lemma {:induction false} VerifiesAnalysed(fs: FileSystem, pdfs: PdfStore, matches: (string, string) -> bool, config: ProcessingConfig,
                                            customLines: Result<seq<string>>, pdfPath: Path, sourceDir: Path, docs: seq<Path>, out: Pdf)
    requires Listing(fs, matches, config, customLines, sourceDir) == Ok(docs) && docs != []
    requires OpenPdf(pdfs, pdfPath) == Ok(out)
    requires CombinePdfs.Judge(NamesOf(docs), RecoveredNames(out.metadata)).Verified?
    ensures VerifyCombinedPdfEnhanced(fs, pdfs, matches, config, customLines, pdfPath, sourceDir) ==
      Ok(Analysed(CombinePdfs.Verified(|Elements(NamesOf(docs))|), |out.pages|))
  {
  }

  // ---------------------------------------------------------------------------
  // The processor and its result
  // ---------------------------------------------------------------------------

  /** `ProcessingResult`: the counters and lists a run fills in. */
  class ProcessingResult {
    var processedDocuments: int
    var failedDocuments: int
    var totalPages: int
    var failedFiles: seq<string>
    var warnings: seq<string>

    /** The dataclass defaults: zero counters and empty lists. */
    constructor()
      ensures processedDocuments == 0 && failedDocuments == 0 && totalPages == 0
      ensures failedFiles == [] && warnings == []
    {
      processedDocuments := 0;
      failedDocuments := 0;
      totalPages := 0;
      failedFiles := [];
      warnings := [];
    }
  }

  /** `EnhancedPDFProcessor`: a configuration and the result it fills in. */
  class EnhancedPdfProcessor {
    const config: ProcessingConfig
    const result: ProcessingResult

    constructor(config: ProcessingConfig)
      ensures this.config == config && fresh(result)
      ensures result.processedDocuments == 0 && result.failedDocuments == 0 && result.totalPages == 0
      ensures result.failedFiles == [] && result.warnings == []
    {
      this.config := config;
      result := new ProcessingResult();
    }

    /**
     * `process_single_document`: the processed path, or, when conversion
     * fails, no path, with the document's name appended to `failed_files`
     * and `failed_documents` one higher; nothing else changes.
     */
    method ProcessSingleDocument(env: Env, doc: Path, tmp: Path) returns (r: Option<Path>)
      modifies result
      ensures var outcome := ProcessedPath(env, config.ocrEnabled, doc, tmp);
        (outcome.Ok? ==> (r == Some(outcome.value) && result.failedFiles == old(result.failedFiles) &&
                          result.failedDocuments == old(result.failedDocuments))) &&
        (outcome.Raised? ==> (r == None && result.failedFiles == old(result.failedFiles) + [doc.name] &&
                              result.failedDocuments == old(result.failedDocuments) + 1))
      ensures result.processedDocuments == old(result.processedDocuments) && result.totalPages == old(result.totalPages)
      ensures result.warnings == old(result.warnings)
    {
      var pdfPath := doc;
      if CombinePdfs.IsWordDocument(doc) {
        var converted := ConvertDocToPdfEnhanced(env, doc, tmp);
        if converted.Raised? {
          result.failedFiles := result.failedFiles + [doc.name];
          result.failedDocuments := result.failedDocuments + 1;
          return None;
        }
        pdfPath := converted.value;
      }
      if config.ocrEnabled {
        pdfPath := OcrPdfEnhanced(env, pdfPath, tmp);
      }
      return Some(pdfPath);
    }

    /**
     * One pass of the collection loop: the document of task `order[i]` is
     * processed, and its pair is collected and counted, or its name is
     * recorded as failed.
     */
    method CollectOne(env: Env, docs: seq<Path>, tmp: Path, order: seq<nat>, i: nat, c: Collected,
                      ghost job: Path -> Result<Path>) returns (next: Collected)
      requires job == Processor(env, config.ocrEnabled, tmp)
      requires forall j :: 0 <= j < |order| ==> order[j] < |docs|
      requires i < |order| && c == Completion(job, docs, order[..i])
      modifies result
      ensures next == Completion(job, docs, order[..i + 1])
      ensures (|next.processed| == |c.processed| + 1 && next.failed == c.failed &&
               result.processedDocuments == old(result.processedDocuments) + 1 &&
               result.failedDocuments == old(result.failedDocuments) &&
               result.failedFiles == old(result.failedFiles)) ||
              (next.processed == c.processed && next.failed == c.failed + [docs[order[i]].name] &&
               result.processedDocuments == old(result.processedDocuments) &&
               result.failedDocuments == old(result.failedDocuments) + 1 &&
               result.failedFiles == old(result.failedFiles) + [docs[order[i]].name])
      ensures result.totalPages == old(result.totalPages) && result.warnings == old(result.warnings)
    {
      CompletionStep(job, docs, order, i);
      var doc := docs[order[i]];
      assert job(doc) == ProcessedPath(env, config.ocrEnabled, doc, tmp);
      var path := ProcessSingleDocument(env, doc, tmp);
      if path.Some? {
        next := Collected(c.processed + [(doc.name, path.value)], c.failed);
        result.processedDocuments := result.processedDocuments + 1;
      } else {
        next := Collected(c.processed, c.failed + [doc.name]);
      }
    }

    /**
     * The collection loop of `merge_documents`, with the tasks handing back
     * their results in `order`: the collected pairs and failed names, each
     * success counted in `processed_documents` and each failure recorded.
     */
    method CollectResults(env: Env, docs: seq<Path>, tmp: Path, order: seq<nat>,
                          ghost job: Path -> Result<Path>) returns (c: Collected)
      requires job == Processor(env, config.ocrEnabled, tmp)
      requires forall i :: 0 <= i < |order| ==> order[i] < |docs|
      modifies result
      ensures c == Completion(job, docs, order)
      ensures result.processedDocuments == old(result.processedDocuments) + |c.processed|
      ensures result.failedDocuments == old(result.failedDocuments) + |c.failed|
      ensures result.failedFiles == old(result.failedFiles) + c.failed
      ensures result.totalPages == old(result.totalPages) && result.warnings == old(result.warnings)
    {
      c := Collected([], []);
      for i := 0 to |order|
        invariant c == Completion(job, docs, order[..i])
        invariant result.processedDocuments == old(result.processedDocuments) + |c.processed|
        invariant result.failedDocuments == old(result.failedDocuments) + |c.failed|
        invariant result.failedFiles == old(result.failedFiles) + c.failed
        invariant result.totalPages == old(result.totalPages) && result.warnings == old(result.warnings)
      {
        c := CollectOne(env, docs, tmp, order, i, c, job);
      }
      assert order[..|order|] == order;
    }

    /** `create_bookmarks`: no outline unless bookmarks are configured, else the outline of the merged files. */
    method CreateBookmarks(pdfs: PdfStore, files: seq<(string, Path)>) returns (bookmarks: seq<Bookmark>)
      ensures bookmarks == (if config.addBookmarks then Outlined(pdfs, files).bookmarks else [])
    {
      if !config.addBookmarks {
        return [];
      }
      bookmarks := [];
      var currentPage: nat := 0;
      for i := 0 to |files|
        invariant Outlined(pdfs, files[..i]) == Outline(bookmarks, currentPage)
      {
        assert files[..i + 1][..i] == files[..i];
        var (name, path) := files[i];
        var reader := OpenPdf(pdfs, path);
        if reader.Ok? {
          bookmarks := bookmarks + [Bookmark(Stem(name), currentPage)];
          currentPage := currentPage + |reader.value.pages|;
        }
      }
      assert files[..|files|] == files;
    }

    /**
     * `merge_documents(directory, output_file)`: the run `MergeRun`
     * describes; the result is left alone when the run stops before any
     * task is submitted, otherwise the processed and failed documents are
     * counted in it, and `total_pages` is the
     * page count of the written output.
     */
    method MergeDocuments(env: Env, matches: (string, string) -> bool, customLines: Result<seq<string>>,
                          directory: Path, tmp: Path, schedule: nat -> seq<nat>) returns (r: Result<Merged>)
      requires forall n: nat :: IsOrdering(schedule(n), n)
      modifies result
      ensures r == MergeRun(env, matches, config, customLines, directory, tmp, schedule)
      ensures var listing := Listing(env.fs, matches, config, customLines, directory);
        (listing.Raised? || listing.value == [] || config.maxWorkers <= 0) ==> unchanged(result)
      ensures var listing := Listing(env.fs, matches, config, customLines, directory);
        listing.Ok? && listing.value != [] && config.maxWorkers > 0 ==>
          var docs := listing.value;
          var c := Completion(Processor(env, config.ocrEnabled, tmp), docs, schedule(|docs|));
          result.processedDocuments == old(result.processedDocuments) + |c.processed| &&
          result.failedDocuments == old(result.failedDocuments) + |c.failed| &&
          result.failedFiles == old(result.failedFiles) + c.failed &&
          result.warnings == old(result.warnings) &&
          result.totalPages == (if r.Ok? && r.value.output.Some? then |r.value.output.value.pages| else old(result.totalPages))
    {
      var listing := IterDocuments(env.fs, matches, config, customLines, directory);
      if listing.Raised? {
        return Raised(listing.error);
      }
      var docs := listing.value;
      if docs == [] {
        return Raised(Builtin(ValueErr, "No matching documents found in directory"));
      }
      if config.maxWorkers <= 0 {
        return Raised(Builtin(ValueErr, "max_workers must be greater than 0"));
      }
      var order := schedule(|docs|);
      assert IsOrdering(order, |docs|);
      var c := CollectResults(env, docs, tmp, order, Processor(env, config.ocrEnabled, tmp));
      r := AssembleOutput(env.pdfs, NamesOf(docs), c);
    }

    /**
     * The tail of `merge_documents` once the results are collected: nothing
     * to merge when nothing succeeded, else the pairs in catalog order are
     * appended, outlined and stamped, and `total_pages` is set.
     */
    method AssembleOutput(pdfs: PdfStore, names: seq<string>, c: Collected) returns (r: Result<Merged>)
      modifies result
      ensures r == Assemble(pdfs, config.addBookmarks, names, c)
      ensures result.totalPages == (if r.Ok? && r.value.output.Some? then |r.value.output.value.pages| else old(result.totalPages))
      ensures result.processedDocuments == old(result.processedDocuments) && result.failedDocuments == old(result.failedDocuments)
      ensures result.failedFiles == old(result.failedFiles) && result.warnings == old(result.warnings)
    {
      if c.processed == [] {
        return Ok(Merged([], c.failed, None, []));
      }
      var files := RestoreOrder(names, c.processed);
      var pages := AppendAll(pdfs, files);
      if pages.Raised? {
        return Raised(pages.error);
      }
      var bookmarks := CreateBookmarks(pdfs, files);
      var output := World.Pdf(pages.value, EnhancedMetadata(Firsts(files)));
      result.totalPages := |output.pages|;
      r := Ok(Merged(files, c.failed, Some(output), bookmarks));
    }
  }
}
