/**
 * The stand-alone script `combine_pdfs.py`: it lists the documents directly
 * in a directory, converts DOC/DOCX files to PDF, runs OCRmyPDF on PDFs
 * without text, appends every ready PDF to one output, records the
 * appended names in `/Subject`, and later reads them back to compare the
 * output with the directory.
 */
module CombinePdfs {
  import opened Base
  import opened Strings
  import opened Paths
  import opened Collections
  import opened Exceptions
  import opened World
  import opened Pages
  import opened Provenance
  import Utils
  import Converters

  /**
   * `iter_documents(directory)`: a path that is not a directory raises
   * `NotADirectoryError`; otherwise the entries directly in it whose
   * lower-cased suffix is supported, in sorted path order. Unlike the
   * package's scan, the entry need not be a regular file.
   */
  function IterDocuments(fs: FileSystem, directory: Path): (r: Result<seq<Path>>)
    ensures r.Raised? <==> !fs.IsDir(directory)
    ensures r.Raised? ==> r.error == Builtin(NotADirectory, ToString(directory) + " is not a directory")
    ensures r.Ok? ==> forall p :: p in r.value <==> p in fs.listing && Under(p, directory, false) && Utils.IsSupported(p)
    ensures r.Ok? ==> forall i, j :: 0 <= i < j < |r.value| ==> !PathLess(r.value[j], r.value[i])
  {
    if !fs.IsDir(directory) then Raised(Builtin(NotADirectory, ToString(directory) + " is not a directory"))
    else
      var sorted := SortPaths(Below(fs.listing, directory, false));
      assert forall p :: p in sorted <==> p in multiset(sorted);
      assert forall p :: p in Below(fs.listing, directory, false) <==> p in multiset(Below(fs.listing, directory, false));
      FilterKeepsOrder(sorted, Utils.IsSupported, (a: Path, b: Path) => !PathLess(b, a));
      Ok(Filter(sorted, Utils.IsSupported))
  }

  /**
   * Where every entry directly in the directory is a regular file, the
   * script lists exactly what the package's non-recursive scan lists.
   */
  lemma {:induction false} ScansAgreeOnFiles(fs: FileSystem, directory: Path)
    requires fs.IsDir(directory)
    requires forall p :: p in fs.listing && Under(p, directory, false) ==> fs.IsFile(p)
    ensures IterDocuments(fs, directory) == Utils.IterDocuments(fs, directory, false)
  {
    var sorted := SortPaths(Below(fs.listing, directory, false));
    assert forall p :: p in sorted <==> p in multiset(sorted);
    assert forall p :: p in Below(fs.listing, directory, false) <==> p in multiset(Below(fs.listing, directory, false));
    FilterAgrees(sorted, Utils.IsSupported, p => fs.IsFile(p) && Utils.IsSupported(p));
  }

  /**
   * `count_expected_files`: fails as the listing fails, and otherwise counts
   * what it yields, which is the number of distinct supported entries when
   * the directory lists each entry once.
   */
  function CountExpectedFiles(fs: FileSystem, directory: Path): (r: Result<nat>)
    ensures r.Raised? <==> !fs.IsDir(directory)
    ensures r.Raised? ==> r.error == IterDocuments(fs, directory).error
    ensures r.Ok? ==> r.value == |IterDocuments(fs, directory).value|
    ensures r.Ok? && fs.ListedOnce() ==>
      r.value == |set p | p in fs.listing && Under(p, directory, false) && Utils.IsSupported(p)|
  {
    match IterDocuments(fs, directory)
    case Raised(e) => Raised(e)
    case Ok(docs) =>
      if fs.ListedOnce() then
        CountListedOnce(fs, directory);
        Ok(|docs|)
      else Ok(|docs|)
  }

  lemma {:induction false} CountListedOnce(fs: FileSystem, directory: Path)
    requires fs.IsDir(directory) && fs.ListedOnce()
    ensures |IterDocuments(fs, directory).value| ==
      |set p | p in fs.listing && Under(p, directory, false) && Utils.IsSupported(p)|
  {
    var below := Below(fs.listing, directory, false);
    var sorted := SortPaths(below);
    var docs := IterDocuments(fs, directory).value;
    assert docs == Filter(sorted, Utils.IsSupported);
    FilterNoDuplicates(fs.listing, p => Under(p, directory, false));
    PermutationNoDuplicates(below, sorted);
    FilterNoDuplicates(sorted, Utils.IsSupported);
    assert Elements(docs) == set p | p in fs.listing && Under(p, directory, false) && Utils.IsSupported(p);
    ElementsBound(docs);
  }

  /** The message of the `RuntimeError` for a LibreOffice conversion that fails or cannot start. */
  const LibreOfficeRequired :=
    "LibreOffice is required for DOC/DOCX conversion on Linux. Install with: sudo apt-get install libreoffice"

  /**
   * `convert(str(doc_path), str(pdf_path))` of docx2pdf: the files present
   * afterwards, or what the call raises. The script imports docx2pdf at
   * start-up on the platforms that use it, so a library that cannot be
   * imported surfaces as an `ImportError`.
   */
  function RunDocx2Pdf(docx2pdf: (Path, Path) -> LibraryCall, doc: Path, pdfPath: Path): (r: Result<seq<Path>>)
    ensures docx2pdf(doc, pdfPath).Returned? <==> r.Ok?
    ensures r.Ok? ==> r.value == docx2pdf(doc, pdfPath).present
    ensures docx2pdf(doc, pdfPath).Threw? ==> r == Raised(docx2pdf(doc, pdfPath).error)
    ensures docx2pdf(doc, pdfPath).NotImportable? ==> r.Raised? && r.error.kind == Import
  {
    match docx2pdf(doc, pdfPath)
    case Returned(present) => Ok(present)
    case NotImportable => Raised(Builtin(Import, "No module named 'docx2pdf'"))
    case Threw(e) => Raised(e)
  }

  /**
   * The LibreOffice run of `convert_doc_to_pdf`, with `check=True` and no
   * timeout: a non-zero exit or a missing program becomes the "LibreOffice
   * is required" `RuntimeError`; anything else the run raises propagates.
   */
  function RunLibreOffice(tools: Invocation -> ToolOutcome, doc: Path, outputDir: Path): (r: Result<seq<Path>>)
    ensures var outcome := tools(Invocation(Converters.LibreOfficeCommand(outputDir, doc), None));
      (r.Ok? <==> outcome.Exited? && outcome.code == 0) &&
      (r.Ok? ==> r.value == outcome.present) &&
      (outcome.NotInstalled? || (outcome.Exited? && outcome.code != 0) <==> r == Raised(Builtin(Runtime, LibreOfficeRequired)))
  {
    match Utils.RunCommand(tools, Converters.LibreOfficeCommand(outputDir, doc), None)
    case Ok(present) => Ok(present)
    case Raised(e) =>
      if e.kind in {CalledProcess, FileNotFound} then Raised(Builtin(Runtime, LibreOfficeRequired))
      else Raised(e)
  }

  /** The converter `convert_doc_to_pdf` runs: docx2pdf on Windows and macOS, LibreOffice elsewhere. */
  function RunConverter(env: Env, doc: Path, outputDir: Path): (r: Result<seq<Path>>)
    ensures env.system in Converters.Docx2PdfSystems ==>
      r == RunDocx2Pdf(env.docx2pdf, doc, Converters.ExpectedOutput(outputDir, doc))
    ensures env.system !in Converters.Docx2PdfSystems ==> r == RunLibreOffice(env.tools, doc, outputDir)
  {
    if env.system in Converters.Docx2PdfSystems then RunDocx2Pdf(env.docx2pdf, doc, Converters.ExpectedOutput(outputDir, doc))
    else RunLibreOffice(env.tools, doc, outputDir)
  }

  /**
   * `convert_doc_to_pdf`: the converted file is `outputDir/<stem>.pdf`; a
   * converter that raises propagates its error, and one that leaves no such
   * file gives "Failed to convert <doc> to PDF".
   */
  function ConvertDocToPdf(env: Env, doc: Path, outputDir: Path): (r: Result<Path>)
    ensures r.Ok? ==> r.value == Converters.ExpectedOutput(outputDir, doc)
    ensures r.Ok? && doc.name != "" ==> Suffix(r.value.name) == ".pdf" && Stem(r.value.name) == Stem(doc.name)
    ensures RunConverter(env, doc, outputDir).Raised? ==> r == Raised(RunConverter(env, doc, outputDir).error)
    ensures RunConverter(env, doc, outputDir).Ok? ==>
      (r.Ok? <==> Converters.ExpectedOutput(outputDir, doc) in RunConverter(env, doc, outputDir).value)
    ensures RunConverter(env, doc, outputDir).Ok? && r.Raised? ==>
      r.error == Builtin(Runtime, "Failed to convert " + ToString(doc) + " to PDF")
  {
    var pdfPath := Converters.ExpectedOutput(outputDir, doc);
    match RunConverter(env, doc, outputDir)
    case Raised(e) => Raised(e)
    case Ok(present) =>
      if pdfPath in present then Ok(pdfPath)
      else Raised(Builtin(Runtime, "Failed to convert " + ToString(doc) + " to PDF"))
  }

  /** The default `sample_pages` of `pdf_has_text`. */
  const SamplePages := 3

  /** `reader.pages[:sample_pages]`. */
  function Sample(pages: seq<PageText>, samplePages: int): (r: seq<PageText>)
    ensures |r| == SliceCount(|pages|, samplePages)
    ensures r == pages[..|r|]
  {
    pages[..SliceCount(|pages|, samplePages)]
  }

  /**
   * `pdf_has_text`: the sampled pages are read in order until one has text.
   * A `PdfReadError`, on opening or while extracting, gives false; any
   * other error (a missing file, another extraction error) propagates.
   */
  function PdfHasText(pdfs: PdfStore, path: Path, samplePages: int): (r: Result<bool>)
    ensures OpenPdf(pdfs, path).Raised? ==>
      r == (if OpenPdf(pdfs, path).error.kind == PdfRead then Ok(false) else Raised(OpenPdf(pdfs, path).error))
    ensures OpenPdf(pdfs, path).Ok? ==>
      var sample := Sample(OpenPdf(pdfs, path).value.pages, samplePages);
      (r == Ok(true) <==> FirstAfterBlank(sample, HasText)) &&
      (r.Raised? <==> FirstAfterBlank(sample, (p: PageText) => p.ExtractFails? && p.error.kind != PdfRead))
  {
    match OpenPdf(pdfs, path)
    case Raised(e) => if e.kind == PdfRead then Ok(false) else Raised(e)
    case Ok(pdf) =>
      var sample := Sample(pdf.pages, samplePages);
      match ScanPages(sample)
      case FoundText => Ok(true)
      case NoText => Ok(false)
      case ScanFailed(e) =>
        FailureKind(sample, e);
        if e.kind == PdfRead then Ok(false) else Raised(e)
  }

  /** The first failing page of a scan fails in some way other than `PdfReadError` exactly when the error is not one. */
  lemma {:induction false} FailureKind(ps: seq<PageText>, e: Error)
    requires FirstAfterBlank(ps, (p: PageText) => p == ExtractFails(e))
    ensures FirstAfterBlank(ps, (p: PageText) => p.ExtractFails? && p.error.kind != PdfRead) <==> e.kind != PdfRead
  {
  }

  /**
   * When the file opens and no sampled page fails to extract, the answer is
   * true exactly when one of the first `samplePages` pages has non-blank text.
   */
  lemma {:induction false} HasTextIffSampleHasText(pdfs: PdfStore, path: Path, samplePages: int)
    requires OpenPdf(pdfs, path).Ok?
    requires var sample := Sample(OpenPdf(pdfs, path).value.pages, samplePages);
      forall i :: 0 <= i < |sample| ==> sample[i].Extracted?
    ensures var sample := Sample(OpenPdf(pdfs, path).value.pages, samplePages);
      PdfHasText(pdfs, path, samplePages) == Ok(exists i :: 0 <= i < |sample| && HasText(sample[i]))
  {
    ScansAgree(Sample(OpenPdf(pdfs, path).value.pages, samplePages));
  }

  /** The message of the `RuntimeError` for an OCR run that fails or cannot start. */
  const OcrRequired := "OCRmyPDF is required and must be installed & on PATH"

  /** The OCRmyPDF invocation of `ocr_pdf`. */
  function OcrCommand(source: Path, dest: Path): (cmd: seq<string>)
    ensures |cmd| == 5 && Utils.Program(cmd) == "ocrmypdf"
    ensures cmd[1..3] == ["--skip-text", "--quiet"]
    ensures cmd[3] == ToString(source) && cmd[4] == ToString(dest)
  {
    ["ocrmypdf", "--skip-text", "--quiet", ToString(source), ToString(dest)]
  }

  /**
   * `ocr_pdf`: a PDF with text is returned as it is; otherwise OCRmyPDF
   * writes `destDir/<name>`, which is returned once the run succeeds. A
   * failing or missing OCRmyPDF gives the "OCRmyPDF is required"
   * `RuntimeError`; an error of the text check propagates.
   */
  function OcrPdf(env: Env, source: Path, destDir: Path): (r: Result<Path>)
    ensures PdfHasText(env.pdfs, source, SamplePages) == Ok(true) ==> r == Ok(source)
    ensures PdfHasText(env.pdfs, source, SamplePages).Raised? ==> r == Raised(PdfHasText(env.pdfs, source, SamplePages).error)
    ensures PdfHasText(env.pdfs, source, SamplePages) == Ok(false) ==>
      var outcome := env.tools(Invocation(OcrCommand(source, Child(destDir, source.name)), None));
      (r.Ok? <==> outcome.Exited? && outcome.code == 0) &&
      (r.Ok? ==> r.value == Child(destDir, source.name)) &&
      (outcome.NotInstalled? || (outcome.Exited? && outcome.code != 0) <==> r == Raised(Builtin(Runtime, OcrRequired)))
  {
    match PdfHasText(env.pdfs, source, SamplePages)
    case Raised(e) => Raised(e)
    case Ok(hasText) =>
      if hasText then Ok(source)
      else
        var dest := Child(destDir, source.name);
        match Utils.RunCommand(env.tools, OcrCommand(source, dest), None)
        case Ok(_) => Ok(dest)
        case Raised(e) =>
          if e.kind in {CalledProcess, FileNotFound} then Raised(Builtin(Runtime, OcrRequired))
          else Raised(e)
  }

  /**
   * `get_pdf_metadata`: the names parsed from the first of `/Subject`,
   * `/Keywords`, `/Producer` that carries the sentinel; none when the file
   * does not open or no field carries it.
   */
  function GetPdfMetadata(pdfs: PdfStore, path: Path): (names: seq<string>)
    ensures OpenPdf(pdfs, path).Raised? ==> names == []
    ensures OpenPdf(pdfs, path).Ok? ==>
      var found := FindInFields(OpenPdf(pdfs, path).value.metadata, ScanFields);
      (names == [] <==> found.None?) && (found.Some? ==> names == ParseNames(found.value))
  {
    match OpenPdf(pdfs, path)
    case Raised(_) => []
    case Ok(pdf) =>
      match FindInFields(pdf.metadata, ScanFields)
      case None => []
      case Some(value) => ParseNames(value)
  }

  /** The document-information entries the script writes into its output. */
  const ProducerName := "PDF Combiner Script"

  function CombinedMetadata(processed: seq<string>): map<string, string>
  {
    map["/Subject" := SubjectFor(processed), "/Producer" := ProducerName]
  }

  /**
   * What the script reads back from an output it wrote: the appended names
   * when they are clean, and one empty name when nothing was appended.
   */
  lemma {:induction false} ReadsBackProvenance(pdfs: PdfStore, path: Path, processed: seq<string>)
    requires path in pdfs && pdfs[path].Parsed? && pdfs[path].pdf.metadata == CombinedMetadata(processed)
    ensures processed != [] && AllRecoverable(processed) ==> GetPdfMetadata(pdfs, path) == processed
    ensures processed == [] ==> GetPdfMetadata(pdfs, path) == [""]
  {
    var meta := CombinedMetadata(processed);
    SubjectCarriesMarker(processed);
    assert FindInFields(meta, ScanFields) == Some(SubjectFor(processed));
    if processed != [] && AllRecoverable(processed) {
      ParseNamesRoundTrip(processed);
    }
    if processed == [] {
      EmptySubjectReadsBlank();
    }
  }

  /** A DOC or DOCX file by its lower-cased suffix: the documents that are converted first. */
  predicate IsWordDocument(doc: Path)
  {
    Lower(Suffix(doc.name)) in {".doc", ".docx"}
  }

  /** The PDF the loop appends for `doc`: converted first when it is a Word document, then through `ocr_pdf`. */
  function ReadyPdf(env: Env, doc: Path, tmp: Path): (r: Result<Path>)
    ensures !IsWordDocument(doc) ==> r == OcrPdf(env, doc, tmp)
    ensures IsWordDocument(doc) && ConvertDocToPdf(env, doc, tmp).Raised? ==> r == Raised(ConvertDocToPdf(env, doc, tmp).error)
    ensures IsWordDocument(doc) && ConvertDocToPdf(env, doc, tmp).Ok? ==> r == OcrPdf(env, ConvertDocToPdf(env, doc, tmp).value, tmp)
  {
    var converted := if IsWordDocument(doc) then ConvertDocToPdf(env, doc, tmp) else Ok(doc);
    match converted
    case Raised(e) => Raised(e)
    case Ok(pdfPath) => OcrPdf(env, pdfPath, tmp)
  }

  /** `merger.append(str(ready_pdf))`: the ready PDF's pages, or the error of any step before or of the read. */
  function Appended(env: Env, doc: Path, tmp: Path): (r: Result<Pdf>)
    ensures r.Ok? <==> ReadyPdf(env, doc, tmp).Ok? && OpenPdf(env.pdfs, ReadyPdf(env, doc, tmp).value).Ok?
    ensures r.Ok? ==> r.value == env.pdfs[ReadyPdf(env, doc, tmp).value].pdf
  {
    match ReadyPdf(env, doc, tmp)
    case Raised(e) => Raised(e)
    case Ok(ready) => OpenPdf(env.pdfs, ready)
  }

  /** The lists the merge loop builds: appended names, failed names, and the pages appended so far. */
  datatype Tally = Tally(processed: seq<string>, failed: seq<string>, pages: seq<PageText>)

  /**
   * The merge loop of `merge_documents` over `docs`, given what appending
   * each document does: every document lands in exactly one of the two lists.
   */
  function MergeLoop(append: Path -> Result<Pdf>, docs: seq<Path>): (t: Tally)
    ensures |t.processed| + |t.failed| == |docs|
    decreases |docs|
  {
    if docs == [] then Tally([], [], [])
    else
      var t := MergeLoop(append, docs[..|docs| - 1]);
      var doc := docs[|docs| - 1];
      match append(doc)
      case Ok(pdf) => Tally(t.processed + [doc.name], t.failed, t.pages + pdf.pages)
      case Raised(_) => Tally(t.processed, t.failed + [doc.name], t.pages)
  }

  /**
   * The appended names are the names of the documents that append, and the
   * failed names those of the others, both in catalog order.
   */
  lemma {:induction false} MergeLoopPartition(append: Path -> Result<Pdf>, docs: seq<Path>)
    ensures MergeLoop(append, docs).processed == NamesOf(Filter(docs, d => append(d).Ok?))
    ensures MergeLoop(append, docs).failed == NamesOf(Filter(docs, d => append(d).Raised?))
    decreases |docs|
  {
    if docs != [] {
      var init := docs[..|docs| - 1];
      var doc := docs[|docs| - 1];
      assert docs == init + [doc];
      MergeLoopPartition(append, init);
      FilterSnoc(init, doc, d => append(d).Ok?);
      FilterSnoc(init, doc, d => append(d).Raised?);
      NamesOfSnoc(Filter(init, d => append(d).Ok?), doc);
      NamesOfSnoc(Filter(init, d => append(d).Raised?), doc);
    }
  }

  lemma {:induction false} NamesOfSnoc(ps: seq<Path>, p: Path)
    ensures NamesOf(ps + [p]) == NamesOf(ps) + [p.name]
  {
  }

  /** A line of the final report: the count mismatch, and the failed files after it. */
  datatype Report = CountMismatch(expected: nat, processed: nat) | FailedToProcess(names: seq<string>)

  /** The warnings `merge_documents` logs after writing the output. */
  function FinalReport(expected: nat, processed: seq<string>, failed: seq<string>): (rs: seq<Report>)
    ensures rs != [] <==> |processed| != expected
    ensures rs != [] ==> rs[0] == CountMismatch(expected, |processed|)
    ensures FailedToProcess(failed) in rs <==> |processed| != expected && failed != []
    ensures |rs| <= 2
  {
    if |processed| == expected then []
    else [CountMismatch(expected, |processed|)] + (if failed != [] then [FailedToProcess(failed)] else [])
  }

  /** What one run of `merge_documents` produces: the two lists, the output PDF and the report. */
  datatype Combined = Combined(processed: seq<string>, failed: seq<string>, output: Pdf, reports: seq<Report>)

  /** What appending a document does in a run with `tmp` as its temporary directory. */
  function Appender(env: Env, tmp: Path): Path -> Result<Pdf>
  {
    d => Appended(env, d, tmp)
  }

  /**
   * The run over `docs` after counting `expected` of them: the loop's lists,
   * the appended pages with the script's metadata, which is written even
   * when nothing was appended, and the final report.
   */
  function Combine(append: Path -> Result<Pdf>, docs: seq<Path>, expected: nat): Combined
  {
    var t := MergeLoop(append, docs);
    Combined(t.processed, t.failed, World.Pdf(t.pages, CombinedMetadata(t.processed)),
      FinalReport(expected, t.processed, t.failed))
  }

  /**
   * A run counted on the list it merges partitions the documents into
   * appended and failed ones, in catalog order, writes their provenance
   * into `/Subject`, and reports a count mismatch exactly when some
   * document failed.
   */
  lemma {:induction false} CombineFacts(append: Path -> Result<Pdf>, docs: seq<Path>)
    ensures var c := Combine(append, docs, |docs|);
      c.processed == NamesOf(Filter(docs, d => append(d).Ok?)) &&
      c.failed == NamesOf(Filter(docs, d => append(d).Raised?)) &&
      c.output.metadata["/Subject"] == SubjectFor(c.processed) &&
      (c.reports != [] <==> c.failed != []) &&
      (c.reports != [] ==> c.reports == [CountMismatch(|docs|, |c.processed|), FailedToProcess(c.failed)])
  {
    MergeLoopPartition(append, docs);
  }

  /**
   * `merge_documents(directory, output_file)` with `tmp` as its temporary
   * directory: the listing fails as `count_expected_files` fails; otherwise
   * the run over the listed documents, counted on that same list.
   */
  function MergeOutcome(env: Env, directory: Path, tmp: Path): (r: Result<Combined>)
    ensures r.Raised? <==> !env.fs.IsDir(directory)
    ensures r.Raised? ==> r.error == CountExpectedFiles(env.fs, directory).error
    ensures r.Ok? ==> var docs := IterDocuments(env.fs, directory).value;
      r.value == Combine(Appender(env, tmp), docs, |docs|)
  {
    match CountExpectedFiles(env.fs, directory)
    case Raised(e) => Raised(e)
    case Ok(expected) => Ok(Combine(Appender(env, tmp), IterDocuments(env.fs, directory).value, expected))
  }

  /**
   * The loop of `merge_documents`. Counting and listing the directory twice
   * gives the same documents, so the loop runs over the list it counted.
   */
  method MergeDocuments(env: Env, directory: Path, tmp: Path) returns (r: Result<Combined>)
    ensures r == MergeOutcome(env, directory, tmp)
  {
    var expected := CountExpectedFiles(env.fs, directory);
    if expected.Raised? {
      return Raised(expected.error);
    }
    var docs := IterDocuments(env.fs, directory).value;
    var c := MergeLoopRun(Appender(env, tmp), docs, expected.value);
    r := Ok(c);
  }

  /** The loop itself, over a listed catalog, with what appending each document does. */
  method MergeLoopRun(append: Path -> Result<Pdf>, docs: seq<Path>, expected: nat) returns (c: Combined)
    ensures c == Combine(append, docs, expected)
  {
    var processed: seq<string> := [];
    var failed: seq<string> := [];
    var pages: seq<PageText> := [];
    for i := 0 to |docs|
      invariant MergeLoop(append, docs[..i]) == Tally(processed, failed, pages)
    {
      assert docs[..i + 1][..i] == docs[..i];
      var appended := append(docs[i]);
      if appended.Ok? {
        processed := processed + [docs[i].name];
        pages := pages + appended.value.pages;
      } else {
        failed := failed + [docs[i].name];
      }
    }
    assert docs[..|docs|] == docs;
    var reports: seq<Report> := [];
    if |processed| != expected {
      reports := [CountMismatch(expected, |processed|)];
      if failed != [] {
        reports := reports + [FailedToProcess(failed)];
      }
    }
    c := Combined(processed, failed, World.Pdf(pages, CombinedMetadata(processed)), reports);
  }

  /** The outcome of comparing an output with its source directory. */
  datatype Verdict =
    | Verified(count: nat)
    | Discrepancy(missing: seq<string>, extra: seq<string>)
    | CannotVerify(count: nat)

  /** `verify_combined_pdf`'s findings: the verdict, and the page count when the output opens. */
  datatype Verification = Verification(verdict: Verdict, pageCount: Option<nat>)

  /**
   * The comparison of `verify_combined_pdf`, on the names in the directory
   * and the names recovered from the output, as sets. No recovered name
   * means it cannot verify; equal sets verify; otherwise the missing and the
   * extra names, each sorted.
   */
  function Judge(expected: seq<string>, found: seq<string>): (v: Verdict)
    ensures v.CannotVerify? <==> found == []
    ensures v.Verified? <==> found != [] && Elements(found) == Elements(expected)
    ensures v.Discrepancy? ==>
      Elements(v.missing) == Elements(expected) - Elements(found) && StrictlyAscending(v.missing) &&
      Elements(v.extra) == Elements(found) - Elements(expected) && StrictlyAscending(v.extra)
    ensures !v.Discrepancy? ==> v.count == |Elements(expected)|
  {
    if found == [] then CannotVerify(|Elements(expected)|)
    else
      var missing := SortedDifference(expected, found);
      var extra := SortedDifference(found, expected);
      if missing == [] && extra == [] then Verified(|Elements(expected)|)
      else Discrepancy(missing, extra)
  }

  /**
   * `verify_combined_pdf(pdf_path, source_dir)`: a source that is not a
   * directory raises; otherwise the comparison of the directory's names
   * with what `get_pdf_metadata` recovers, and the output's page count when
   * it opens.
   */
  function VerifyCombinedPdf(fs: FileSystem, pdfs: PdfStore, pdfPath: Path, sourceDir: Path): (r: Result<Verification>)
    ensures r.Raised? <==> !fs.IsDir(sourceDir)
    ensures r.Ok? ==> r.value.verdict == Judge(NamesOf(IterDocuments(fs, sourceDir).value), GetPdfMetadata(pdfs, pdfPath))
    ensures r.Ok? ==> (r.value.pageCount.Some? <==> OpenPdf(pdfs, pdfPath).Ok?)
    ensures r.Ok? && r.value.pageCount.Some? ==> r.value.pageCount.value == |OpenPdf(pdfs, pdfPath).value.pages|
  {
    match IterDocuments(fs, sourceDir)
    case Raised(e) => Raised(e)
    case Ok(docs) =>
      var pageCount := match OpenPdf(pdfs, pdfPath) case Ok(pdf) => Some(|pdf.pages|) case Raised(_) => None;
      Ok(Verification(Judge(NamesOf(docs), GetPdfMetadata(pdfs, pdfPath)), pageCount))
  }

  /**
   * The round trip: when no document failed and the appended names are
   * clean, verifying the written output against the same catalog succeeds.
   */
  lemma {:induction false} NothingFailedVerifies(append: Path -> Result<Pdf>, docs: seq<Path>, pdfs: PdfStore, pdfPath: Path)
    requires var c := Combine(append, docs, |docs|);
      c.failed == [] && c.processed != [] && AllRecoverable(c.processed) &&
      pdfPath in pdfs && pdfs[pdfPath] == Parsed(c.output)
    ensures Judge(NamesOf(docs), GetPdfMetadata(pdfs, pdfPath)).Verified?
  {
    var c := Combine(append, docs, |docs|);
    CombineFacts(append, docs);
    assert Filter(docs, d => append(d).Raised?) == [];
    forall d | d in docs ensures append(d).Ok? {
      assert d !in Filter(docs, d => append(d).Raised?);
    }
    FilterAll(docs, d => append(d).Ok?);
    ReadsBackProvenance(pdfs, pdfPath, c.processed);
  }

  /** Writing a file outside the directory leaves its scan as it was. */
  lemma {:induction false} WriteElsewhereKeepsScan(fs: FileSystem, p: Path, node: Node, directory: Path)
    requires !fs.IsDir(p) && node.kind == RegularFile
    requires !Under(p, directory, false)
    ensures IterDocuments(WriteFile(fs, p, node), directory) == IterDocuments(fs, directory)
  {
    WriteElsewhereKeepsBelow(fs, p, node, directory);
  }

  /**
   * The same round trip for a run of the script on a directory: once the
   * output is written outside that directory, verifying it against the
   * directory succeeds.
   */
  lemma {:induction false} MergeThenVerify(env: Env, directory: Path, tmp: Path, pdfs: PdfStore, pdfPath: Path, node: Node)
    requires MergeOutcome(env, directory, tmp).Ok?
    requires var c := MergeOutcome(env, directory, tmp).value;
      c.failed == [] && c.processed != [] && AllRecoverable(c.processed) &&
      pdfPath in pdfs && pdfs[pdfPath] == Parsed(c.output)
    requires !env.fs.IsDir(pdfPath) && node.kind == RegularFile && !Under(pdfPath, directory, false)
    ensures VerifyCombinedPdf(WriteFile(env.fs, pdfPath, node), pdfs, pdfPath, directory).Ok?
    ensures VerifyCombinedPdf(WriteFile(env.fs, pdfPath, node), pdfs, pdfPath, directory).value.verdict.Verified?
  {
    WriteElsewhereKeepsScan(env.fs, pdfPath, node, directory);
    NothingFailedVerifies(Appender(env, tmp), IterDocuments(env.fs, directory).value, pdfs, pdfPath);
  }

  /** One more path in the same directory as all the others adds exactly its name, which none of them has. */
  lemma {:induction false} OneMorePathsName(before: seq<Path>, after: seq<Path>, p: Path)
    requires forall q :: q in after <==> q in before || q == p
    requires forall q :: q in before ==> q.dir == p.dir && q != p
    ensures Elements(NamesOf(after)) == Elements(NamesOf(before)) + {p.name}
    ensures p.name !in Elements(NamesOf(before))
  {
    forall n ensures n in Elements(NamesOf(after)) <==> n in Elements(NamesOf(before)) || n == p.name {
      if n in Elements(NamesOf(after)) {
        var i :| 0 <= i < |after| && NamesOf(after)[i] == n;
        if after[i] != p {
          assert after[i] in before;
          var j :| 0 <= j < |before| && before[j] == after[i];
          assert NamesOf(before)[j] == n;
        }
      }
      if n in Elements(NamesOf(before)) {
        var j :| 0 <= j < |before| && NamesOf(before)[j] == n;
        assert before[j] in after;
        var i :| 0 <= i < |after| && after[i] == before[j];
        assert NamesOf(after)[i] == n;
      }
      if n == p.name {
        assert p in after;
        var i :| 0 <= i < |after| && after[i] == p;
        assert NamesOf(after)[i] == n;
      }
    }
  }

  /**
   * Writing a supported file that was not there directly into the
   * directory adds exactly its name to the scanned names, a name no
   * earlier entry has.
   */
  lemma {:induction false} WriteIntoDirectoryAddsName(fs: FileSystem, p: Path, node: Node, directory: Path)
    requires fs.IsDir(directory) && !fs.IsDir(p) && node.kind == RegularFile
    requires Under(p, directory, false) && Utils.IsSupported(p) && p !in fs.listing
    ensures var before := NamesOf(IterDocuments(fs, directory).value);
      var after := NamesOf(IterDocuments(WriteFile(fs, p, node), directory).value);
      Elements(after) == Elements(before) + {p.name} && p.name !in Elements(before)
  {
    var before := IterDocuments(fs, directory).value;
    var after := IterDocuments(WriteFile(fs, p, node), directory).value;
    OneMorePathsName(before, after, p);
  }

  /** Judging against one more name than the metadata holds reports that name, and only it, as missing. */
  lemma {:induction false} OneMoreNameMissing(expected: seq<string>, found: seq<string>, names: set<string>, n: string)
    requires found != [] && Elements(found) == names
    requires Elements(expected) == names + {n} && n !in names
    ensures var v := Judge(expected, found);
      v.Discrepancy? && Elements(v.missing) == {n} && v.extra == []
  {
    assert n in Elements(expected) - Elements(found);
  }

  /**
   * Verification, after the output is written into the directory, of an
   * output whose metadata names exactly the files scanned before: the
   * output's own name is the only one missing.
   */
  lemma {:induction false} AddedOutputReportedMissing(fs: FileSystem, pdfs: PdfStore, pdfPath: Path, directory: Path, node: Node)
    requires IterDocuments(fs, directory).Ok?
    requires Judge(NamesOf(IterDocuments(fs, directory).value), GetPdfMetadata(pdfs, pdfPath)).Verified?
    requires !fs.IsDir(pdfPath) && node.kind == RegularFile
    requires Under(pdfPath, directory, false) && Utils.IsSupported(pdfPath) && pdfPath !in fs.listing
    ensures var v := VerifyCombinedPdf(WriteFile(fs, pdfPath, node), pdfs, pdfPath, directory);
      v.Ok? && v.value.verdict.Discrepancy? &&
      Elements(v.value.verdict.missing) == {pdfPath.name} && v.value.verdict.extra == []
  {
    var before := IterDocuments(fs, directory).value;
    WriteIntoDirectoryAddsName(fs, pdfPath, node, directory);
    var after := IterDocuments(WriteFile(fs, pdfPath, node), directory).value;
    OneMoreNameMissing(NamesOf(after), GetPdfMetadata(pdfs, pdfPath), Elements(NamesOf(before)), pdfPath.name);
  }

  /**
   * The default output `./combined.pdf` of a run from inside the directory
   * it combines is itself listed when that directory is verified: its name
   * is reported missing from the metadata, and no other name is wrong.
   */
  lemma {:induction false} OutputInSourceReportedMissing(env: Env, directory: Path, tmp: Path, pdfs: PdfStore, pdfPath: Path, node: Node)
    requires MergeOutcome(env, directory, tmp).Ok?
    requires var c := MergeOutcome(env, directory, tmp).value;
      c.failed == [] && c.processed != [] && AllRecoverable(c.processed) &&
      pdfPath in pdfs && pdfs[pdfPath] == Parsed(c.output)
    requires !env.fs.IsDir(pdfPath) && node.kind == RegularFile
    requires Under(pdfPath, directory, false) && Utils.IsSupported(pdfPath) && pdfPath !in env.fs.listing
    ensures var v := VerifyCombinedPdf(WriteFile(env.fs, pdfPath, node), pdfs, pdfPath, directory);
      v.Ok? && v.value.verdict.Discrepancy? &&
      Elements(v.value.verdict.missing) == {pdfPath.name} && v.value.verdict.extra == []
  {
    NothingFailedVerifies(Appender(env, tmp), IterDocuments(env.fs, directory).value, pdfs, pdfPath);
    AddedOutputReportedMissing(env.fs, pdfs, pdfPath, directory, node);
  }

  /**
   * An output with nothing appended still carries "Combined from: ", which
   * reads back as one empty name: verification then reports that empty name
   * as an extra file and every document as missing, rather than that it
   * cannot verify.
   */
  lemma {:induction false} EmptyRunReportsBlankName(append: Path -> Result<Pdf>, docs: seq<Path>, pdfs: PdfStore, pdfPath: Path)
    requires forall d :: d in docs ==> Utils.IsSupported(d)
    requires var c := Combine(append, docs, |docs|);
      c.processed == [] && pdfPath in pdfs && pdfs[pdfPath] == Parsed(c.output)
    ensures var v := Judge(NamesOf(docs), GetPdfMetadata(pdfs, pdfPath));
      v.Discrepancy? && Elements(v.extra) == {""} && Elements(v.missing) == Elements(NamesOf(docs))
  {
    var c := Combine(append, docs, |docs|);
    assert c.output.metadata == CombinedMetadata([]);
    ReadsBackProvenance(pdfs, pdfPath, []);
    SupportedNamesNonEmpty(docs);
    BlankNameDiffers(NamesOf(docs));
  }

  /** Comparing against the single empty name, when no expected name is empty. */
  lemma {:induction false} BlankNameDiffers(expected: seq<string>)
    requires "" !in Elements(expected)
    ensures var v := Judge(expected, [""]);
      v.Discrepancy? && Elements(v.extra) == {""} && Elements(v.missing) == Elements(expected)
  {
    assert Elements([""]) == {""};
    assert "" in Elements([""]);
  }

  /** The same for a run of the script on a directory, verified against that directory. */
  lemma {:induction false} EmptyMergeReportsBlankName(env: Env, directory: Path, tmp: Path, pdfs: PdfStore, pdfPath: Path)
    requires MergeOutcome(env, directory, tmp).Ok?
    requires var c := MergeOutcome(env, directory, tmp).value;
      c.processed == [] && pdfPath in pdfs && pdfs[pdfPath] == Parsed(c.output)
    ensures var v := VerifyCombinedPdf(env.fs, pdfs, pdfPath, directory);
      v.Ok? && v.value.verdict.Discrepancy? && Elements(v.value.verdict.extra) == {""} &&
      Elements(v.value.verdict.missing) == Elements(NamesOf(IterDocuments(env.fs, directory).value))
  {
    EmptyRunReportsBlankName(Appender(env, tmp), IterDocuments(env.fs, directory).value, pdfs, pdfPath);
  }

  /** A supported document has a suffix, so its name is never empty. */
  lemma {:induction false} SupportedNamesNonEmpty(docs: seq<Path>)
    requires forall d :: d in docs ==> Utils.IsSupported(d)
    ensures "" !in Elements(NamesOf(docs))
  {
    assert Lower(Suffix("")) == "";
    forall i | 0 <= i < |docs| ensures NamesOf(docs)[i] != "" {
      assert Utils.IsSupported(docs[i]);
    }
  }
}
