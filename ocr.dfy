/**
 * OCR processing: deciding whether a PDF needs OCR by sampling its first
 * pages for text, running ocrmypdf on one PDF, counting text and image
 * pages, and the batch pass over a list of documents.
 */
module Ocr {
  import opened Base
  import opened Strings
  import opened Paths
  import opened Exceptions
  import opened World
  import opened Models
  import opened Utils
  import opened Pages
  import opened Batch

  /** An `OCRProcessor`: its settings never change after construction. */
  datatype OcrProcessor = OcrProcessor(
    language: string,
    dpi: int,
    skipTextPages: bool,
    timeout: int,
    extraArgs: seq<string>)

  /** The tools the processor checks for when it is created. */
  const OcrDependencies := ["ocrmypdf", "tesseract", "ghostscript"]

  /**
   * `OCRProcessor(language, dpi, skip_text_pages, timeout, extra_args)`:
   * creating a processor fails with the `DependencyError` of the dependency
   * check, and otherwise keeps the settings, a missing `extra_args` as none.
   */
  function NewOcrProcessor(onPath: set<string>, system: string, language: string, dpi: int, skipTextPages: bool,
                           timeout: int, extraArgs: Option<seq<string>>): (r: Result<OcrProcessor>)
    ensures r.Raised? <==> EnsureDependencies(OcrDependencies, onPath, system).Raised?
    ensures r.Raised? ==> r.error == EnsureDependencies(OcrDependencies, onPath, system).error && r.error.kind == Dependency
    ensures r.Ok? ==> r.value.language == language && r.value.dpi == dpi && r.value.skipTextPages == skipTextPages &&
                      r.value.timeout == timeout && r.value.extraArgs == (if extraArgs.Some? then extraArgs.value else [])
  {
    match EnsureDependencies(OcrDependencies, onPath, system)
    case Raised(e) => Raised(e)
    case Ok(_) => Ok(OcrProcessor(language, dpi, skipTextPages, timeout, if extraArgs.Some? then extraArgs.value else []))
  }

  /**
   * `needs_ocr(pdf_path, sample_pages)`: true exactly when the file opens
   * and each of its first `min(sample_pages, page count)` pages is blank; a
   * page with text, an extraction error and a file that cannot be read all
   * give false. A PDF without pages needs OCR.
   */
  function NeedsOcr(pdfs: PdfStore, path: Path, samplePages: int): (r: bool)
    ensures r <==> (OpenPdf(pdfs, path).Ok? &&
      var pages := OpenPdf(pdfs, path).value.pages;
      forall i :: 0 <= i < RangeCount(|pages|, samplePages) ==> Blank(pages[i]))
  {
    match OpenPdf(pdfs, path)
    case Raised(_) => false
    case Ok(pdf) =>
      var scan := ScanPages(pdf.pages[..RangeCount(|pdf.pages|, samplePages)]);
      assert forall i :: 0 <= i < RangeCount(|pdf.pages|, samplePages) ==>
        pdf.pages[..RangeCount(|pdf.pages|, samplePages)][i] == pdf.pages[i];
      scan == NoText
  }

  /** When the check says no, either the file cannot be read, or a sampled page has text, or reading a sampled page failed. */
  lemma {:induction false} NoOcrReasons(pdfs: PdfStore, path: Path, samplePages: int)
    requires OpenPdf(pdfs, path).Ok? && !NeedsOcr(pdfs, path, samplePages)
    ensures var pages := OpenPdf(pdfs, path).value.pages;
      exists i :: 0 <= i < RangeCount(|pages|, samplePages) && (HasText(pages[i]) || Fails(pages[i]))
  {
    var pages := OpenPdf(pdfs, path).value.pages;
    var i :| 0 <= i < RangeCount(|pages|, samplePages) && !Blank(pages[i]);
    assert HasText(pages[i]) || Fails(pages[i]);
  }

  /**
   * `process_pdf`'s command: the fixed options, "--skip-text" when pages with
   * text are skipped, the extra arguments verbatim, then input and output.
   */
  function OcrCommand(proc: OcrProcessor, input: Path, output: Path): (cmd: seq<string>)
    ensures |cmd| == 8 + (if proc.skipTextPages then 1 else 0) + |proc.extraArgs|
    ensures cmd[..6] == ["ocrmypdf", "--language", proc.language, "--dpi", IntToString(proc.dpi), "--quiet"]
    ensures proc.skipTextPages ==> cmd[6] == "--skip-text"
    ensures var s := if proc.skipTextPages then 7 else 6; cmd[s..|cmd| - 2] == proc.extraArgs
    ensures cmd[|cmd| - 2..] == [ToString(input), ToString(output)]
  {
    var cmd := ["ocrmypdf", "--language", proc.language, "--dpi", IntToString(proc.dpi), "--quiet"];
    var cmd := cmd + (if proc.skipTextPages then ["--skip-text"] else []);
    var cmd := cmd + proc.extraArgs;
    cmd + [ToString(input), ToString(output)]
  }

  /** Where `process_pdf` writes: the given path, or "ocr_" and the input's name in the system temporary directory. */
  function OcrOutput(systemTemp: Path, input: Path, output: Option<Path>): (p: Path)
    ensures output.None? ==> p.name == "ocr_" + input.name && p.dir == Parts(systemTemp)
    ensures output.Some? ==> p == output.value
  {
    if output.Some? then output.value else Child(systemTemp, "ocr_" + input.name)
  }

  /** The `OCRError` `process_pdf` raises for whatever went wrong while running the tool. */
  function OcrFailure(input: Path, reason: string): Error
  {
    OcrError("OCR processing failed: " + reason, Some(ToString(input)), DefaultOcrEngine)
  }

  /**
   * `process_pdf(input_path, output_path)`: a PDF that needs no OCR is
   * returned as it is; otherwise ocrmypdf runs with the processor's timeout
   * and the output path is returned when the file is then present. A tool
   * that is not installed becomes a `DependencyError`; every other failure,
   * including a run that leaves no output, becomes an `OCRError` naming the input.
   */
  function ProcessPdf(env: Env, proc: OcrProcessor, input: Path, output: Option<Path>): (r: Result<Path>)
    ensures !NeedsOcr(env.pdfs, input, 3) ==> r == Ok(input)
    ensures NeedsOcr(env.pdfs, input, 3) ==> (var out := OcrOutput(env.systemTemp, input, output);
      var run := RunCommand(env.tools, OcrCommand(proc, input, out), Some(proc.timeout));
      (r.Ok? <==> run.Ok? && out in run.value) &&
      (r.Ok? ==> r.value == out) &&
      (run.Raised? && run.error.kind == FileNotFound ==> r == Raised(DependencyError("ocrmypdf", Some("pip install ocrmypdf")))) &&
      (run.Raised? && run.error.kind != FileNotFound ==> r == Raised(OcrFailure(input, run.error.message))) &&
      (run.Ok? && out !in run.value ==> r == Raised(OcrFailure(input, "OCR produced no output file"))))
    ensures r.Raised? ==> r.error.kind in {Ocr, Dependency}
  {
    if !NeedsOcr(env.pdfs, input, 3) then Ok(input)
    else
      var out := OcrOutput(env.systemTemp, input, output);
      match RunCommand(env.tools, OcrCommand(proc, input, out), Some(proc.timeout))
      case Ok(present) =>
        if out in present then Ok(out)
        else Raised(OcrFailure(input, OcrError("OCR produced no output file", Some(ToString(input)), DefaultOcrEngine).message))
      case Raised(e) =>
        if e.kind == FileNotFound then Raised(DependencyError("ocrmypdf", Some("pip install ocrmypdf")))
        else Raised(OcrFailure(input, e.message))
  }

  /** `get_ocr_info`'s dictionary. */
  datatype OcrInfo = OcrInfo(needsOcr: bool, hasText: bool, pageCount: nat, textPages: nat, imagePages: nat)

  /** The position of the first page whose extraction raises, or the page count when none does. */
  function FirstFailure(pages: seq<PageText>): (n: nat)
    ensures n <= |pages|
    ensures forall j :: 0 <= j < n ==> pages[j].Extracted?
    ensures n < |pages| ==> pages[n].ExtractFails?
  {
    if pages == [] then 0
    else if pages[0].ExtractFails? then 0
    else
      assert forall j :: 1 <= j < |pages| ==> pages[j] == pages[1..][j - 1];
      1 + FirstFailure(pages[1..])
  }

  /**
   * What `get_ocr_info` reports for a file that reads as `reading`: all
   * zeros when it cannot be read; otherwise the page count and the text and
   * image pages counted up to the first page whose extraction raises, where
   * counting stops and the two flags stay false.
   */
  function OcrInfoOf(skipTextPages: bool, reading: Result<Pdf>): OcrInfo
  {
    match reading
    case Raised(_) => OcrInfo(false, false, 0, 0, 0)
    case Ok(pdf) => PagesInfo(skipTextPages, pdf.pages)
  }

  /** What `get_ocr_info` reports about the pages of a file that opens. */
  function PagesInfo(skipTextPages: bool, pages: seq<PageText>): OcrInfo
  {
    var n := FirstFailure(pages);
    var text := CountText(pages[..n]);
    if n < |pages| then OcrInfo(false, false, |pages|, text, n - text)
    else OcrInfo(n - text > 0 && skipTextPages, text > 0, |pages|, text, n - text)
  }

  /**
   * The counts add up to the page count exactly when the file cannot be
   * read or no extraction raises; then the file has text exactly when some
   * page has text, and needs OCR exactly when some page has none and pages
   * with text are skipped.
   */
  lemma {:induction false} OcrInfoFacts(skipTextPages: bool, reading: Result<Pdf>)
    ensures var info := OcrInfoOf(skipTextPages, reading);
      info.textPages + info.imagePages == info.pageCount <==>
        reading.Raised? || forall i :: 0 <= i < |reading.value.pages| ==> !Fails(reading.value.pages[i])
    ensures OcrInfoOf(skipTextPages, reading).hasText ==> OcrInfoOf(skipTextPages, reading).textPages > 0
    ensures OcrInfoOf(skipTextPages, reading).needsOcr ==> OcrInfoOf(skipTextPages, reading).imagePages > 0 && skipTextPages
    ensures var info := OcrInfoOf(skipTextPages, reading);
      reading.Ok? && info.textPages + info.imagePages == info.pageCount ==>
        (info.hasText <==> info.textPages > 0) &&
        (info.needsOcr <==> info.imagePages > 0 && skipTextPages) &&
        (info.hasText <==> exists i :: 0 <= i < info.pageCount && HasText(reading.value.pages[i]))
  {
    if reading.Ok? {
      var pages := reading.value.pages;
      var n := FirstFailure(pages);
      var text := CountText(pages[..n]);
      if n < |pages| {
        assert Fails(pages[n]);
        assert OcrInfoOf(skipTextPages, reading) == OcrInfo(false, false, |pages|, text, n - text);
      } else {
        assert pages[..n] == pages;
        assert OcrInfoOf(skipTextPages, reading) == OcrInfo(n - text > 0 && skipTextPages, text > 0, |pages|, text, n - text);
      }
    } else {
      assert OcrInfoOf(skipTextPages, reading) == OcrInfo(false, false, 0, 0, 0);
    }
  }

  /**
   * `get_ocr_info(pdf_path)`: opens the file and classifies its pages one by
   * one; an extraction error ends the loop and leaves what was counted so far.
   */
  method GetOcrInfo(proc: OcrProcessor, pdfs: PdfStore, path: Path) returns (info: OcrInfo)
    ensures info == OcrInfoOf(proc.skipTextPages, OpenPdf(pdfs, path))
  {
    var reading := OpenPdf(pdfs, path);
    if reading.Raised? {
      return OcrInfo(false, false, 0, 0, 0);
    }
    info := ClassifyPages(proc.skipTextPages, reading.value.pages);
  }

  /** The loop of `get_ocr_info` over the pages of a file that opens. */
  method ClassifyPages(skipTextPages: bool, pages: seq<PageText>) returns (info: OcrInfo)
    ensures info == PagesInfo(skipTextPages, pages)
  {
    ghost var n := FirstFailure(pages);
    var textPages, imagePages := 0, 0;
    var i := 0;
    while i < |pages|
      invariant 0 <= i <= n
      invariant textPages == CountText(pages[..i]) && imagePages == i - textPages
    {
      assert pages[..i + 1][..i] == pages[..i];
      if pages[i].ExtractFails? {
        return OcrInfo(false, false, |pages|, textPages, imagePages);
      }
      if !IsBlank(pages[i].text) {
        textPages := textPages + 1;
      } else {
        imagePages := imagePages + 1;
      }
      i := i + 1;
    }
    info := OcrInfo(imagePages > 0 && skipTextPages, textPages > 0, |pages|, textPages, imagePages);
  }

  /** The batch's test for a PDF: the path's suffix, in any case, is ".pdf". */
  function PdfBySuffix(): DocumentInfo -> bool
  {
    (d: DocumentInfo) => HasPdfSuffix(d)
  }

  /** The batch's first-pass test on a PDF: `needs_ocr` with the default sample of three pages. */
  function NeedsCheck(env: Env): DocumentInfo -> bool
  {
    (d: DocumentInfo) => NeedsOcr(env.pdfs, d.path, 3)
  }

  /** Where the batch asks `process_pdf` to write a document's OCR output. */
  function BatchOutput(outputDir: Option<Path>, d: DocumentInfo): (o: Option<Path>)
    ensures outputDir.None? <==> o.None?
    ensures o.Some? ==> o.value == Child(outputDir.value, "ocr_" + d.name)
  {
    if outputDir.Some? then Some(Child(outputDir.value, "ocr_" + d.name)) else None
  }

  /** One document's OCR job: `process_pdf` on its path with the batch's output path. */
  function OcrJob(env: Env, proc: OcrProcessor, outputDir: Option<Path>): DocumentInfo -> Result<Path>
  {
    (d: DocumentInfo) => ProcessPdf(env, proc, d.path, BatchOutput(outputDir, d))
  }

  /** The PDFs that need OCR. */
  function NeedsWork(isPdf: DocumentInfo -> bool, needs: DocumentInfo -> bool): DocumentInfo -> bool
  {
    (d: DocumentInfo) => isPdf(d) && needs(d)
  }

  /** The PDFs that need no OCR. */
  function SkipsWork(isPdf: DocumentInfo -> bool, needs: DocumentInfo -> bool): DocumentInfo -> bool
  {
    (d: DocumentInfo) => isPdf(d) && !needs(d)
  }

  /** The documents that are not PDFs. */
  function Others(isPdf: DocumentInfo -> bool): DocumentInfo -> bool
  {
    (d: DocumentInfo) => !isPdf(d)
  }

  /** The first pass on one record: a PDF is marked as requiring OCR or not. */
  function Triage(isPdf: DocumentInfo -> bool, needs: DocumentInfo -> bool, d: DocumentInfo): DocumentInfo
  {
    if isPdf(d) then d.(ocrStatus := Some(if needs(d) then Required else NotNeeded)) else d
  }

  /** The records after the first pass. */
  function Triaged(isPdf: DocumentInfo -> bool, needs: DocumentInfo -> bool, docs: seq<DocumentInfo>): (ts: seq<DocumentInfo>)
    ensures |ts| == |docs|
    ensures forall i :: 0 <= i < |docs| ==> ts[i] == Triage(isPdf, needs, docs[i])
  {
    seq(|docs|, i requires 0 <= i < |docs| => Triage(isPdf, needs, docs[i]))
  }

  /** How many of the first `n` records `work` selects. */
  function WorkCount(work: DocumentInfo -> bool, docs: seq<DocumentInfo>, n: nat): (c: nat)
    requires n <= |docs|
    ensures c <= n
  {
    if n == 0 then 0 else WorkCount(work, docs, n - 1) + (if work(docs[n - 1]) then 1 else 0)
  }

  /** None of the first `n` records is selected exactly when the count is zero. */
  lemma {:induction false} NoWork(work: DocumentInfo -> bool, docs: seq<DocumentInfo>, n: nat)
    requires n <= |docs|
    ensures WorkCount(work, docs, n) == 0 <==> forall i :: 0 <= i < n ==> !work(docs[i])
  {
    if n > 0 {
      NoWork(work, docs, n - 1);
    }
  }

  /** The serial branch is taken for at most two documents or a single worker. */
  predicate SerialOcr(needCount: nat, maxWorkers: int)
  {
    needCount <= 2 || maxWorkers == 1
  }

  /** A record marked as failed OCR with the error's message. */
  function MarkFailed(d: DocumentInfo, e: Error): DocumentInfo
  {
    d.(ocrStatus := Some(OcrFailed), errorMessage := Some(e.message))
  }

  /**
   * One record after the OCR pass: a record that needs OCR and was reached
   * before the failure is completed; the failing one is marked failed when
   * its error is an `OCRError` or the batch ran in parallel.
   */
  function MarkOne(work: DocumentInfo -> bool, serial: bool, d: DocumentInfo, j: nat, failure: Option<Failure>): DocumentInfo
  {
    if !work(d) then d
    else if failure.None? || j < failure.value.index then d.(ocrStatus := Some(OcrCompleted))
    else if j == failure.value.index && (!serial || failure.value.error.kind == Ocr) then MarkFailed(d, failure.value.error)
    else d
  }

  /** The records after the OCR pass. */
  function Marked(work: DocumentInfo -> bool, serial: bool, docs: seq<DocumentInfo>, failure: Option<Failure>): (ms: seq<DocumentInfo>)
    ensures |ms| == |docs|
    ensures forall j :: 0 <= j < |docs| ==> ms[j] == MarkOne(work, serial, docs[j], j, failure)
  {
    seq(|docs|, j requires 0 <= j < |docs| => MarkOne(work, serial, docs[j], j, failure))
  }

  /** What the batch raises for a failed record: the error itself when serial, a batch `OCRError` naming the record when parallel. */
  function OcrRaise(serial: bool, d: DocumentInfo, e: Error): Error
  {
    if serial then e else OcrError("Batch OCR failed for " + d.name + ": " + e.message, Some(Key(d)), DefaultOcrEngine)
  }

  /** The last pass on one record: a record that is not a PDF needs no OCR. */
  function FinishOne(isPdf: DocumentInfo -> bool, d: DocumentInfo): DocumentInfo
  {
    if isPdf(d) then d else d.(ocrStatus := Some(NotNeeded))
  }

  /** The records after the last pass. */
  function Finished(isPdf: DocumentInfo -> bool, docs: seq<DocumentInfo>): (fs: seq<DocumentInfo>)
    ensures |fs| == |docs|
    ensures forall i :: 0 <= i < |docs| ==> fs[i] == FinishOne(isPdf, docs[i])
  {
    seq(|docs|, i requires 0 <= i < |docs| => FinishOne(isPdf, docs[i]))
  }

  /**
   * Everything `process_documents` leaves behind, for a test `isPdf` of
   * PDFs, a test `needs` of OCR and the OCR job `job`: the updated records
   * and the mapping or the error. The parallel branch is taken as finishing
   * its jobs in submission order.
   */
  function OcrBatch(isPdf: DocumentInfo -> bool, needs: DocumentInfo -> bool, job: DocumentInfo -> Result<Path>,
                    maxWorkers: int, documents: seq<DocumentInfo>): (seq<DocumentInfo>, Result<map<string, Path>>)
  {
    var triaged := Triaged(isPdf, needs, documents);
    var skipped := AddSelf(SkipsWork(isPdf, needs), documents, |documents|, map[]);
    var needCount := WorkCount(NeedsWork(isPdf, needs), documents, |documents|);
    if needCount == 0 then (triaged, Ok(skipped))
    else
      var serial := SerialOcr(needCount, maxWorkers);
      if !serial && maxWorkers <= 0 then (triaged, Raised(Builtin(ValueErr, "max_workers must be greater than 0")))
      else
        var work := NeedsWork(isPdf, needs);
        var pass := PassFrom(work, job, triaged, 0, skipped);
        var marked := Marked(work, serial, triaged, pass.failure);
        if pass.failure.Some? then
          PassFailure(work, job, triaged, 0, skipped);
          (marked, Raised(OcrRaise(serial, triaged[pass.failure.value.index], pass.failure.value.error)))
        else (Finished(isPdf, marked), Ok(AddSelf(Others(isPdf), marked, |marked|, pass.results)))
  }

  /** The batch's own tests look only at the path. */
  lemma {:induction false} BatchTestsPathOnly(env: Env)
    ensures PathOnly(PdfBySuffix()) && PathOnly(NeedsCheck(env))
  {
  }

  /** The records after a batch that needs OCR for none of them. */
  lemma {:induction false} NoWorkOutcome(isPdf: DocumentInfo -> bool, needs: DocumentInfo -> bool, job: DocumentInfo -> Result<Path>,
                      maxWorkers: int, documents: seq<DocumentInfo>)
    requires forall j :: 0 <= j < |documents| ==> !(isPdf(documents[j]) && needs(documents[j]))
    ensures OcrBatch(isPdf, needs, job, maxWorkers, documents) ==
      (Triaged(isPdf, needs, documents), Ok(AddSelf(SkipsWork(isPdf, needs), documents, |documents|, map[])))
  {
    var work := NeedsWork(isPdf, needs);
    assert forall j :: 0 <= j < |documents| ==> !work(documents[j]);
    NoWork(work, documents, |documents|);
  }

  /**
   * A successful batch changes only the records' OCR status: every PDF ends
   * completed when it needed OCR and not needed otherwise; the documents
   * that are not PDFs are marked not needed when some PDF needed OCR and
   * are left as they were when none did.
   */
  lemma {:induction false} OcrBatchRecords(isPdf: DocumentInfo -> bool, needs: DocumentInfo -> bool, job: DocumentInfo -> Result<Path>,
                        maxWorkers: int, documents: seq<DocumentInfo>)
    requires PathOnly(isPdf) && PathOnly(needs)
    requires OcrBatch(isPdf, needs, job, maxWorkers, documents).1.Ok?
    ensures var docs := OcrBatch(isPdf, needs, job, maxWorkers, documents).0;
      |docs| == |documents| && forall i :: 0 <= i < |documents| ==> docs[i] == documents[i].(ocrStatus := docs[i].ocrStatus)
    ensures var docs := OcrBatch(isPdf, needs, job, maxWorkers, documents).0;
      forall i :: 0 <= i < |documents| && isPdf(documents[i]) ==>
        docs[i].ocrStatus == Some(if needs(documents[i]) then OcrCompleted else NotNeeded)
    ensures var docs := OcrBatch(isPdf, needs, job, maxWorkers, documents).0;
      (exists j :: 0 <= j < |documents| && isPdf(documents[j]) && needs(documents[j])) ==>
        forall i :: 0 <= i < |documents| && !isPdf(documents[i]) ==> docs[i].ocrStatus == Some(NotNeeded)
    ensures var docs := OcrBatch(isPdf, needs, job, maxWorkers, documents).0;
      (forall j :: 0 <= j < |documents| ==> !(isPdf(documents[j]) && needs(documents[j]))) ==>
        forall i :: 0 <= i < |documents| && !isPdf(documents[i]) ==> docs[i] == documents[i]
  {
    var work := NeedsWork(isPdf, needs);
    var docs := OcrBatch(isPdf, needs, job, maxWorkers, documents).0;
    OkBatchRecords(isPdf, needs, job, maxWorkers, documents);
    NoWork(work, documents, |documents|);
    if WorkCount(work, documents, |documents|) == 0 {
      TriagedRecords(isPdf, needs, documents);
    } else {
      var serial := SerialOcr(WorkCount(work, documents, |documents|), maxWorkers);
      assert exists j :: 0 <= j < |documents| && isPdf(documents[j]) && needs(documents[j]) by {
        var j :| 0 <= j < |documents| && work(documents[j]);
      }
      FinishedRecords(isPdf, needs, serial, documents);
    }
  }

  /** The records a successful batch returns: the first pass alone when no PDF needs OCR, else all three. */
  lemma {:induction false} OkBatchRecords(isPdf: DocumentInfo -> bool, needs: DocumentInfo -> bool, job: DocumentInfo -> Result<Path>,
                                          maxWorkers: int, documents: seq<DocumentInfo>)
    requires OcrBatch(isPdf, needs, job, maxWorkers, documents).1.Ok?
    ensures var work := NeedsWork(isPdf, needs);
      var count := WorkCount(work, documents, |documents|);
      OcrBatch(isPdf, needs, job, maxWorkers, documents).0 ==
        if count == 0 then Triaged(isPdf, needs, documents)
        else Finished(isPdf, Marked(work, SerialOcr(count, maxWorkers), Triaged(isPdf, needs, documents), None))
  {
    var work := NeedsWork(isPdf, needs);
    var triaged := Triaged(isPdf, needs, documents);
    var skipped := AddSelf(SkipsWork(isPdf, needs), documents, |documents|, map[]);
    PassFailure(work, job, triaged, 0, skipped);
  }

  /** The records after the first pass when no PDF needs OCR: every PDF is marked not needed, the rest untouched. */
  lemma {:induction false} TriagedRecords(isPdf: DocumentInfo -> bool, needs: DocumentInfo -> bool, documents: seq<DocumentInfo>)
    requires forall j :: 0 <= j < |documents| ==> !NeedsWork(isPdf, needs)(documents[j])
    ensures var ts := Triaged(isPdf, needs, documents);
      |ts| == |documents| &&
      (forall i :: 0 <= i < |documents| ==> ts[i] == documents[i].(ocrStatus := ts[i].ocrStatus)) &&
      (forall i :: 0 <= i < |documents| && isPdf(documents[i]) ==> ts[i].ocrStatus == Some(NotNeeded) && !needs(documents[i])) &&
      (forall i :: 0 <= i < |documents| && !isPdf(documents[i]) ==> ts[i] == documents[i])
  {
  }

  /**
   * The records after the last pass of a batch that ran every job: each PDF
   * completed or not needed by its test, every other document not needed.
   */
  lemma {:induction false} FinishedRecords(isPdf: DocumentInfo -> bool, needs: DocumentInfo -> bool, serial: bool, documents: seq<DocumentInfo>)
    requires PathOnly(isPdf) && PathOnly(needs)
    ensures var fs := Finished(isPdf, Marked(NeedsWork(isPdf, needs), serial, Triaged(isPdf, needs, documents), None));
      |fs| == |documents| &&
      (forall i :: 0 <= i < |documents| ==> fs[i] == documents[i].(ocrStatus := fs[i].ocrStatus)) &&
      (forall i :: 0 <= i < |documents| && isPdf(documents[i]) ==>
        fs[i].ocrStatus == Some(if needs(documents[i]) then OcrCompleted else NotNeeded)) &&
      (forall i :: 0 <= i < |documents| && !isPdf(documents[i]) ==> fs[i].ocrStatus == Some(NotNeeded))
  {
    var work := NeedsWork(isPdf, needs);
    var triaged := Triaged(isPdf, needs, documents);
    var marked := Marked(work, serial, triaged, None);
    var fs := Finished(isPdf, marked);
    forall i | 0 <= i < |documents|
      ensures isPdf(marked[i]) == isPdf(documents[i]) && work(triaged[i]) == (isPdf(documents[i]) && needs(documents[i]))
    {
      assert documents[i].path == triaged[i].path == marked[i].path;
    }
  }

  /**
   * Position by position, the records of the three passes of a batch that
   * needs OCR for some PDF: same paths, and each document selected by
   * exactly the pass its kind calls for.
   */
  lemma {:induction false} OcrPassesSelect(isPdf: DocumentInfo -> bool, needs: DocumentInfo -> bool, serial: bool, documents: seq<DocumentInfo>)
    requires PathOnly(isPdf) && PathOnly(needs)
    ensures var triaged := Triaged(isPdf, needs, documents);
      var marked := Marked(NeedsWork(isPdf, needs), serial, triaged, None);
      SamePaths(documents, triaged) && SamePaths(documents, marked) &&
      forall i :: 0 <= i < |documents| ==>
        SkipsWork(isPdf, needs)(documents[i]) == (isPdf(documents[i]) && !needs(documents[i])) &&
        NeedsWork(isPdf, needs)(triaged[i]) == (isPdf(documents[i]) && needs(documents[i])) &&
        Others(isPdf)(marked[i]) == !isPdf(documents[i]) &&
        (isPdf(documents[i]) && needs(documents[i]) ==> triaged[i] == documents[i].(ocrStatus := Some(Required)))
  {
    var triaged := Triaged(isPdf, needs, documents);
    var marked := Marked(NeedsWork(isPdf, needs), serial, triaged, None);
    forall i | 0 <= i < |documents|
      ensures triaged[i].path == documents[i].path && marked[i].path == documents[i].path
    {
    }
  }

  /** The entries of the mapping when no PDF needs OCR: one per PDF, each mapped to itself. */
  lemma {:induction false} SkipMapFacts(isPdf: DocumentInfo -> bool, needs: DocumentInfo -> bool, documents: seq<DocumentInfo>)
    requires forall j :: 0 <= j < |documents| ==> !(isPdf(documents[j]) && needs(documents[j]))
    ensures var m := AddSelf(SkipsWork(isPdf, needs), documents, |documents|, map[]);
      (forall i :: 0 <= i < |documents| ==> (Key(documents[i]) in m <== isPdf(documents[i]))) &&
      (forall k :: k in m ==> exists i :: 0 <= i < |documents| && isPdf(documents[i]) && Key(documents[i]) == k)
    ensures var m := AddSelf(SkipsWork(isPdf, needs), documents, |documents|, map[]);
      UniqueKeys(documents) ==> forall i :: 0 <= i < |documents| ==>
        (Key(documents[i]) in m <==> isPdf(documents[i])) && (isPdf(documents[i]) ==> m[Key(documents[i])] == documents[i].path)
  {
    var skips := SkipsWork(isPdf, needs);
    AddSelfFacts(skips, documents, |documents|, map[]);
    assert forall i :: 0 <= i < |documents| ==> skips(documents[i]) == isPdf(documents[i]);
  }

  /**
   * The mapping of a successful batch: every PDF has an entry, a document
   * that is not a PDF has one exactly when some PDF needed OCR, and every
   * key is a document's path. When no two documents share a path, a PDF
   * that needed no OCR and a document that is not a PDF map to themselves,
   * and a PDF that needed OCR maps to the output of its job.
   */
  lemma {:induction false} OcrBatchMap(isPdf: DocumentInfo -> bool, needs: DocumentInfo -> bool, job: DocumentInfo -> Result<Path>,
                    maxWorkers: int, documents: seq<DocumentInfo>)
    requires PathOnly(isPdf) && PathOnly(needs)
    requires OcrBatch(isPdf, needs, job, maxWorkers, documents).1.Ok?
    ensures var m := OcrBatch(isPdf, needs, job, maxWorkers, documents).1.value;
      (forall i :: 0 <= i < |documents| && isPdf(documents[i]) ==> Key(documents[i]) in m) &&
      (forall k :: k in m ==> exists i :: 0 <= i < |documents| && Key(documents[i]) == k)
    ensures var m := OcrBatch(isPdf, needs, job, maxWorkers, documents).1.value;
      (exists j :: 0 <= j < |documents| && isPdf(documents[j]) && needs(documents[j])) ==>
        forall i :: 0 <= i < |documents| ==> Key(documents[i]) in m
    ensures var m := OcrBatch(isPdf, needs, job, maxWorkers, documents).1.value;
      UniqueKeys(documents) && (forall j :: 0 <= j < |documents| ==> !(isPdf(documents[j]) && needs(documents[j]))) ==>
        forall i :: 0 <= i < |documents| && !isPdf(documents[i]) ==> Key(documents[i]) !in m
    ensures var m := OcrBatch(isPdf, needs, job, maxWorkers, documents).1.value;
      UniqueKeys(documents) ==> forall i :: 0 <= i < |documents| && Key(documents[i]) in m ==>
        if isPdf(documents[i]) && needs(documents[i]) then job(documents[i].(ocrStatus := Some(Required))) == Ok(m[Key(documents[i])])
        else m[Key(documents[i])] == documents[i].path
  {
    var work := NeedsWork(isPdf, needs);
    var count := WorkCount(work, documents, |documents|);
    NoWork(work, documents, |documents|);
    if count == 0 {
      NoWorkOutcome(isPdf, needs, job, maxWorkers, documents);
    } else {
      OkBatchMapping(isPdf, needs, job, maxWorkers, documents);
    }
    BatchMapping(isPdf, needs, job, SerialOcr(count, maxWorkers), documents, OcrBatch(isPdf, needs, job, maxWorkers, documents).1.value);
  }

  /** The facts of `OcrBatchMap`, about the mapping either branch of a successful batch returns. */
  lemma {:induction false} BatchMapping(isPdf: DocumentInfo -> bool, needs: DocumentInfo -> bool, job: DocumentInfo -> Result<Path>,
                                        serial: bool, documents: seq<DocumentInfo>, m: map<string, Path>)
    requires PathOnly(isPdf) && PathOnly(needs)
    requires var work := NeedsWork(isPdf, needs);
      var triaged := Triaged(isPdf, needs, documents);
      var skipped := AddSelf(SkipsWork(isPdf, needs), documents, |documents|, map[]);
      (WorkCount(work, documents, |documents|) == 0 ==> m == skipped) &&
      (WorkCount(work, documents, |documents|) != 0 ==> (PassFrom(work, job, triaged, 0, skipped).failure.None? &&
        m == ThreePass(SkipsWork(isPdf, needs), work, Others(isPdf), job, documents, triaged, Marked(work, serial, triaged, None))))
    ensures (forall i :: 0 <= i < |documents| && isPdf(documents[i]) ==> Key(documents[i]) in m) &&
      (forall k :: k in m ==> exists i :: 0 <= i < |documents| && Key(documents[i]) == k)
    ensures (exists j :: 0 <= j < |documents| && isPdf(documents[j]) && needs(documents[j])) ==>
        forall i :: 0 <= i < |documents| ==> Key(documents[i]) in m
    ensures UniqueKeys(documents) && (forall j :: 0 <= j < |documents| ==> !(isPdf(documents[j]) && needs(documents[j]))) ==>
        forall i :: 0 <= i < |documents| && !isPdf(documents[i]) ==> Key(documents[i]) !in m
    ensures UniqueKeys(documents) ==> forall i :: 0 <= i < |documents| && Key(documents[i]) in m ==>
        if isPdf(documents[i]) && needs(documents[i]) then job(documents[i].(ocrStatus := Some(Required))) == Ok(m[Key(documents[i])])
        else m[Key(documents[i])] == documents[i].path
  {
    var work := NeedsWork(isPdf, needs);
    NoWork(work, documents, |documents|);
    if WorkCount(work, documents, |documents|) == 0 {
      assert forall j :: 0 <= j < |documents| ==> !(isPdf(documents[j]) && needs(documents[j])) by {
        assert forall j :: 0 <= j < |documents| ==> !work(documents[j]);
      }
      SkipMapFacts(isPdf, needs, documents);
    } else {
      WorkedMapping(isPdf, needs, job, serial, documents);
    }
  }

  /** The mapping of a successful batch that needs OCR for some PDF is that of its three passes. */
  lemma {:induction false} OkBatchMapping(isPdf: DocumentInfo -> bool, needs: DocumentInfo -> bool, job: DocumentInfo -> Result<Path>,
                                          maxWorkers: int, documents: seq<DocumentInfo>)
    requires OcrBatch(isPdf, needs, job, maxWorkers, documents).1.Ok?
    requires WorkCount(NeedsWork(isPdf, needs), documents, |documents|) != 0
    ensures var work := NeedsWork(isPdf, needs);
      var serial := SerialOcr(WorkCount(work, documents, |documents|), maxWorkers);
      var triaged := Triaged(isPdf, needs, documents);
      PassFrom(work, job, triaged, 0, AddSelf(SkipsWork(isPdf, needs), documents, |documents|, map[])).failure.None? &&
      OcrBatch(isPdf, needs, job, maxWorkers, documents).1.value ==
        ThreePass(SkipsWork(isPdf, needs), work, Others(isPdf), job, documents, triaged, Marked(work, serial, triaged, None))
  {
    var work := NeedsWork(isPdf, needs);
    var triaged := Triaged(isPdf, needs, documents);
    var skipped := AddSelf(SkipsWork(isPdf, needs), documents, |documents|, map[]);
    PassFailure(work, job, triaged, 0, skipped);
  }

  /**
   * A batch that needs OCR for some PDF fails exactly when the parallel
   * branch is refused a worker limit below one, or the job fails for some
   * PDF that needs OCR; then the error is the first such PDF's, as it is
   * when serial and wrapped with the document's name when parallel, and the
   * job succeeded for every PDF needing OCR before it.
   */
  lemma {:induction false} OcrBatchRaised(isPdf: DocumentInfo -> bool, needs: DocumentInfo -> bool, job: DocumentInfo -> Result<Path>,
                                          maxWorkers: int, documents: seq<DocumentInfo>)
    requires PathOnly(isPdf) && PathOnly(needs)
    ensures var count := WorkCount(NeedsWork(isPdf, needs), documents, |documents|);
      var r := OcrBatch(isPdf, needs, job, maxWorkers, documents).1;
      (count == 0 ==> r.Ok?) &&
      (count != 0 && !SerialOcr(count, maxWorkers) && maxWorkers <= 0 ==>
        r == Raised(Builtin(ValueErr, "max_workers must be greater than 0"))) &&
      (count != 0 && (SerialOcr(count, maxWorkers) || maxWorkers > 0) ==>
        (r.Raised? <==> exists i :: 0 <= i < |documents| && isPdf(documents[i]) && needs(documents[i]) &&
                                    job(documents[i].(ocrStatus := Some(Required))).Raised?))
    ensures var count := WorkCount(NeedsWork(isPdf, needs), documents, |documents|);
      var serial := SerialOcr(count, maxWorkers);
      var r := OcrBatch(isPdf, needs, job, maxWorkers, documents).1;
      count != 0 && (serial || maxWorkers > 0) && r.Raised? ==>
        exists i :: 0 <= i < |documents| && isPdf(documents[i]) && needs(documents[i]) &&
          job(documents[i].(ocrStatus := Some(Required))).Raised? &&
          (forall j :: 0 <= j < i && isPdf(documents[j]) && needs(documents[j]) ==>
             job(documents[j].(ocrStatus := Some(Required))).Ok?) &&
          r.error == OcrRaise(serial, documents[i].(ocrStatus := Some(Required)), job(documents[i].(ocrStatus := Some(Required))).error)
  {
    var count := WorkCount(NeedsWork(isPdf, needs), documents, |documents|);
    var skipped := AddSelf(SkipsWork(isPdf, needs), documents, |documents|, map[]);
    if count != 0 && (SerialOcr(count, maxWorkers) || maxWorkers > 0) {
      OcrBatchPass(isPdf, needs, job, maxWorkers, documents);
      TriagedFailure(isPdf, needs, job, documents, skipped);
    }
  }

  /** When the OCR pass runs, the batch fails exactly when the pass stops, with the error of the record it stopped at. */
  lemma {:induction false} OcrBatchPass(isPdf: DocumentInfo -> bool, needs: DocumentInfo -> bool, job: DocumentInfo -> Result<Path>,
                                        maxWorkers: int, documents: seq<DocumentInfo>)
    requires var count := WorkCount(NeedsWork(isPdf, needs), documents, |documents|);
      count != 0 && (SerialOcr(count, maxWorkers) || maxWorkers > 0)
    ensures var serial := SerialOcr(WorkCount(NeedsWork(isPdf, needs), documents, |documents|), maxWorkers);
      var triaged := Triaged(isPdf, needs, documents);
      var pass := PassFrom(NeedsWork(isPdf, needs), job, triaged, 0, AddSelf(SkipsWork(isPdf, needs), documents, |documents|, map[]));
      var r := OcrBatch(isPdf, needs, job, maxWorkers, documents).1;
      (r.Raised? <==> pass.failure.Some?) &&
      (pass.failure.Some? ==>
         pass.failure.value.index < |documents| &&
         r.error == OcrRaise(serial, triaged[pass.failure.value.index], pass.failure.value.error))
  {
    var triaged := Triaged(isPdf, needs, documents);
    PassFailure(NeedsWork(isPdf, needs), job, triaged, 0, AddSelf(SkipsWork(isPdf, needs), documents, |documents|, map[]));
  }

  /**
   * The OCR pass over the records after the first pass stops exactly when
   * the job fails for a PDF that needs OCR, and then at the first such PDF.
   */
  lemma {:induction false} TriagedFailure(isPdf: DocumentInfo -> bool, needs: DocumentInfo -> bool, job: DocumentInfo -> Result<Path>,
                                          documents: seq<DocumentInfo>, skipped: map<string, Path>)
    requires PathOnly(isPdf) && PathOnly(needs)
    ensures var pass := PassFrom(NeedsWork(isPdf, needs), job, Triaged(isPdf, needs, documents), 0, skipped);
      pass.failure.Some? <==> exists i :: 0 <= i < |documents| && isPdf(documents[i]) && needs(documents[i]) &&
                                          job(documents[i].(ocrStatus := Some(Required))).Raised?
    ensures var triaged := Triaged(isPdf, needs, documents);
      var pass := PassFrom(NeedsWork(isPdf, needs), job, triaged, 0, skipped);
      pass.failure.Some? ==> (var i := pass.failure.value.index;
        i < |documents| && isPdf(documents[i]) && needs(documents[i]) &&
        triaged[i] == documents[i].(ocrStatus := Some(Required)) &&
        job(triaged[i]) == Raised(pass.failure.value.error) &&
        forall j :: 0 <= j < i && isPdf(documents[j]) && needs(documents[j]) ==>
          job(documents[j].(ocrStatus := Some(Required))).Ok?)
  {
    var triaged := Triaged(isPdf, needs, documents);
    PassFailure(NeedsWork(isPdf, needs), job, triaged, 0, skipped);
    OcrPassesSelect(isPdf, needs, false, documents);
  }

  /** The mapping of the three passes when the OCR pass ran every job and some PDF needed OCR. */
  lemma {:induction false} WorkedMapping(isPdf: DocumentInfo -> bool, needs: DocumentInfo -> bool, job: DocumentInfo -> Result<Path>,
                                         serial: bool, documents: seq<DocumentInfo>)
    requires PathOnly(isPdf) && PathOnly(needs)
    requires PassFrom(NeedsWork(isPdf, needs), job, Triaged(isPdf, needs, documents), 0,
                      AddSelf(SkipsWork(isPdf, needs), documents, |documents|, map[])).failure.None?
    ensures var triaged := Triaged(isPdf, needs, documents);
      var work := NeedsWork(isPdf, needs);
      var m := ThreePass(SkipsWork(isPdf, needs), work, Others(isPdf), job, documents, triaged, Marked(work, serial, triaged, None));
      (forall i :: 0 <= i < |documents| ==> Key(documents[i]) in m) &&
      (forall k :: k in m ==> exists i :: 0 <= i < |documents| && Key(documents[i]) == k) &&
      (UniqueKeys(documents) ==> forall i :: 0 <= i < |documents| ==>
        if isPdf(documents[i]) && needs(documents[i]) then job(documents[i].(ocrStatus := Some(Required))) == Ok(m[Key(documents[i])])
        else m[Key(documents[i])] == documents[i].path)
  {
    var work := NeedsWork(isPdf, needs);
    var triaged := Triaged(isPdf, needs, documents);
    var marked := Marked(work, serial, triaged, None);
    OcrPassesSelect(isPdf, needs, serial, documents);
    ThreePassKeys(SkipsWork(isPdf, needs), work, Others(isPdf), job, documents, triaged, marked);
    if UniqueKeys(documents) {
      ThreePassValues(SkipsWork(isPdf, needs), work, Others(isPdf), job, documents, triaged, marked);
    }
  }

  /** What `process_documents` leaves behind for this processor, environment and output directory. */
  function BatchOcrOutcome(env: Env, proc: OcrProcessor, maxWorkers: int, documents: seq<DocumentInfo>,
                           outputDir: Option<Path>): (seq<DocumentInfo>, Result<map<string, Path>>)
  {
    OcrBatch(PdfBySuffix(), NeedsCheck(env), OcrJob(env, proc, outputDir), maxWorkers, documents)
  }

  /**
   * `BatchOCRProcessor.process_documents(documents, output_dir)`: the first
   * pass marks each PDF as requiring OCR or maps it to itself; when none
   * needs OCR the mapping is returned at once; otherwise each PDF that needs
   * it is processed in order, and finally the other documents map to
   * themselves. The records are returned updated.
   */
  method ProcessDocuments(env: Env, proc: OcrProcessor, maxWorkers: int, documents: seq<DocumentInfo>, outputDir: Option<Path>)
    returns (docs: seq<DocumentInfo>, r: Result<map<string, Path>>)
    ensures (docs, r) == BatchOcrOutcome(env, proc, maxWorkers, documents, outputDir)
  {
    var isPdf, needs := PdfBySuffix(), NeedsCheck(env);
    var results, needCount;
    docs, results, needCount := TriagePass(isPdf, needs, documents);
    if needCount == 0 {
      r := Ok(results);
      return;
    }
    var serial := SerialOcr(needCount, maxWorkers);
    if !serial && maxWorkers <= 0 {
      r := Raised(Builtin(ValueErr, "max_workers must be greater than 0"));
      return;
    }
    docs, r := OcrPass(NeedsWork(isPdf, needs), OcrJob(env, proc, outputDir), serial, docs, results);
    if r.Ok? {
      docs, results := FinishPass(isPdf, docs, r.value);
      r := Ok(results);
    }
  }

  /** The first pass of `process_documents`: each PDF is marked, and those that need no OCR map to themselves. */
  method TriagePass(isPdf: DocumentInfo -> bool, needs: DocumentInfo -> bool, documents: seq<DocumentInfo>)
    returns (docs: seq<DocumentInfo>, results: map<string, Path>, needCount: nat)
    ensures docs == Triaged(isPdf, needs, documents)
    ensures results == AddSelf(SkipsWork(isPdf, needs), documents, |documents|, map[])
    ensures needCount == WorkCount(NeedsWork(isPdf, needs), documents, |documents|)
  {
    docs := documents;
    results := map[];
    needCount := 0;
    var i := 0;
    while i < |docs|
      invariant 0 <= i <= |docs| == |documents|
      invariant forall j :: 0 <= j < i ==> docs[j] == Triage(isPdf, needs, documents[j])
      invariant forall j :: i <= j < |docs| ==> docs[j] == documents[j]
      invariant results == AddSelf(SkipsWork(isPdf, needs), documents, i, map[])
      invariant needCount == WorkCount(NeedsWork(isPdf, needs), documents, i)
    {
      var d := docs[i];
      if isPdf(d) {
        if needs(d) {
          needCount := needCount + 1;
          docs := docs[i := d.(ocrStatus := Some(Required))];
        } else {
          results := results[Key(d) := d.path];
          docs := docs[i := d.(ocrStatus := Some(NotNeeded))];
        }
      }
      i := i + 1;
    }
  }

  /** The OCR pass of `process_documents`, over the records after the first pass. */
  method OcrPass(work: DocumentInfo -> bool, job: DocumentInfo -> Result<Path>, serial: bool, triaged: seq<DocumentInfo>,
                 skipped: map<string, Path>) returns (docs: seq<DocumentInfo>, r: Result<map<string, Path>>)
    ensures var pass := PassFrom(work, job, triaged, 0, skipped);
      docs == Marked(work, serial, triaged, pass.failure) &&
      (pass.failure.None? ==> r == Ok(pass.results)) &&
      (pass.failure.Some? ==> (pass.failure.value.index < |triaged| &&
        r == Raised(OcrRaise(serial, triaged[pass.failure.value.index], pass.failure.value.error))))
  {
    ghost var pass := PassFrom(work, job, triaged, 0, skipped);
    docs := triaged;
    var results := skipped;
    var i := 0;
    while i < |docs|
      invariant 0 <= i <= |docs| == |triaged|
      invariant PassFrom(work, job, triaged, i, results) == pass
      invariant forall j :: 0 <= j < i ==> docs[j] == MarkOne(work, serial, triaged[j], j, None)
      invariant forall j :: i <= j < |docs| ==> docs[j] == triaged[j]
    {
      var d := docs[i];
      if work(d) {
        var processed := job(d);
        if processed.Raised? {
          var e := processed.error;
          assert pass == Pass(results, Some(Failure(i, e)));
          if serial {
            if e.kind == Ocr {
              docs := docs[i := MarkFailed(d, e)];
            }
            r := Raised(e);
          } else {
            docs := docs[i := MarkFailed(d, e)];
            r := Raised(OcrError("Batch OCR failed for " + d.name + ": " + e.message, Some(Key(d)), DefaultOcrEngine));
          }
          assert docs == Marked(work, serial, triaged, pass.failure);
          return;
        }
        results := results[Key(d) := processed.value];
        docs := docs[i := d.(ocrStatus := Some(OcrCompleted))];
      }
      i := i + 1;
    }
    assert docs == Marked(work, serial, triaged, pass.failure);
    r := Ok(results);
  }

  /** The last pass of `process_documents`: every document that is not a PDF maps to itself and needs no OCR. */
  method FinishPass(isPdf: DocumentInfo -> bool, ocred: seq<DocumentInfo>, base: map<string, Path>)
    returns (docs: seq<DocumentInfo>, results: map<string, Path>)
    ensures docs == Finished(isPdf, ocred)
    ensures results == AddSelf(Others(isPdf), ocred, |ocred|, base)
  {
    docs := ocred;
    results := base;
    var i := 0;
    while i < |docs|
      invariant 0 <= i <= |docs| == |ocred|
      invariant forall j :: 0 <= j < i ==> docs[j] == FinishOne(isPdf, ocred[j])
      invariant forall j :: i <= j < |docs| ==> docs[j] == ocred[j]
      invariant results == AddSelf(Others(isPdf), ocred, i, base)
    {
      var d := docs[i];
      if !isPdf(d) {
        results := results[Key(d) := d.path];
        docs := docs[i := d.(ocrStatus := Some(NotNeeded))];
      }
      i := i + 1;
    }
  }
}
