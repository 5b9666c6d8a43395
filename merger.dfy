/**
 * The merge pipeline of `PDFMerger`: validating the inputs and scanning the
 * directory, converting documents to PDF, running OCR over the PDFs,
 * appending them in document order while keeping the result's counters,
 * writing the provenance record, and checking a merged PDF against its
 * source directory.
 */
module Merger {
  import opened Base
  import opened Strings
  import opened Paths
  import opened Collections
  import opened Exceptions
  import opened World
  import opened Models
  import opened Utils
  import opened Validators
  import opened Provenance
  import opened Batch
  import opened Converters
  import opened Ocr

  /** The settings the merger reads from its configuration. */
  datatype MergerConfig = MergerConfig(
    overwrite: bool,
    addMetadata: bool,
    compression: bool,
    ocrEnabled: bool,
    ocrLanguage: string,
    ocrDpi: int,
    skipTextPages: bool,
    ocrTimeout: int,
    extraArgs: seq<string>,
    tempDir: Option<Path>,
    maxWorkers: Workers,
    failFast: bool)

  /** `Config.get_temp_dir()`: the configured directory, else "pdf_combiner" in the system temporary directory. */
  function ConfigTempDir(config: MergerConfig, systemTemp: Path): (dir: Path)
    ensures config.tempDir.Some? ==> dir == config.tempDir.value
    ensures config.tempDir.None? ==> dir == Child(systemTemp, "pdf_combiner")
  {
    if config.tempDir.Some? then config.tempDir.value else Child(systemTemp, "pdf_combiner")
  }

  /** A `PDFMerger`: its configuration and the processors it builds from it. */
  datatype PdfMerger = PdfMerger(config: MergerConfig, batchConverter: BatchConverter, ocr: Option<OcrProcessor>, ocrWorkers: int)

  /**
   * `PDFMerger(config)`: a converter writing to the configured temporary
   * directory with the configured worker limit, and, when OCR is enabled, an
   * OCR processor with the configured settings and at most two workers.
   * Creating the OCR processor fails when one of its tools is missing.
   */
  function NewMerger(env: Env, config: MergerConfig): (r: Result<PdfMerger>)
    ensures r.Raised? <==> config.ocrEnabled && EnsureDependencies(OcrDependencies, env.onPath, env.system).Raised?
    ensures r.Raised? ==> r.error.kind == Dependency
    ensures r.Ok? ==> r.value.config == config
    ensures r.Ok? ==> r.value.batchConverter == BatchConverter(DocumentConverter(Some(ConfigTempDir(config, env.systemTemp))), config.maxWorkers)
    ensures r.Ok? ==> (r.value.ocr.Some? <==> config.ocrEnabled)
    ensures r.Ok? ==> r.value.ocrWorkers == (if config.maxWorkers < 2 then config.maxWorkers else 2)
    ensures r.Ok? && config.ocrEnabled ==> r.value.ocr.value == OcrProcessor(config.ocrLanguage, config.ocrDpi, config.skipTextPages, config.ocrTimeout, config.extraArgs)
  {
    var converter := BatchConverter(DocumentConverter(Some(ConfigTempDir(config, env.systemTemp))), config.maxWorkers);
    var workers := if config.maxWorkers < 2 then config.maxWorkers else 2;
    if !config.ocrEnabled then Ok(PdfMerger(config, converter, None, workers))
    else
      match NewOcrProcessor(env.onPath, env.system, config.ocrLanguage, config.ocrDpi, config.skipTextPages,
                            config.ocrTimeout, Some(config.extraArgs))
      case Raised(e) => Raised(e)
      case Ok(proc) => Ok(PdfMerger(config, converter, Some(proc), workers))
  }

  // ---------------------------------------------------------------------
  // Step 1: conversion

  /** `_convert_documents`' update of one record: processing when it has a PDF, failed otherwise. */
  function AfterConversion(paths: map<string, Path>, d: DocumentInfo): DocumentInfo
  {
    d.(status := if Key(d) in paths then Processing else Failed)
  }

  /** Every record after a successful conversion step. */
  function ConvertedRecords(paths: map<string, Path>, docs: seq<DocumentInfo>): (ds: seq<DocumentInfo>)
    ensures |ds| == |docs|
    ensures forall i :: 0 <= i < |docs| ==> ds[i] == AfterConversion(paths, docs[i])
  {
    seq(|docs|, i requires 0 <= i < |docs| => AfterConversion(paths, docs[i]))
  }

  /** How many of the first `n` records have no PDF in `paths`. */
  function Unconverted(paths: map<string, Path>, docs: seq<DocumentInfo>, n: nat): (c: nat)
    requires n <= |docs|
    ensures c <= n
  {
    if n == 0 then 0 else Unconverted(paths, docs, n - 1) + (if Key(docs[n - 1]) in paths then 0 else 1)
  }

  /** No record counts as unconverted exactly when every record has a PDF. */
  lemma {:induction false} NoneUnconverted(paths: map<string, Path>, docs: seq<DocumentInfo>, n: nat)
    requires n <= |docs|
    ensures Unconverted(paths, docs, n) == 0 <==> forall i :: 0 <= i < n ==> Key(docs[i]) in paths
  {
    if n > 0 {
      NoneUnconverted(paths, docs, n - 1);
    }
  }

  /** How many of the first `n` records carry `status`. */
  function StatusCount(docs: seq<DocumentInfo>, n: nat, status: ProcessingStatus): (c: nat)
    requires n <= |docs|
    ensures c <= n
  {
    if n == 0 then 0 else StatusCount(docs, n - 1, status) + (if docs[n - 1].status == status then 1 else 0)
  }

  /**
   * After a successful conversion step every record with a PDF is
   * processing and every other is failed, so the failure counter grows by
   * exactly the number of failed records.
   */
  lemma {:induction false} ConversionCountsFailed(paths: map<string, Path>, docs: seq<DocumentInfo>, n: nat)
    requires n <= |docs|
    ensures StatusCount(ConvertedRecords(paths, docs), n, Failed) == Unconverted(paths, docs, n)
    ensures StatusCount(ConvertedRecords(paths, docs), n, Processing) == n - Unconverted(paths, docs, n)
  {
    if n > 0 {
      ConversionCountsFailed(paths, docs, n - 1);
    }
  }

  /** A successful batch conversion has a PDF for every record, so the step marks every record processing. */
  lemma {:induction false} ConversionLeavesNoneFailed(job: DocumentInfo -> Result<Path>, maxWorkers: int, docs: seq<DocumentInfo>)
    requires ConvertBatch(job, maxWorkers, docs).Ok?
    ensures Unconverted(ConvertBatch(job, maxWorkers, docs).value, docs, |docs|) == 0
    ensures forall i :: 0 <= i < |docs| ==> ConvertedRecords(ConvertBatch(job, maxWorkers, docs).value, docs)[i].status == Processing
  {
    ConvertBatchOk(job, maxWorkers, docs);
    NoneUnconverted(ConvertBatch(job, maxWorkers, docs).value, docs, |docs|);
  }

  /** The record after a failed conversion step: a pending record is marked failed with the error's message. */
  function FailPending(message: string, d: DocumentInfo): DocumentInfo
  {
    if d.status == Pending then d.(status := Failed, errorMessage := Some(message)) else d
  }

  /** Every record after a failed conversion step. */
  function FailedPendingRecords(message: string, docs: seq<DocumentInfo>): (ds: seq<DocumentInfo>)
    ensures |ds| == |docs|
    ensures forall i :: 0 <= i < |docs| ==> ds[i] == FailPending(message, docs[i])
  {
    seq(|docs|, i requires 0 <= i < |docs| => FailPending(message, docs[i]))
  }

  /**
   * `_convert_documents(documents, temp_dir, result)`: the batch conversion
   * into the temporary directory; then every record is marked processing
   * or failed, counting the failed ones. When the batch raises, every
   * record still pending is marked failed with the error and the error is
   * raised again.
   */
  method ConvertStep(m: PdfMerger, env: Env, tempDir: Path, result: ProcessingResult) returns (r: Result<map<string, Path>>)
    modifies result
    ensures r == ConvertDocumentsOutcome(env, m.batchConverter, old(result.documents), Some(tempDir))
    ensures r.Ok? ==> result.documents == ConvertedRecords(r.value, old(result.documents))
    ensures r.Ok? ==> result.failedDocuments == old(result.failedDocuments) + Unconverted(r.value, old(result.documents), |old(result.documents)|)
    ensures r.Raised? ==> result.documents == FailedPendingRecords(r.error.message, old(result.documents))
    ensures r.Raised? ==> result.failedDocuments == old(result.failedDocuments)
    ensures result.totalDocuments == old(result.totalDocuments) && result.processedDocuments == old(result.processedDocuments)
    ensures result.skippedDocuments == old(result.skippedDocuments) && result.totalPages == old(result.totalPages)
    ensures result.errors == old(result.errors) && result.warnings == old(result.warnings)
  {
    r := ConvertDocuments(env, m.batchConverter, result.documents, Some(tempDir));
    if r.Raised? {
      result.documents := MarkPendingFailed(r.error.message, result.documents);
      return;
    }
    result.documents, result.failedDocuments := MarkConverted(r.value, result.documents, result.failedDocuments);
  }

  /** The loop of `_convert_documents` after a successful batch, counting the records it marks failed. */
  method MarkConverted(paths: map<string, Path>, docs: seq<DocumentInfo>, failed: int)
    returns (updated: seq<DocumentInfo>, failed': int)
    ensures updated == ConvertedRecords(paths, docs)
    ensures failed' == failed + Unconverted(paths, docs, |docs|)
  {
    updated, failed' := docs, failed;
    var i := 0;
    while i < |docs|
      invariant 0 <= i <= |docs| == |updated|
      invariant forall j :: 0 <= j < i ==> updated[j] == AfterConversion(paths, docs[j])
      invariant forall j :: i <= j < |docs| ==> updated[j] == docs[j]
      invariant failed' == failed + Unconverted(paths, docs, i)
    {
      updated := updated[i := AfterConversion(paths, docs[i])];
      if Key(docs[i]) !in paths {
        failed' := failed' + 1;
      }
      i := i + 1;
    }
  }

  /** The handler of `_convert_documents`: every pending record is marked failed with the message. */
  method MarkPendingFailed(message: string, docs: seq<DocumentInfo>) returns (updated: seq<DocumentInfo>)
    ensures updated == FailedPendingRecords(message, docs)
  {
    updated := docs;
    var i := 0;
    while i < |docs|
      invariant 0 <= i <= |docs| == |updated|
      invariant forall j :: 0 <= j < i ==> updated[j] == FailPending(message, docs[j])
      invariant forall j :: i <= j < |docs| ==> updated[j] == docs[j]
    {
      if docs[i].status == Pending {
        updated := updated[i := FailPending(message, docs[i])];
      }
      i := i + 1;
    }
  }

  // ---------------------------------------------------------------------
  // Step 2: OCR

  /**
   * The stand-in record `_ocr_documents` builds for a converted PDF: its
   * path and name, the original record's type, and the size `stat`
   * reports; `stat` on a missing file raises.
   */
  function TempRecord(fs: FileSystem, d: DocumentInfo, pdf: Path, now: int): (r: Result<DocumentInfo>)
    ensures r.Ok? <==> fs.Exists(pdf)
    ensures r.Raised? ==> r.error == Builtin(FileNotFound, NoSuchFile(ToString(pdf)))
    ensures r.Ok? ==> (r.value.path == pdf && r.value.name == pdf.name && r.value.docType == d.docType &&
                       r.value.sizeBytes == fs.nodes[pdf].size && r.value.status == Pending && r.value.ocrStatus.None?)
  {
    if !fs.Exists(pdf) then Raised(Builtin(FileNotFound, NoSuchFile(ToString(pdf))))
    else Ok(NewDocument(pdf, pdf.name, d.docType, fs.nodes[pdf].size, now, now))
  }

  /** The stand-in records for those of the first `n` records that have a PDF, in order, or the first `stat` error. */
  function TempRecords(fs: FileSystem, docs: seq<DocumentInfo>, paths: map<string, Path>, now: int, n: nat): (r: Result<seq<DocumentInfo>>)
    requires n <= |docs|
    ensures r.Ok? ==> |r.value| <= n
  {
    if n == 0 then Ok([])
    else
      match TempRecords(fs, docs, paths, now, n - 1)
      case Raised(e) => Raised(e)
      case Ok(rs) =>
        var d := docs[n - 1];
        if Key(d) !in paths then Ok(rs)
        else
          match TempRecord(fs, d, paths[Key(d)], now)
          case Raised(e) => Raised(e)
          case Ok(t) => Ok(rs + [t])
  }

  /** Building the stand-in records fails exactly when some record's PDF is missing from the file system. */
  lemma {:induction false} TempRecordsFail(fs: FileSystem, docs: seq<DocumentInfo>, paths: map<string, Path>, now: int, n: nat)
    requires n <= |docs|
    ensures TempRecords(fs, docs, paths, now, n).Raised? <==>
      exists i :: 0 <= i < n && Key(docs[i]) in paths && !fs.Exists(paths[Key(docs[i])])
    ensures TempRecords(fs, docs, paths, now, n).Ok? ==> (var rs := TempRecords(fs, docs, paths, now, n).value;
      forall t :: t in rs ==> exists i :: 0 <= i < n && Key(docs[i]) in paths && t.path == paths[Key(docs[i])])
  {
    if n > 0 {
      TempRecordsFail(fs, docs, paths, now, n - 1);
    }
  }

  /** The first `stat` error is the one the stand-in records end with. */
  lemma {:induction false} TempRecordsFailureStays(fs: FileSystem, docs: seq<DocumentInfo>, paths: map<string, Path>, now: int, n: nat, m: nat)
    requires n <= m <= |docs|
    requires TempRecords(fs, docs, paths, now, n).Raised?
    ensures TempRecords(fs, docs, paths, now, m) == TempRecords(fs, docs, paths, now, n)
    decreases m
  {
    if m > n {
      TempRecordsFailureStays(fs, docs, paths, now, n, m - 1);
    }
  }

  /** The mapping after OCR: each entry whose PDF the OCR batch mapped is redirected to the OCR output. */
  function Relinked(paths: map<string, Path>, ocr: map<string, Path>): (r: map<string, Path>)
    ensures r.Keys == paths.Keys
    ensures forall k :: k in paths && ToString(paths[k]) in ocr ==> r[k] == ocr[ToString(paths[k])]
    ensures forall k :: k in paths && ToString(paths[k]) !in ocr ==> r[k] == paths[k]
  {
    map k | k in paths :: RelinkOne(ocr, paths[k])
  }

  /** One entry's target after OCR: the OCR output when the batch mapped its PDF, else the PDF itself. */
  function RelinkOne(ocr: map<string, Path>, p: Path): Path
  {
    if ToString(p) in ocr then ocr[ToString(p)] else p
  }

  /** What the OCR step computes: the redirected mapping, or the error that made it give up. */
  function OcrStepOutcome(proc: OcrProcessor, workers: int, env: Env, docs: seq<DocumentInfo>, paths: map<string, Path>,
                          tempDir: Path, now: int): Result<map<string, Path>>
  {
    match TempRecords(env.fs, docs, paths, now, |docs|)
    case Raised(e) => Raised(e)
    case Ok(rs) =>
      match BatchOcrOutcome(env, proc, workers, rs, Some(tempDir)).1
      case Raised(e) => Raised(e)
      case Ok(ocr) => Ok(Relinked(paths, ocr))
  }

  /** The warning the OCR step records when it gives up. */
  function OcrWarning(e: Error): string
  {
    "OCR processing failed: " + e.message
  }

  /**
   * `_ocr_documents(documents, pdf_paths, temp_dir, result)`: stand-in
   * records for the converted PDFs go through the OCR batch, and the
   * mapping is redirected to its outputs. Whatever raises on the way, the
   * mapping is returned as it was and one warning is recorded.
   */
  method OcrStep(m: PdfMerger, env: Env, pdfPaths: map<string, Path>, tempDir: Path, now: int, result: ProcessingResult)
    returns (updated: map<string, Path>)
    requires m.ocr.Some?
    modifies result
    ensures var o := OcrStepOutcome(m.ocr.value, m.ocrWorkers, env, old(result.documents), pdfPaths, tempDir, now);
      (o.Ok? ==> updated == o.value && result.warnings == old(result.warnings)) &&
      (o.Raised? ==> updated == pdfPaths && result.warnings == old(result.warnings) + [OcrWarning(o.error)])
    ensures updated.Keys == pdfPaths.Keys
    ensures result.documents == old(result.documents) && result.totalDocuments == old(result.totalDocuments)
    ensures result.processedDocuments == old(result.processedDocuments) && result.failedDocuments == old(result.failedDocuments)
    ensures result.skippedDocuments == old(result.skippedDocuments) && result.totalPages == old(result.totalPages)
    ensures result.errors == old(result.errors)
  {
    var pdfDocs := BuildTempRecords(env.fs, result.documents, pdfPaths, now);
    if pdfDocs.Raised? {
      result.warnings := result.warnings + [OcrWarning(pdfDocs.error)];
      return pdfPaths;
    }
    var ocrDocs, ocrResults := ProcessDocuments(env, m.ocr.value, m.ocrWorkers, pdfDocs.value, Some(tempDir));
    if ocrResults.Raised? {
      result.warnings := result.warnings + [OcrWarning(ocrResults.error)];
      return pdfPaths;
    }
    updated := Relink(pdfPaths, ocrResults.value);
  }

  /** The loop of `_ocr_documents` that builds the stand-in records. */
  method BuildTempRecords(fs: FileSystem, docs: seq<DocumentInfo>, pdfPaths: map<string, Path>, now: int)
    returns (r: Result<seq<DocumentInfo>>)
    ensures r == TempRecords(fs, docs, pdfPaths, now, |docs|)
  {
    var pdfDocs: seq<DocumentInfo> := [];
    var i := 0;
    while i < |docs|
      invariant 0 <= i <= |docs|
      invariant TempRecords(fs, docs, pdfPaths, now, i) == Ok(pdfDocs)
    {
      if Key(docs[i]) in pdfPaths {
        var pdfPath := pdfPaths[Key(docs[i])];
        if !fs.Exists(pdfPath) {
          TempRecordsFailureStays(fs, docs, pdfPaths, now, i + 1, |docs|);
          return Raised(Builtin(FileNotFound, NoSuchFile(ToString(pdfPath))));
        }
        pdfDocs := pdfDocs + [NewDocument(pdfPath, pdfPath.name, docs[i].docType, fs.nodes[pdfPath].size, now, now)];
      }
      i := i + 1;
    }
    r := Ok(pdfDocs);
  }

  /** The loop of `_ocr_documents` that redirects the mapping to the OCR outputs. */
  method Relink(pdfPaths: map<string, Path>, ocr: map<string, Path>) returns (updated: map<string, Path>)
    ensures updated == Relinked(pdfPaths, ocr)
  {
    updated := map[];
    var remaining := pdfPaths.Keys;
    while remaining != {}
      invariant remaining <= pdfPaths.Keys
      invariant updated.Keys == pdfPaths.Keys - remaining
      invariant forall k :: k in updated ==> updated[k] == RelinkOne(ocr, pdfPaths[k])
      decreases |remaining|
    {
      var k :| k in remaining;
      updated := updated[k := RelinkOne(ocr, pdfPaths[k])];
      remaining := remaining - {k};
    }
  }

  // ---------------------------------------------------------------------
  // Step 3: merging

  /**
   * What `_merge_pdfs` finds for one record: no PDF in the mapping; a PDF
   * that PyPDF2 appends and reads; one it rejects with `PdfReadError`; or
   * one whose opening raises anything else (a missing file), which no
   * handler in the loop catches.
   */
  datatype Visit = NoPdf | Readable(pdf: Pdf) | Unreadable(error: Error) | Unopenable(error: Error)

  /** The visit of record `d` under the path mapping `paths`. */
  function VisitOf(pdfs: PdfStore, paths: map<string, Path>, d: DocumentInfo): (v: Visit)
    ensures v.NoPdf? <==> Key(d) !in paths
    ensures v.Readable? <==> Key(d) in paths && OpenPdf(pdfs, paths[Key(d)]).Ok?
    ensures v.Readable? ==> OpenPdf(pdfs, paths[Key(d)]) == Ok(v.pdf)
    ensures v.Unreadable? || v.Unopenable? ==> OpenPdf(pdfs, paths[Key(d)]) == Raised(v.error)
    ensures v.Unreadable? ==> v.error.kind == PdfRead
    ensures v.Unopenable? ==> v.error.kind != PdfRead
  {
    if Key(d) !in paths then NoPdf
    else
      match OpenPdf(pdfs, paths[Key(d)])
      case Ok(pdf) => Readable(pdf)
      case Raised(e) => if e.kind == PdfRead then Unreadable(e) else Unopenable(e)
  }

  /** The visit of every record. */
  function Visits(pdfs: PdfStore, paths: map<string, Path>, docs: seq<DocumentInfo>): (vs: seq<Visit>)
    ensures |vs| == |docs|
    ensures forall i :: 0 <= i < |docs| ==> vs[i] == VisitOf(pdfs, paths, docs[i])
  {
    seq(|docs|, i requires 0 <= i < |docs| => VisitOf(pdfs, paths, docs[i]))
  }

  /** The record after its visit: skipped; completed with its page count; or failed with the read error. */
  function Settle(v: Visit, d: DocumentInfo): (s: DocumentInfo)
  {
    match v
    case NoPdf => d.(status := Skipped)
    case Readable(pdf) => d.(pageCount := Some(|pdf.pages|), status := Completed)
    case Unreadable(e) => d.(status := Failed, errorMessage := Some(e.message))
    case Unopenable(_) => d
  }

  /** The records after the loop settled the first `n` of them. */
  function SettledRecords(vs: seq<Visit>, docs: seq<DocumentInfo>, n: nat): (ds: seq<DocumentInfo>)
    requires n <= |vs| == |docs|
    ensures |ds| == |docs|
    ensures forall j :: 0 <= j < n ==> ds[j] == Settle(vs[j], docs[j])
    ensures forall j :: n <= j < |docs| ==> ds[j] == docs[j]
  {
    seq(|docs|, j requires 0 <= j < |docs| => if j < n then Settle(vs[j], docs[j]) else docs[j])
  }

  /** A visit that ends the loop by raising: any error but a read error, and a read error under fail-fast. */
  predicate Stops(failFast: bool, v: Visit)
  {
    v.Unopenable? || (failFast && v.Unreadable?)
  }

  /** The first visit from `i` on that ends the loop, or `|vs|` when none does. */
  function FirstStop(failFast: bool, vs: seq<Visit>, i: nat): (s: nat)
    requires i <= |vs|
    ensures i <= s <= |vs|
    ensures s < |vs| ==> Stops(failFast, vs[s])
    ensures forall j :: i <= j < s ==> !Stops(failFast, vs[j])
    decreases |vs| - i
  {
    if i == |vs| || Stops(failFast, vs[i]) then i else FirstStop(failFast, vs, i + 1)
  }

  /** How many records the loop settles: those before the stop, and the stopping one when it is a read error. */
  function Reached(failFast: bool, vs: seq<Visit>): (n: nat)
    ensures n <= |vs|
  {
    var s := FirstStop(failFast, vs, 0);
    if s < |vs| && vs[s].Unreadable? then s + 1 else s
  }

  /** The pages the first `n` visits append, in order. */
  function MergedPages(vs: seq<Visit>, n: nat): seq<PageText>
    requires n <= |vs|
  {
    if n == 0 then [] else MergedPages(vs, n - 1) + (if vs[n - 1].Readable? then vs[n - 1].pdf.pages else [])
  }

  /** The names `processed_files` collects over the first `n` visits, in document order. */
  function AppendedNames(docs: seq<DocumentInfo>, vs: seq<Visit>, n: nat): (names: seq<string>)
    requires n <= |vs| == |docs|
  {
    if n == 0 then [] else AppendedNames(docs, vs, n - 1) + (if vs[n - 1].Readable? then [docs[n - 1].name] else [])
  }

  /** The names collected are those of the appended documents, in order, and no other. */
  lemma {:induction false} AppendedNamesOrder(docs: seq<DocumentInfo>, vs: seq<Visit>, n: nat)
    requires n <= |vs| == |docs|
    ensures forall x :: x in AppendedNames(docs, vs, n) <==> exists j :: 0 <= j < n && vs[j].Readable? && docs[j].name == x
  {
    if n > 0 {
      AppendedNamesOrder(docs, vs, n - 1);
    }
  }

  /** The information dictionary `_merge_pdfs` writes for the appended files. */
  function MergedMetadata(names: seq<string>, isoNow: string): (meta: map<string, string>)
    ensures meta.Keys == {"/Title", "/Subject", "/Producer", "/Creator", "/CreationDate"}
    ensures meta["/Subject"] == SubjectFor(names)
    ensures meta["/Title"] == "Combined PDF - " + NatToString(|names|) + " documents"
    ensures meta["/Producer"] == meta["/Creator"] == "PDF Combiner Pro"
  {
    map["/Title" := "Combined PDF - " + NatToString(|names|) + " documents",
        "/Subject" := SubjectFor(names),
        "/Producer" := "PDF Combiner Pro",
        "/Creator" := "PDF Combiner Pro",
        "/CreationDate" := isoNow]
  }

  /** The merged document: the appended pages, with the metadata only when it is asked for and something was appended. */
  function OutputPdf(addMetadata: bool, names: seq<string>, pages: seq<PageText>, isoNow: string): (out: Pdf)
    ensures out.pages == pages
    ensures "/Subject" in out.metadata <==> addMetadata && names != []
    ensures "/Subject" in out.metadata ==> out.metadata == MergedMetadata(names, isoNow)
  {
    World.Pdf(pages, if addMetadata && names != [] then MergedMetadata(names, isoNow) else map[])
  }

  /** What `_merge_pdfs` ends with: the error that stopped the loop, or the merged document. */
  function MergeOutcome(failFast: bool, addMetadata: bool, pdfs: PdfStore, paths: map<string, Path>,
                        docs: seq<DocumentInfo>, isoNow: string): Result<Pdf>
  {
    var vs := Visits(pdfs, paths, docs);
    var s := FirstStop(failFast, vs, 0);
    if s < |vs| then Raised(vs[s].error)
    else Ok(OutputPdf(addMetadata, AppendedNames(docs, vs, |vs|), MergedPages(vs, |vs|), isoNow))
  }

  /** The first stopping visit is the one the loop stops at. */
  lemma {:induction false} FirstStopAt(failFast: bool, vs: seq<Visit>, s: nat)
    requires s <= |vs|
    requires forall j :: 0 <= j < s ==> !Stops(failFast, vs[j])
    requires s == |vs| || Stops(failFast, vs[s])
    ensures FirstStop(failFast, vs, 0) == s
  {
  }

  /** The four counters `_merge_pdfs` updates. */
  datatype Counters = Counters(processed: int, failed: int, skipped: int, pages: int)

  /** The counters after one visit: one more skipped, completed (with its pages) or failed record. */
  function Tallied(c: Counters, v: Visit): Counters
  {
    match v
    case NoPdf => c.(skipped := c.skipped + 1)
    case Readable(pdf) => c.(processed := c.processed + 1, pages := c.pages + |pdf.pages|)
    case Unreadable(_) => c.(failed := c.failed + 1)
    case Unopenable(_) => c
  }

  /** The counters after the first `n` visits, from `c`. */
  function Advanced(c: Counters, vs: seq<Visit>, n: nat): Counters
    requires n <= |vs|
  {
    if n == 0 then c else Tallied(Advanced(c, vs, n - 1), vs[n - 1])
  }

  /** `total_pages` grows by the length of the merged document, and `processed_documents` by the number of names collected. */
  lemma {:induction false} AdvancedCounts(c: Counters, docs: seq<DocumentInfo>, vs: seq<Visit>, n: nat)
    requires n <= |vs| == |docs|
    ensures Advanced(c, vs, n).pages == c.pages + |MergedPages(vs, n)|
    ensures Advanced(c, vs, n).processed == c.processed + |AppendedNames(docs, vs, n)|
  {
    if n > 0 {
      AdvancedCounts(c, docs, vs, n - 1);
    }
  }

  /**
   * `_merge_pdfs(pdf_paths, output_path, documents, options, result)`: the
   * records are visited in order. One without a PDF is skipped; one whose
   * PDF is appended is completed with its page count; one whose PDF
   * PyPDF2 rejects is failed, and the loop stops there under fail-fast; any
   * other error stops the loop. The counters grow by what was settled.
   */
  method MergePdfs(failFast: bool, addMetadata: bool, env: Env, pdfPaths: map<string, Path>, isoNow: string,
                   result: ProcessingResult) returns (r: Result<Pdf>)
    modifies result
    ensures var vs := Visits(env.pdfs, pdfPaths, old(result.documents));
      result.documents == SettledRecords(vs, old(result.documents), Reached(failFast, vs))
    ensures Counters(result.processedDocuments, result.failedDocuments, result.skippedDocuments, result.totalPages) ==
      Advanced(Counters(old(result.processedDocuments), old(result.failedDocuments), old(result.skippedDocuments), old(result.totalPages)),
               Visits(env.pdfs, pdfPaths, old(result.documents)), Reached(failFast, Visits(env.pdfs, pdfPaths, old(result.documents))))
    ensures r == MergeOutcome(failFast, addMetadata, env.pdfs, pdfPaths, old(result.documents), isoNow)
    ensures result.totalDocuments == old(result.totalDocuments)
    ensures result.errors == old(result.errors) && result.warnings == old(result.warnings)
  {
    var counters := Counters(result.processedDocuments, result.failedDocuments, result.skippedDocuments, result.totalPages);
    var updated, after, names, merged, stop :=
      MergeVisits(failFast, (d: DocumentInfo) => VisitOf(env.pdfs, pdfPaths, d), result.documents, counters, Visits(env.pdfs, pdfPaths, result.documents));
    assert updated == SettledRecords(Visits(env.pdfs, pdfPaths, result.documents), result.documents,
                                     Reached(failFast, Visits(env.pdfs, pdfPaths, result.documents)));
    Store(result, updated, after);
    if stop.Some? {
      r := Raised(stop.value);
    } else {
      r := Ok(OutputPdf(addMetadata, names, merged, isoNow));
    }
  }

  /** One more visit: the counters, the names and the pages each take one step. */
  lemma {:induction false} VisitStep(c: Counters, docs: seq<DocumentInfo>, vs: seq<Visit>, i: nat)
    requires i < |vs| == |docs|
    ensures Advanced(c, vs, i + 1) == Tallied(Advanced(c, vs, i), vs[i])
    ensures AppendedNames(docs, vs, i + 1) == AppendedNames(docs, vs, i) + (if vs[i].Readable? then [docs[i].name] else [])
    ensures MergedPages(vs, i + 1) == MergedPages(vs, i) + (if vs[i].Readable? then vs[i].pdf.pages else [])
  {
  }

  /**
   * The body of `_merge_pdfs`' loop for a record whose visit does not
   * raise: a record without a PDF is skipped; an appended one is completed
   * with its page count, its pages and name collected; a rejected one is
   * failed with the read error.
   */
  method SettleOne(v: Visit, d: DocumentInfo, counters: Counters, names: seq<string>, merged: seq<PageText>)
    returns (settled: DocumentInfo, after: Counters, names': seq<string>, merged': seq<PageText>)
    requires !v.Unopenable?
    ensures settled == Settle(v, d) && after == Tallied(counters, v)
    ensures names' == names + (if v.Readable? then [d.name] else [])
    ensures merged' == merged + (if v.Readable? then v.pdf.pages else [])
  {
    settled, after, names', merged' := d, counters, names, merged;
    match v {
      case NoPdf =>
        settled := d.(status := Skipped);
        after := counters.(skipped := counters.skipped + 1);
      case Readable(pdf) =>
        names' := names + [d.name];
        merged' := merged + pdf.pages;
        settled := d.(pageCount := Some(|pdf.pages|), status := Completed);
        after := counters.(pages := counters.pages + |pdf.pages|, processed := counters.processed + 1);
      case Unreadable(e) =>
        settled := d.(status := Failed, errorMessage := Some(e.message));
        after := counters.(failed := counters.failed + 1);
    }
  }

  /** Writes the records and the four counters back into the result. */
  method Store(result: ProcessingResult, documents: seq<DocumentInfo>, counters: Counters)
    modifies result
    ensures result.documents == documents
    ensures Counters(result.processedDocuments, result.failedDocuments, result.skippedDocuments, result.totalPages) == counters
    ensures result.totalDocuments == old(result.totalDocuments)
    ensures result.errors == old(result.errors) && result.warnings == old(result.warnings)
  {
    result.documents := documents;
    result.processedDocuments, result.failedDocuments, result.skippedDocuments, result.totalPages :=
      counters.processed, counters.failed, counters.skipped, counters.pages;
  }

  /** The loop of `_merge_pdfs` over the records: the records and counters it leaves, the names and pages it collects, and the error it stops with. */
  method MergeVisits(failFast: bool, visit: DocumentInfo -> Visit, docs: seq<DocumentInfo>, counters: Counters, ghost vs: seq<Visit>)
    returns (updated: seq<DocumentInfo>, after: Counters, names: seq<string>, merged: seq<PageText>, stop: Option<Error>)
    requires |vs| == |docs| && forall j :: 0 <= j < |docs| ==> vs[j] == visit(docs[j])
    ensures var n := Reached(failFast, vs);
      |updated| == |docs| &&
      (forall j :: 0 <= j < n ==> updated[j] == Settle(vs[j], docs[j])) &&
      (forall j :: n <= j < |vs| ==> updated[j] == docs[j]) &&
      after == Advanced(counters, vs, n)
    ensures var s := FirstStop(failFast, vs, 0);
      (stop.Some? <==> s < |vs|) && (stop.Some? ==> stop.value == vs[s].error) &&
      (stop.None? ==> names == AppendedNames(docs, vs, |vs|) && merged == MergedPages(vs, |vs|))
  {
    ghost var s := FirstStop(failFast, vs, 0);
    updated, after, names, merged, stop := docs, counters, [], [], None;
    var i := 0;
    while i < |docs| && stop.None?
      invariant 0 <= i <= |docs| == |updated|
      invariant stop.None? ==> i <= s && forall j :: 0 <= j < i ==> !Stops(failFast, vs[j])
      invariant stop.Some? ==> s < |vs| && stop.value == vs[s].error && i == (if vs[s].Unreadable? then s + 1 else s)
      invariant forall j :: 0 <= j < i ==> updated[j] == Settle(vs[j], docs[j])
      invariant forall j :: i <= j < |docs| ==> updated[j] == docs[j]
      invariant after == Advanced(counters, vs, i)
      invariant names == AppendedNames(docs, vs, i) && merged == MergedPages(vs, i)
      decreases |docs| - i, stop.None?
    {
      var v := visit(docs[i]);
      assert v == vs[i];
      if v.Unopenable? {
        FirstStopAt(failFast, vs, i);
        stop := Some(v.error);
      } else {
        VisitStep(counters, docs, vs, i);
        var settled;
        settled, after, names, merged := SettleOne(v, docs[i], after, names, merged);
        updated := updated[i := settled];
        if failFast && v.Unreadable? {
          FirstStopAt(failFast, vs, i);
          stop := Some(v.error);
        }
        i := i + 1;
      }
    }
    if stop.None? {
      FirstStopAt(failFast, vs, |docs|);
    }
  }

  // ---------------------------------------------------------------------
  // The pipeline

  /** The options `merge_documents` falls back to: the configuration's OCR, output and worker settings, the rest at their defaults. */
  function EffectiveOptions(m: PdfMerger, options: Option<ProcessingOptions>, systemTemp: Path): (o: ProcessingOptions)
    ensures options.Some? ==> o == options.value
    ensures options.None? ==> o.enableOcr == m.config.ocrEnabled && o.addMetadata == m.config.addMetadata &&
                              o.maxWorkers == m.config.maxWorkers && o.tempDir == Some(ConfigTempDir(m.config, systemTemp))
  {
    if options.Some? then options.value
    else ProcessingOptions(m.config.ocrEnabled, m.config.ocrLanguage, DefaultOptions.ocrDpi, DefaultOptions.skipTextPages,
                           m.config.compression, m.config.addMetadata, m.config.maxWorkers, Some(ConfigTempDir(m.config, systemTemp)))
  }

  /**
   * Whether `tempfile.TemporaryDirectory(dir=options.temp_dir)` finds the
   * directory it creates its own in: none was asked for (the system one),
   * the configured one `get_temp_dir` has just created, or one that exists.
   * The default `<system temp>/pdf_combiner` is created by nothing.
   */
  predicate TempParentExists(m: PdfMerger, env: Env, options: Option<ProcessingOptions>)
  {
    var opts := EffectiveOptions(m, options, env.systemTemp);
    opts.tempDir.None? || (options.None? && m.config.tempDir.Some?) || env.fs.IsDir(opts.tempDir.value)
  }

  /** The error `TemporaryDirectory` raises when its parent is missing, naming the directory it tried to make. */
  function TempDirMissing(tempPath: Path): Error
  {
    Builtin(FileNotFound, NoSuchFile(ToString(tempPath)))
  }

  /** Everything a run of the three steps leaves: the records, the counters, the outcome and the warnings. */
  datatype Run = Run(records: seq<DocumentInfo>, counters: Counters, outcome: Result<Pdf>, warnings: seq<string>)

  /** The mapping the merge step reads, and the warnings of the OCR step when it runs. */
  function AfterOcr(m: PdfMerger, env: Env, docs: seq<DocumentInfo>, paths: map<string, Path>, tempPath: Path, now: int, runs: bool)
    : (r: (map<string, Path>, seq<string>))
    ensures r.0.Keys == paths.Keys
    ensures |r.1| <= 1
  {
    if !runs || m.ocr.None? then (paths, [])
    else
      match OcrStepOutcome(m.ocr.value, m.ocrWorkers, env, docs, paths, tempPath, now)
      case Ok(p) => (p, [])
      case Raised(e) => (paths, [OcrWarning(e)])
  }

  /** What the OCR and merge steps leave, once conversion into `paths` has left the records `converted` and the counters `c`. */
  function MergeStage(m: PdfMerger, env: Env, opts: ProcessingOptions, converted: seq<DocumentInfo>, paths: map<string, Path>,
                      c: Counters, tempPath: Path, now: int, isoNow: string): (run: Run)
    ensures |run.records| == |converted|
  {
    var (paths', warnings) := AfterOcr(m, env, converted, paths, tempPath, now, opts.enableOcr);
    var vs := Visits(env.pdfs, paths', converted);
    var n := Reached(m.config.failFast, vs);
    Run(SettledRecords(vs, converted, n), Advanced(c, vs, n),
        MergeOutcome(m.config.failFast, opts.addMetadata, env.pdfs, paths', converted, isoNow), warnings)
  }

  /** The three steps of `merge_documents`, from a fresh result for `documents`. */
  function PipelineRun(m: PdfMerger, env: Env, documents: seq<DocumentInfo>, opts: ProcessingOptions, tempPath: Path,
                       now: int, isoNow: string): (run: Run)
    ensures |run.records| == |documents|
  {
    match ConvertDocumentsOutcome(env, m.batchConverter, documents, Some(tempPath))
    case Raised(e) => Run(FailedPendingRecords(e.message, documents), Counters(0, 0, 0, 0), Raised(e), [])
    case Ok(paths) =>
      MergeStage(m, env, opts, ConvertedRecords(paths, documents), paths,
                 Counters(0, Unconverted(paths, documents, |documents|), 0, 0), tempPath, now, isoNow)
  }

  /** `result` holds what `run` leaves, with the error recorded when the run raised. */
  predicate Holds(result: ProcessingResult, run: Run, isoNow: string)
    reads result
  {
    result.documents == run.records && result.warnings == run.warnings &&
    Counters(result.processedDocuments, result.failedDocuments, result.skippedDocuments, result.totalPages) == run.counters &&
    result.errors == (if run.outcome.Ok? then [] else [ErrorRecord("merge_error", run.outcome.error.message, isoNow)])
  }

  /** What `merge_documents` returns or raises at the end of `run`. */
  function Finished(run: Run): (r: Result<Pdf>)
    ensures r.Ok? <==> run.outcome.Ok?
    ensures r.Ok? ==> r == run.outcome
    ensures r.Raised? ==> r.error.kind == Merge && r.error.message == "Failed to merge documents: " + run.outcome.error.message
    ensures r.Raised? && FailedNames(run.records) != [] ==>
      "failed_files" in r.error.details && r.error.details["failed_files"] == Files(FailedNames(run.records))
  {
    if run.outcome.Ok? then run.outcome else Raised(PipelineFailure(run.outcome.error, run.records))
  }

  /** The error `merge_documents` raises when a step raises `e`. */
  function PipelineFailure(e: Error, records: seq<DocumentInfo>): Error
  {
    MergeError("Failed to merge documents: " + e.message, Some(FailedNames(records)))
  }

  /**
   * What `merge_documents` returns or raises: the empty-list error; the
   * `FileNotFoundError` of a temporary directory whose parent is missing,
   * raised outside the `try`; otherwise the run, any failure of which is a
   * merge error.
   */
  function MergeDocumentsOutcome(m: PdfMerger, env: Env, documents: seq<DocumentInfo>, options: Option<ProcessingOptions>,
                                 tempPath: Path, now: int, isoNow: string): (r: Result<Pdf>)
    ensures documents == [] ==> r == Raised(ValidationError("No documents provided", None, None))
    ensures documents != [] && !TempParentExists(m, env, options) ==> r == Raised(TempDirMissing(tempPath))
    ensures r.Raised? && documents != [] && TempParentExists(m, env, options) ==> r.error.kind == Merge
  {
    if documents == [] then Raised(ValidationError("No documents provided", None, None))
    else if !TempParentExists(m, env, options) then Raised(TempDirMissing(tempPath))
    else
      Finished(PipelineRun(m, env, documents, EffectiveOptions(m, options, env.systemTemp), tempPath, now, isoNow))
  }

  /** How many of the first `n` records completed, in order, by name. */
  function CompletedNames(ds: seq<DocumentInfo>, n: nat): (names: seq<string>)
    requires n <= |ds|
    ensures |names| == StatusCount(ds, n, Completed)
  {
    if n == 0 then [] else CompletedNames(ds, n - 1) + (if ds[n - 1].status == Completed then [ds[n - 1].name] else [])
  }

  /** The page counts of the first `n` records that completed, summed. */
  function PageTotal(ds: seq<DocumentInfo>, n: nat): int
    requires n <= |ds|
  {
    if n == 0 then 0
    else PageTotal(ds, n - 1) + (if ds[n - 1].status == Completed && ds[n - 1].pageCount.Some? then ds[n - 1].pageCount.value else 0)
  }

  /**
   * Over records that were all processing before the loop, the counters
   * the loop keeps agree with the statuses it leaves: completed, failed and
   * skipped records are counted, the page counts of the completed ones
   * summed, and their names collected in order.
   */
  lemma {:induction false} MergeTallies(c: Counters, vs: seq<Visit>, docs: seq<DocumentInfo>, n: nat, k: nat)
    requires k <= n <= |vs| == |docs|
    requires forall j :: 0 <= j < n ==> docs[j].status == Processing && !vs[j].Unopenable?
    ensures var ds := SettledRecords(vs, docs, n);
      Advanced(c, vs, k) == Counters(c.processed + StatusCount(ds, k, Completed), c.failed + StatusCount(ds, k, Failed),
                                     c.skipped + StatusCount(ds, k, Skipped), c.pages + PageTotal(ds, k)) &&
      AppendedNames(docs, vs, k) == CompletedNames(ds, k)
  {
    if k > 0 {
      MergeTallies(c, vs, docs, n, k - 1);
    }
  }

  /** Over records that are each completed or failed, the two counts add up to all of them. */
  lemma {:induction false} CompletedOrFailed(ds: seq<DocumentInfo>, n: nat)
    requires n <= |ds|
    requires forall j :: 0 <= j < n ==> ds[j].status in {Completed, Failed}
    ensures StatusCount(ds, n, Completed) + StatusCount(ds, n, Failed) == n
    ensures StatusCount(ds, n, Skipped) == 0
  {
    if n > 0 {
      CompletedOrFailed(ds, n - 1);
    }
  }

  /** Counting a status front to back, as `get_failed_files` does, or back to front gives the same number. */
  lemma {:induction false} CountStatusSnoc(a: seq<DocumentInfo>, x: DocumentInfo, status: ProcessingStatus)
    ensures CountStatus(a + [x], status) == CountStatus(a, status) + (if x.status == status then 1 else 0)
  {
    if a != [] {
      assert (a + [x])[1..] == a[1..] + [x];
      CountStatusSnoc(a[1..], x, status);
    }
  }

  /** The loop's running count over the first `n` records is the count of that prefix. */
  lemma {:induction false} CountStatusPrefix(ds: seq<DocumentInfo>, n: nat, status: ProcessingStatus)
    requires n <= |ds|
    ensures StatusCount(ds, n, status) == CountStatus(ds[..n], status)
  {
    if n > 0 {
      CountStatusPrefix(ds, n - 1, status);
      assert ds[..n] == ds[..n - 1] + [ds[n - 1]];
      CountStatusSnoc(ds[..n - 1], ds[n - 1], status);
    }
  }

  /**
   * When the merge step succeeds over records that were all processing and
   * all have a PDF, every record is completed or failed, none skipped; the
   * counters grow by the numbers of completed and failed records, which add
   * up to all of them; the pages counter grows by the length of the merged
   * document; and the provenance is written exactly when asked for and
   * something was appended, naming the completed records in order.
   */
  lemma {:induction false} MergeSucceeds(failFast: bool, addMetadata: bool, pdfs: PdfStore, paths: map<string, Path>, docs: seq<DocumentInfo>,
                      isoNow: string, c: Counters)
    requires MergeOutcome(failFast, addMetadata, pdfs, paths, docs, isoNow).Ok?
    requires forall j :: 0 <= j < |docs| ==> docs[j].status == Processing && Key(docs[j]) in paths
    ensures var vs := Visits(pdfs, paths, docs);
      var ds := SettledRecords(vs, docs, Reached(failFast, vs));
      var after := Advanced(c, vs, Reached(failFast, vs));
      var out := MergeOutcome(failFast, addMetadata, pdfs, paths, docs, isoNow).value;
      (forall j :: 0 <= j < |docs| ==> ds[j].status in {Completed, Failed}) &&
      after.skipped == c.skipped &&
      after.processed - c.processed + after.failed - c.failed == |docs| &&
      after.processed == c.processed + CountStatus(ds, Completed) &&
      after.failed == c.failed + CountStatus(ds, Failed) &&
      after.pages == c.pages + |out.pages| == c.pages + PageTotal(ds, |docs|) &&
      |CompletedNames(ds, |docs|)| == after.processed - c.processed &&
      ("/Subject" in out.metadata <==> addMetadata && after.processed > c.processed) &&
      ("/Subject" in out.metadata ==> out.metadata["/Subject"] == SubjectFor(CompletedNames(ds, |docs|)))
  {
    var vs := Visits(pdfs, paths, docs);
    var s := FirstStop(failFast, vs, 0);
    assert s == |vs|;
    var n := Reached(failFast, vs);
    assert n == |vs|;
    forall j | 0 <= j < |vs| ensures !vs[j].Unopenable? && !vs[j].NoPdf? {
      assert !Stops(failFast, vs[j]);
    }
    var ds := SettledRecords(vs, docs, n);
    MergeTallies(c, vs, docs, n, n);
    assert forall j :: 0 <= j < n ==> ds[j].status in {Completed, Failed};
    CompletedOrFailed(ds, n);
    CountStatusPrefix(ds, n, Completed);
    CountStatusPrefix(ds, n, Failed);
    assert ds[..n] == ds;
    AdvancedCounts(c, docs, vs, n);
  }

  /**
   * What a successful run over `n` documents leaves: every record completed
   * or failed, none skipped; the processed and failed counters are the
   * numbers of completed and failed records and add up to all documents, so
   * that `get_failed_files` lists exactly the failed ones; `total_pages` is
   * the length of the merged document; and the provenance is written
   * exactly when asked for and something was appended, naming the completed
   * records in document order.
   */
  predicate Succeeded(run: Run, n: nat, addMetadata: bool)
  {
    run.outcome.Ok? && |run.records| == n &&
    (forall j :: 0 <= j < n ==> run.records[j].status in {Completed, Failed}) &&
    run.counters.skipped == 0 &&
    run.counters.processed + run.counters.failed == n &&
    run.counters.processed == CountStatus(run.records, Completed) &&
    run.counters.failed == CountStatus(run.records, Failed) &&
    run.counters.pages == |run.outcome.value.pages| &&
    |CompletedNames(run.records, n)| == run.counters.processed &&
    ("/Subject" in run.outcome.value.metadata <==> addMetadata && run.counters.processed > 0) &&
    ("/Subject" in run.outcome.value.metadata ==>
       run.outcome.value.metadata["/Subject"] == SubjectFor(CompletedNames(run.records, n)))
  }

  /** Every run of `merge_documents` that does not raise leaves what `Succeeded` describes. */
  lemma {:induction false} PipelineSucceeds(m: PdfMerger, env: Env, documents: seq<DocumentInfo>, opts: ProcessingOptions, tempPath: Path,
                         now: int, isoNow: string)
    requires PipelineRun(m, env, documents, opts, tempPath, now, isoNow).outcome.Ok?
    ensures Succeeded(PipelineRun(m, env, documents, opts, tempPath, now, isoNow), |documents|, opts.addMetadata)
  {
    var paths := ConvertDocumentsOutcome(env, m.batchConverter, documents, Some(tempPath)).value;
    ConversionLeavesNoneFailed(ConverterJob(env, m.batchConverter.converter, Some(tempPath)),
                               m.batchConverter.maxWorkers, documents);
    StageSucceeds(m, env, opts, ConvertedRecords(paths, documents), paths, tempPath, now, isoNow);
  }

  /** `MergeSucceeds` after the OCR step, which leaves every record with a PDF. */
  lemma {:induction false} StageSucceeds(m: PdfMerger, env: Env, opts: ProcessingOptions, converted: seq<DocumentInfo>, paths: map<string, Path>,
                      tempPath: Path, now: int, isoNow: string)
    requires MergeStage(m, env, opts, converted, paths, Counters(0, 0, 0, 0), tempPath, now, isoNow).outcome.Ok?
    requires forall j :: 0 <= j < |converted| ==> converted[j].status == Processing && Key(converted[j]) in paths
    ensures Succeeded(MergeStage(m, env, opts, converted, paths, Counters(0, 0, 0, 0), tempPath, now, isoNow), |converted|, opts.addMetadata)
  {
    var after := AfterOcr(m, env, converted, paths, tempPath, now, opts.enableOcr);
    var vs := Visits(env.pdfs, after.0, converted);
    var n := Reached(m.config.failFast, vs);
    var out := MergeOutcome(m.config.failFast, opts.addMetadata, env.pdfs, after.0, converted, isoNow);
    assert MergeStage(m, env, opts, converted, paths, Counters(0, 0, 0, 0), tempPath, now, isoNow) ==
      Run(SettledRecords(vs, converted, n), Advanced(Counters(0, 0, 0, 0), vs, n), out, after.1);
    assert forall j :: 0 <= j < |converted| ==> Key(converted[j]) in after.0.Keys;
    MergeSucceedsFresh(m.config.failFast, opts.addMetadata, env.pdfs, after.0, converted, isoNow, after.1);
  }

  /** `MergeSucceeds` from fresh counters, as the run it leaves. */
  lemma {:induction false} MergeSucceedsFresh(failFast: bool, addMetadata: bool, pdfs: PdfStore, paths: map<string, Path>,
                                              docs: seq<DocumentInfo>, isoNow: string, warnings: seq<string>)
    requires MergeOutcome(failFast, addMetadata, pdfs, paths, docs, isoNow).Ok?
    requires forall j :: 0 <= j < |docs| ==> docs[j].status == Processing && Key(docs[j]) in paths
    ensures var vs := Visits(pdfs, paths, docs);
      var n := Reached(failFast, vs);
      Succeeded(Run(SettledRecords(vs, docs, n), Advanced(Counters(0, 0, 0, 0), vs, n),
                    MergeOutcome(failFast, addMetadata, pdfs, paths, docs, isoNow), warnings), |docs|, addMetadata)
  {
    MergeSucceeds(failFast, addMetadata, pdfs, paths, docs, isoNow, Counters(0, 0, 0, 0));
  }

  /**
   * On a system where nothing has made `<system temp>/pdf_combiner`, a merge
   * with the default options and no configured temporary directory raises
   * `FileNotFoundError` before its first step.
   */
  lemma {:induction false} DefaultTempDirMissing(m: PdfMerger, env: Env, documents: seq<DocumentInfo>, tempPath: Path,
                                                 now: int, isoNow: string)
    requires documents != [] && m.config.tempDir.None?
    requires !env.fs.IsDir(Child(env.systemTemp, "pdf_combiner"))
    ensures MergeDocumentsOutcome(m, env, documents, None, tempPath, now, isoNow) == Raised(TempDirMissing(tempPath))
  {
    assert EffectiveOptions(m, None, env.systemTemp).tempDir == Some(Child(env.systemTemp, "pdf_combiner"));
  }

  /**
   * `merge_documents`: from a fresh result for `documents`, the three steps;
   * a step that raises is recorded as a `merge_error` and re-raised as a
   * merge error naming the failed files. `tempPath` is the temporary
   * directory the run works in, made inside `options.temp_dir`; when that
   * parent is missing nothing runs and no result is returned.
   */
  method MergeDocuments(m: PdfMerger, env: Env, documents: seq<DocumentInfo>, outputPath: Path,
                        options: Option<ProcessingOptions>, tempPath: Path, now: int, isoNow: string)
    returns (result: ProcessingResult?, r: Result<Pdf>)
    ensures r == MergeDocumentsOutcome(m, env, documents, options, tempPath, now, isoNow)
    ensures result == null <==> documents == [] || !TempParentExists(m, env, options)
    ensures result != null ==> fresh(result) && result.outputPath == outputPath && result.totalDocuments == |documents|
    ensures result != null ==>
      Holds(result, PipelineRun(m, env, documents, EffectiveOptions(m, options, env.systemTemp), tempPath, now, isoNow), isoNow)
  {
    if documents == [] {
      return null, Raised(ValidationError("No documents provided", None, None));
    }
    if !TempParentExists(m, env, options) {
      return null, Raised(TempDirMissing(tempPath));
    }
    var opts := EffectiveOptions(m, options, env.systemTemp);
    result := new ProcessingResult(outputPath, |documents|, 0, 0, 0, 0, documents);
    r := RunSteps(m, env, opts, tempPath, now, isoNow, result);
  }

  /** The `try` block of `merge_documents` over a fresh result, and its `except` branch. */
  method RunSteps(m: PdfMerger, env: Env, opts: ProcessingOptions, tempPath: Path, now: int, isoNow: string,
                  result: ProcessingResult) returns (r: Result<Pdf>)
    requires result.processedDocuments == result.failedDocuments == result.skippedDocuments == result.totalPages == 0
    requires result.errors == [] && result.warnings == []
    modifies result
    ensures Holds(result, PipelineRun(m, env, old(result.documents), opts, tempPath, now, isoNow), isoNow)
    ensures r == Finished(PipelineRun(m, env, old(result.documents), opts, tempPath, now, isoNow))
    ensures result.totalDocuments == old(result.totalDocuments)
  {
    var converted := ConvertStep(m, env, tempPath, result);
    if converted.Raised? {
      r := RecordFailure(result, converted.error, isoNow);
      return;
    }
    r := OcrAndMerge(m, env, opts, converted.value, tempPath, now, isoNow, result);
  }

  /** Steps 2 and 3 of `merge_documents`, and its `except` branch when the merge raises. */
  method OcrAndMerge(m: PdfMerger, env: Env, opts: ProcessingOptions, pdfPaths: map<string, Path>, tempPath: Path,
                     now: int, isoNow: string, result: ProcessingResult) returns (r: Result<Pdf>)
    requires result.errors == [] && result.warnings == []
    modifies result
    ensures var run := MergeStage(m, env, opts, old(result.documents), pdfPaths,
                                  Counters(old(result.processedDocuments), old(result.failedDocuments),
                                           old(result.skippedDocuments), old(result.totalPages)), tempPath, now, isoNow);
      Holds(result, run, isoNow) && r == Finished(run)
    ensures result.totalDocuments == old(result.totalDocuments)
  {
    var paths := OcrIfEnabled(m, env, opts.enableOcr, pdfPaths, tempPath, now, result);
    r := MergePdfs(m.config.failFast, opts.addMetadata, env, paths, isoNow, result);
    if r.Raised? {
      r := RecordFailure(result, r.error, isoNow);
    }
  }

  /** Step 2 of `merge_documents`, taken when OCR is enabled and the merger has an OCR processor. */
  method OcrIfEnabled(m: PdfMerger, env: Env, enabled: bool, pdfPaths: map<string, Path>, tempPath: Path, now: int,
                      result: ProcessingResult) returns (paths: map<string, Path>)
    modifies result
    ensures var after := AfterOcr(m, env, old(result.documents), pdfPaths, tempPath, now, enabled);
      paths == after.0 && result.warnings == old(result.warnings) + after.1
    ensures result.documents == old(result.documents) && result.totalDocuments == old(result.totalDocuments)
    ensures result.processedDocuments == old(result.processedDocuments) && result.failedDocuments == old(result.failedDocuments)
    ensures result.skippedDocuments == old(result.skippedDocuments) && result.totalPages == old(result.totalPages)
    ensures result.errors == old(result.errors)
  {
    paths := pdfPaths;
    if enabled && m.ocr.Some? {
      paths := OcrStep(m, env, paths, tempPath, now, result);
    }
  }

  /** The `except` branch of `merge_documents`: the error is recorded and a merge error naming the failed files is raised. */
  method RecordFailure(result: ProcessingResult, e: Error, isoNow: string) returns (r: Result<Pdf>)
    modifies result
    ensures r == Raised(PipelineFailure(e, result.documents))
    ensures result.errors == old(result.errors) + [ErrorRecord("merge_error", e.message, isoNow)]
    ensures result.documents == old(result.documents) && result.warnings == old(result.warnings)
    ensures result.totalDocuments == old(result.totalDocuments) && result.processedDocuments == old(result.processedDocuments)
    ensures result.failedDocuments == old(result.failedDocuments) && result.skippedDocuments == old(result.skippedDocuments)
    ensures result.totalPages == old(result.totalPages)
  {
    result.errors := result.errors + [ErrorRecord("merge_error", e.message, isoNow)];
    var failed := result.GetFailedFiles();
    r := Raised(MergeError("Failed to merge documents: " + e.message, Some(failed)));
  }

  // ---------------------------------------------------------------------
  // merge_directory

  /**
   * The `get_file_info` loop of `merge_directory` over the first `n` scanned
   * paths, with `info` building one record: the records in scan order; a
   * path whose record cannot be built is left out, or, under fail-fast, its
   * error is re-raised.
   */
  function FileInfos(info: Path -> Result<DocumentInfo>, ps: seq<Path>, failFast: bool, n: nat): (r: Result<seq<DocumentInfo>>)
    requires n <= |ps|
    ensures !failFast ==> r.Ok?
    ensures r.Ok? ==> |r.value| <= n
    ensures failFast ==> (r.Ok? <==> forall i :: 0 <= i < n ==> info(ps[i]).Ok?)
  {
    if n == 0 then Ok([])
    else
      match FileInfos(info, ps, failFast, n - 1)
      case Raised(e) => Raised(e)
      case Ok(docs) =>
        match info(ps[n - 1])
        case Ok(d) => Ok(docs + [d])
        case Raised(e) => if failFast then Raised(e) else Ok(docs)
  }

  /**
   * Without fail-fast the loop keeps exactly the records that could be
   * built; with it, a successful loop keeps every one in scan order, and a
   * failing one raises the error of the first path that fails.
   */
  lemma {:induction false} FileInfosKeep(info: Path -> Result<DocumentInfo>, ps: seq<Path>, failFast: bool, n: nat)
    requires n <= |ps|
    ensures var r := FileInfos(info, ps, failFast, n);
      !failFast ==> forall d :: d in r.value <==> exists i :: 0 <= i < n && info(ps[i]) == Ok(d)
    ensures var r := FileInfos(info, ps, failFast, n);
      failFast && r.Ok? ==> |r.value| == n && forall i :: 0 <= i < n ==> info(ps[i]) == Ok(r.value[i])
    ensures var r := FileInfos(info, ps, failFast, n);
      failFast && r.Raised? ==> exists i :: 0 <= i < n && info(ps[i]) == Raised(r.error) &&
                                           forall k :: 0 <= k < i ==> info(ps[k]).Ok?
  {
    if n > 0 {
      FileInfosKeep(info, ps, failFast, n - 1);
      var prev := FileInfos(info, ps, failFast, n - 1);
      if failFast && prev.Raised? {
        var i :| 0 <= i < n - 1 && info(ps[i]) == Raised(prev.error) && forall k :: 0 <= k < i ==> info(ps[k]).Ok?;
        assert info(ps[i]) == Raised(FileInfos(info, ps, failFast, n).error);
      } else if failFast && info(ps[n - 1]).Raised? {
        assert forall k :: 0 <= k < n - 1 ==> info(ps[k]).Ok?;
      }
    }
  }

  /** Once the loop has raised, it raises the same error however many paths follow. */
  lemma {:induction false} FileInfosRaisedStays(info: Path -> Result<DocumentInfo>, ps: seq<Path>, failFast: bool, n: nat, k: nat)
    requires n <= k <= |ps|
    requires FileInfos(info, ps, failFast, n).Raised?
    ensures FileInfos(info, ps, failFast, k) == FileInfos(info, ps, failFast, n)
    decreases k
  {
    if k > n {
      FileInfosRaisedStays(info, ps, failFast, n, k - 1);
    }
  }

  /** The loop itself; `merge_directory` builds each record with `get_file_info`. */
  method CollectFileInfos(info: Path -> Result<DocumentInfo>, ps: seq<Path>, failFast: bool) returns (r: Result<seq<DocumentInfo>>)
    ensures r == FileInfos(info, ps, failFast, |ps|)
  {
    var documents: seq<DocumentInfo> := [];
    for i := 0 to |ps|
      invariant FileInfos(info, ps, failFast, i) == Ok(documents)
    {
      var built := info(ps[i]);
      if built.Ok? {
        documents := documents + [built.value];
      } else if failFast {
        FileInfosRaisedStays(info, ps, failFast, i + 1, |ps|);
        return Raised(built.error);
      }
    }
    return Ok(documents);
  }

  /**
   * What `merge_directory` returns or raises: the directory is validated,
   * then the output path, before anything is scanned; an empty scan raises
   * a `ValidationError` and no merge step runs.
   */
  function DirectoryOutcome(m: PdfMerger, env: Env, directory: Path, outputPath: Path, recursive: bool,
                            options: Option<ProcessingOptions>, tempPath: Path, now: int, isoNow: string): (r: Result<Pdf>)
    ensures ValidateDirectory(env.fs, directory).Raised? ==> r == Raised(ValidateDirectory(env.fs, directory).error)
    ensures ValidateDirectory(env.fs, directory).Ok? && ValidateOutputPath(env.fs, outputPath, m.config.overwrite).Raised? ==>
      r == Raised(ValidateOutputPath(env.fs, outputPath, m.config.overwrite).error)
    ensures ValidateDirectory(env.fs, directory).Ok? && ValidateOutputPath(env.fs, outputPath, m.config.overwrite).Ok? &&
            IterDocuments(env.fs, directory, recursive) == Ok([]) ==>
      r == Raised(ValidationError("No supported documents found in " + ToString(directory), None, None))
  {
    match ValidateDirectory(env.fs, directory)
    case Raised(e) => Raised(e)
    case Ok(_) =>
      match ValidateOutputPath(env.fs, outputPath, m.config.overwrite)
      case Raised(e) => Raised(e)
      case Ok(_) =>
        match IterDocuments(env.fs, directory, recursive)
        case Raised(e) => Raised(e)
        case Ok(ps) =>
          if ps == [] then Raised(ValidationError("No supported documents found in " + ToString(directory), None, None))
          else
            match FileInfos(p => GetFileInfo(env.fs, p), ps, m.config.failFast, |ps|)
            case Raised(e) => Raised(e)
            case Ok(documents) => MergeDocumentsOutcome(m, env, documents, options, tempPath, now, isoNow)
  }

  /** A directory that passes validation is always scanned without error. */
  lemma {:induction false} ValidatedDirectoryScans(fs: FileSystem, directory: Path, recursive: bool)
    requires ValidateDirectory(fs, directory).Ok?
    ensures IterDocuments(fs, directory, recursive).Ok?
  {
  }

  /**
   * `merge_directory`: the outcome `DirectoryOutcome` describes and, once
   * the scan has produced records, the result `merge_documents` leaves for
   * them.
   */
  method MergeDirectory(m: PdfMerger, env: Env, directory: Path, outputPath: Path, recursive: bool,
                        options: Option<ProcessingOptions>, tempPath: Path, now: int, isoNow: string)
    returns (result: ProcessingResult?, r: Result<Pdf>)
    ensures r == DirectoryOutcome(m, env, directory, outputPath, recursive, options, tempPath, now, isoNow)
    ensures r.Ok? ==> result != null
    ensures result != null ==> fresh(result) && result.outputPath == outputPath
    ensures result != null ==>
      IterDocuments(env.fs, directory, recursive).Ok? &&
      var ps := IterDocuments(env.fs, directory, recursive).value;
      var documents := FileInfos(p => GetFileInfo(env.fs, p), ps, m.config.failFast, |ps|);
      documents.Ok? && documents.value != [] && TempParentExists(m, env, options) &&
      result.totalDocuments == |documents.value| &&
      Holds(result, PipelineRun(m, env, documents.value, EffectiveOptions(m, options, env.systemTemp), tempPath, now, isoNow), isoNow)
  {
    result := null;
    var valid := ValidateDirectory(env.fs, directory);
    if valid.Raised? {
      return null, Raised(valid.error);
    }
    var writable := ValidateOutputPath(env.fs, outputPath, m.config.overwrite);
    if writable.Raised? {
      return null, Raised(writable.error);
    }
    ValidatedDirectoryScans(env.fs, directory, recursive);
    var scan := IterDocuments(env.fs, directory, recursive);
    if scan.value == [] {
      return null, Raised(ValidationError("No supported documents found in " + ToString(directory), None, None));
    }
    var documents := CollectFileInfos(p => GetFileInfo(env.fs, p), scan.value, m.config.failFast);
    if documents.Raised? {
      return null, Raised(documents.error);
    }
    result, r := MergeDocuments(m, env, documents.value, outputPath, options, tempPath, now, isoNow);
  }

  // ---------------------------------------------------------------------
  // verify_merged_pdf

  /** The names the merged document records: `/Subject` parsed, when it is present and carries the sentinel. */
  function RecordedNames(metadata: map<string, string>): (found: seq<string>)
    ensures found != [] <==> "/Subject" in metadata && Contains(metadata["/Subject"], Marker)
  {
    if "/Subject" in metadata && Contains(metadata["/Subject"], Marker) then ParseNames(metadata["/Subject"]) else []
  }

  /**
   * `verify_merged_pdf`: the names of the documents directly in
   * `sourceDir` against the names the merged PDF records. Missing and
   * extra names are the two sorted set differences, and the merge is valid
   * exactly when both are empty, that is when the two name sets agree; a
   * PDF that cannot be read records nothing and has no pages.
   */
  function VerifyMergedPdf(fs: FileSystem, pdfs: PdfStore, pdfPath: Path, sourceDir: Path): (r: Result<VerificationResult>)
    ensures r.Raised? <==> !fs.IsDir(sourceDir)
    ensures r.Ok? ==> var v := r.value;
      v.pdfPath == pdfPath && v.sourceDir == sourceDir &&
      v.expectedFiles == NamesOf(IterDocuments(fs, sourceDir, false).value) &&
      Elements(v.missingFiles) == Elements(v.expectedFiles) - Elements(v.foundFiles) &&
      Elements(v.extraFiles) == Elements(v.foundFiles) - Elements(v.expectedFiles) &&
      StrictlyAscending(v.missingFiles) && StrictlyAscending(v.extraFiles) &&
      (v.isValid <==> Elements(v.expectedFiles) == Elements(v.foundFiles))
    ensures r.Ok? && OpenPdf(pdfs, pdfPath).Raised? ==> r.value.foundFiles == [] && r.value.pageCount == 0
    ensures r.Ok? && OpenPdf(pdfs, pdfPath).Ok? ==>
      r.value.foundFiles == RecordedNames(OpenPdf(pdfs, pdfPath).value.metadata) &&
      r.value.pageCount == |OpenPdf(pdfs, pdfPath).value.pages|
  {
    match IterDocuments(fs, sourceDir, false)
    case Raised(e) => Raised(e)
    case Ok(ps) =>
      var expected := NamesOf(ps);
      var reading := OpenPdf(pdfs, pdfPath);
      var found := if reading.Ok? then RecordedNames(reading.value.metadata) else [];
      var pageCount := if reading.Ok? then |reading.value.pages| else 0;
      var missing := SortedDifference(expected, found);
      var extra := SortedDifference(found, expected);
      Ok(VerificationResult(pdfPath, sourceDir, expected, found, missing, extra, pageCount, missing == [] && extra == []))
  }

  /** A document whose `/Subject` records clean names reads back with exactly those names and its page count. */
  lemma {:induction false} VerifyRecorded(fs: FileSystem, pdfs: PdfStore, pdfPath: Path, sourceDir: Path, out: Pdf, names: seq<string>)
    requires fs.IsDir(sourceDir)
    requires pdfPath in pdfs && pdfs[pdfPath] == Parsed(out)
    requires "/Subject" in out.metadata && out.metadata["/Subject"] == SubjectFor(names)
    requires names != [] && AllRecoverable(names)
    ensures var r := VerifyMergedPdf(fs, pdfs, pdfPath, sourceDir);
      r.Ok? && r.value.foundFiles == names && r.value.pageCount == |out.pages| &&
      (r.value.isValid <==> Elements(r.value.expectedFiles) == Elements(names))
  {
    SubjectCarriesMarker(names);
    ParseNamesRoundTrip(names);
  }

  /**
   * The merge-then-verify round trip: a document written with provenance
   * for clean names reads back with exactly those names and its page count,
   * and verifies exactly when the source directory holds the same names.
   */
  lemma {:induction false} VerifyReadsBack(fs: FileSystem, pdfs: PdfStore, pdfPath: Path, sourceDir: Path,
                        names: seq<string>, pages: seq<PageText>, isoNow: string)
    requires fs.IsDir(sourceDir)
    requires pdfPath in pdfs && pdfs[pdfPath] == Parsed(OutputPdf(true, names, pages, isoNow))
    requires names != [] && AllRecoverable(names)
    ensures var r := VerifyMergedPdf(fs, pdfs, pdfPath, sourceDir);
      r.Ok? && r.value.foundFiles == names && r.value.pageCount == |pages| &&
      (r.value.isValid <==> Elements(r.value.expectedFiles) == Elements(names))
  {
    VerifyRecorded(fs, pdfs, pdfPath, sourceDir, OutputPdf(true, names, pages, isoNow), names);
  }

  /**
   * Reading back the output of `run` finds exactly its completed documents,
   * in order, and the pages it counted; it verifies exactly when the
   * completed names are the names in the source directory.
   */
  predicate RunVerifies(run: Run, n: nat, fs: FileSystem, pdfs: PdfStore, pdfPath: Path, sourceDir: Path)
    requires |run.records| == n
  {
    var r := VerifyMergedPdf(fs, pdfs, pdfPath, sourceDir);
    var names := CompletedNames(run.records, n);
    r.Ok? && r.value.foundFiles == names && r.value.pageCount == run.counters.pages &&
    (r.value.isValid <==> Elements(r.value.expectedFiles) == Elements(names))
  }

  /**
   * The merge-then-verify round trip: together with `PipelineSucceeds`, a
   * successful `merge_documents` whose output, written with provenance for
   * clean names, is read back verifies as `RunVerifies` says.
   */
  lemma {:induction false} SucceededVerifies(run: Run, n: nat, fs: FileSystem, pdfs: PdfStore, pdfPath: Path, sourceDir: Path)
    requires Succeeded(run, n, true) && run.counters.processed > 0 && AllRecoverable(CompletedNames(run.records, n))
    requires fs.IsDir(sourceDir)
    requires pdfPath in pdfs && pdfs[pdfPath] == Parsed(run.outcome.value)
    ensures RunVerifies(run, n, fs, pdfs, pdfPath, sourceDir)
  {
    VerifyRecorded(fs, pdfs, pdfPath, sourceDir, run.outcome.value, CompletedNames(run.records, n));
  }
}
