/**
 * The package's data model: document types and statuses, the per-document
 * record, the processing options, the result a merge run fills in, and the
 * result of verifying a merged PDF.
 */
module Models {
  import opened Base
  import opened Strings
  import opened Paths
  import opened Exceptions
  import opened Collections

  datatype DocumentType = Pdf | Doc | Docx

  datatype ProcessingStatus = Pending | Processing | Completed | Failed | Skipped

  datatype OcrStatus = NotNeeded | Required | OcrCompleted | OcrFailed | OcrSkipped

  /** `path.suffix.lower().lstrip('.')`: the lower-cased extension without its dot. */
  function Extension(p: Path): (e: string)
    ensures '.' !in e
    ensures e == "" <==> Suffix(p.name) == ""
    ensures e != "" ==> Lower(Suffix(p.name)) == "." + e
  {
    LoweredSuffixShape(p.name);
    TrimLeft(Lower(Suffix(p.name)), {'.'})
  }

  /** A lower-cased suffix is empty, or one dot followed by dot-free text, which `lstrip('.')` exposes. */
  lemma {:induction false} LoweredSuffixShape(name: string)
    ensures var lowered := Lower(Suffix(name)); var e := TrimLeft(lowered, {'.'});
      '.' !in e && (e == "" <==> lowered == "") && (e != "" ==> lowered == "." + e)
  {
    var suffix := Suffix(name);
    StemThenSuffix(name);
    var lowered := Lower(suffix);
    assert lowered == "" || (|lowered| >= 2 && lowered[0] == '.' && '.' !in lowered[1..]) by {
      assert forall i :: 0 <= i < |suffix| ==> (lowered[i] == '.' <==> suffix[i] == '.');
      if suffix != "" {
        forall k | 0 <= k < |lowered| - 1 ensures lowered[1..][k] != '.' {
          assert lowered[1..][k] == lowered[k + 1] && suffix[1..][k] == suffix[k + 1];
        }
      }
    }
    DotSuffixTrim(lowered);
  }

  /** `lstrip('.')` on a dot followed by text without a dot: exactly that text. */
  lemma {:induction false} DotSuffixTrim(s: string)
    requires s == "" || (|s| >= 2 && s[0] == '.' && '.' !in s[1..])
    ensures var e := TrimLeft(s, {'.'});
      '.' !in e && (e == "" <==> s == "") && (e != "" ==> s == "." + e)
  {
    if s != "" {
      var e := TrimLeft(s, {'.'});
      var rest := s[1..];
      assert rest[0] == s[1] && rest[0] !in {'.'};
      assert TrimLeft(rest, {'.'}) == rest;
      assert e == rest;
      assert s == [s[0]] + rest;
    }
  }

  /**
   * The record kept for each document. Timestamps are seconds; the optional
   * fields are `None` until a processing step fills them in.
   */
  datatype DocumentInfo = DocumentInfo(
    path: Path,
    name: string,
    docType: DocumentType,
    sizeBytes: int,
    createdAt: int,
    modifiedAt: int,
    status: ProcessingStatus,
    ocrStatus: Option<OcrStatus>,
    pageCount: Option<int>,
    hasText: Option<bool>,
    errorMessage: Option<string>)

  /** A fresh record: pending, with every optional field unset. */
  function NewDocument(path: Path, name: string, docType: DocumentType, sizeBytes: int, createdAt: int, modifiedAt: int): (d: DocumentInfo)
    ensures d.path == path && d.name == name && d.docType == docType && d.sizeBytes == sizeBytes
    ensures d.status == Pending
    ensures d.ocrStatus.None? && d.pageCount.None? && d.hasText.None? && d.errorMessage.None?
  {
    DocumentInfo(path, name, docType, sizeBytes, createdAt, modifiedAt, Pending, None, None, None, None)
  }

  /** `str(doc.path)`: the key under which the combiner's path mappings record a document. */
  function Key(d: DocumentInfo): string
  {
    ToString(d.path)
  }

  /** No two records share a key, as when every document is listed once. */
  predicate UniqueKeys(docs: seq<DocumentInfo>)
  {
    forall i, j :: 0 <= i < j < |docs| ==> Key(docs[i]) != Key(docs[j])
  }

  /** The record's path has the suffix ".pdf" in any case. */
  predicate HasPdfSuffix(d: DocumentInfo)
  {
    Lower(Suffix(d.path.name)) == ".pdf"
  }

  /** `ProcessingOptions.max_workers` is validated to be at least one. */
  type Workers = n: int | n >= 1 witness 1

  datatype ProcessingOptions = ProcessingOptions(
    enableOcr: bool,
    ocrLanguage: string,
    ocrDpi: int,
    skipTextPages: bool,
    compression: bool,
    addMetadata: bool,
    maxWorkers: Workers,
    tempDir: Option<Path>)

  /** `ProcessingOptions()` with every field at its default. */
  const DefaultOptions := ProcessingOptions(true, "eng", 300, true, true, true, 4, None)

  /** One entry of `ProcessingResult.errors`: its "type", "message" and "timestamp". */
  datatype ErrorRecord = ErrorRecord(kind: string, message: string, timestamp: string)

  /** The names of the documents marked failed, in document order. */
  function FailedNames(docs: seq<DocumentInfo>): seq<string>
  {
    if docs == [] then []
    else (if docs[0].status == Failed then [docs[0].name] else []) + FailedNames(docs[1..])
  }

  /** How many documents carry `status`. */
  function CountStatus(docs: seq<DocumentInfo>, status: ProcessingStatus): nat
  {
    if docs == [] then 0 else (if docs[0].status == status then 1 else 0) + CountStatus(docs[1..], status)
  }

  /** Whether a document is marked failed. */
  predicate IsFailed(d: DocumentInfo)
  {
    d.status == Failed
  }

  /** The names of `docs`, one per document, in order. */
  function DocumentNames(docs: seq<DocumentInfo>): (names: seq<string>)
    ensures |names| == |docs| && forall k :: 0 <= k < |docs| ==> names[k] == docs[k].name
  {
    seq(|docs|, k requires 0 <= k < |docs| => docs[k].name)
  }

  /** The failed names are the names of the failed documents, in document order. */
  lemma {:induction false} FailedNamesAreFilter(docs: seq<DocumentInfo>)
    ensures FailedNames(docs) == DocumentNames(Filter(docs, IsFailed))
  {
    if docs != [] {
      var head := if IsFailed(docs[0]) then [docs[0]] else [];
      var rest := Filter(docs[1..], IsFailed);
      assert Filter(docs, IsFailed) == head + rest;
      assert DocumentNames(head) == (if docs[0].status == Failed then [docs[0].name] else []);
      FailedNamesAreFilter(docs[1..]);
      DocumentNamesAppend(head, rest);
    }
  }

  /** The names of two lists one after the other are the names of their concatenation. */
  lemma {:induction false} DocumentNamesAppend(a: seq<DocumentInfo>, b: seq<DocumentInfo>)
    ensures DocumentNames(a + b) == DocumentNames(a) + DocumentNames(b)
  {
  }

  /** The FAILED names come in document order, one per FAILED document, and name exactly those documents. */
  lemma {:induction false} FailedNamesSpec(docs: seq<DocumentInfo>)
    ensures FailedNames(docs) == DocumentNames(Filter(docs, IsFailed))
    ensures |FailedNames(docs)| == CountStatus(docs, Failed)
    ensures forall n :: n in FailedNames(docs) <==>
      exists i :: 0 <= i < |docs| && docs[i].status == Failed && docs[i].name == n
  {
    if docs != [] {
      FailedNamesSpec(docs[1..]);
      forall n | n in FailedNames(docs[1..])
        ensures exists i :: 0 <= i < |docs| && docs[i].status == Failed && docs[i].name == n
      {
        var i :| 0 <= i < |docs[1..]| && docs[1..][i].status == Failed && docs[1..][i].name == n;
        assert docs[i + 1] == docs[1..][i];
      }
      forall n | exists i :: 0 <= i < |docs| && docs[i].status == Failed && docs[i].name == n
        ensures n in FailedNames(docs)
      {
        var i :| 0 <= i < |docs| && docs[i].status == Failed && docs[i].name == n;
        if i > 0 {
          assert docs[1..][i - 1] == docs[i];
        }
      }
    }
    FailedNamesAreFilter(docs);
  }

  /**
   * What a merge run reports. The counters and lists are updated in place by
   * the merger as each step finishes.
   */
  class ProcessingResult {
    const outputPath: Path
    var totalDocuments: int
    var processedDocuments: int
    var failedDocuments: int
    var skippedDocuments: int
    var totalPages: int
    var documents: seq<DocumentInfo>
    var errors: seq<ErrorRecord>
    var warnings: seq<string>

    constructor (outputPath: Path, totalDocuments: int, processedDocuments: int, failedDocuments: int,
                 skippedDocuments: int, totalPages: int, documents: seq<DocumentInfo>)
      ensures this.outputPath == outputPath && this.totalDocuments == totalDocuments
      ensures this.processedDocuments == processedDocuments && this.failedDocuments == failedDocuments
      ensures this.skippedDocuments == skippedDocuments && this.totalPages == totalPages
      ensures this.documents == documents && errors == [] && warnings == []
    {
      this.outputPath := outputPath;
      this.totalDocuments := totalDocuments;
      this.processedDocuments := processedDocuments;
      this.failedDocuments := failedDocuments;
      this.skippedDocuments := skippedDocuments;
      this.totalPages := totalPages;
      this.documents := documents;
      errors := [];
      warnings := [];
    }

    /** `success_rate`: processed documents as a percentage of all documents. */
    function SuccessRate(): (r: real)
      reads this
      ensures totalDocuments == 0 ==> r == 0.0
      ensures 0 <= processedDocuments <= totalDocuments ==> 0.0 <= r <= 100.0
      ensures totalDocuments > 0 ==> (r == 100.0 <==> processedDocuments == totalDocuments)
    {
      if totalDocuments == 0 then 0.0 else Percent(processedDocuments, totalDocuments)
    }

    /** `has_errors`. */
    predicate HasErrors()
      reads this
    {
      failedDocuments > 0 || |errors| > 0
    }

    /** `get_failed_files()`: the names of the documents marked failed, in document order. */
    function GetFailedFiles(): (names: seq<string>)
      reads this
      ensures names == DocumentNames(Filter(documents, IsFailed))
      ensures |names| == CountStatus(documents, Failed)
      ensures forall n :: n in names <==>
        exists i :: 0 <= i < |documents| && documents[i].status == Failed && documents[i].name == n
    {
      FailedNamesSpec(documents);
      FailedNames(documents)
    }
  }

  /** `(part / whole) * 100` for a non-zero whole. */
  function Percent(part: int, whole: int): (r: real)
    requires whole != 0
    ensures 0 <= part <= whole ==> 0.0 <= r <= 100.0
    ensures r == 100.0 <==> part == whole
  {
    PercentFacts(part, whole);
    (part as real / whole as real) * 100.0
  }

  lemma {:induction false} PercentFacts(part: int, whole: int)
    requires whole != 0
    ensures var r := (part as real / whole as real) * 100.0;
      (0 <= part <= whole ==> 0.0 <= r <= 100.0) && (r == 100.0 <==> part == whole)
  {
    var q := part as real / whole as real;
    assert q * whole as real == part as real;
    if 0 <= part <= whole {
      assert 0 < whole;
      assert 0.0 <= q <= 1.0;
    }
    if q * 100.0 == 100.0 {
      assert q == 1.0;
    }
  }

  /** How many distinct expected names were found, against how many names were expected. */
  lemma {:induction false} CommonCountFacts(expected: seq<string>, found: seq<string>)
    ensures var c := |Elements(expected) * Elements(found)|;
      c <= |expected| &&
      (c == |expected| ==> forall f :: f in expected ==> f in found) &&
      (NoDuplicates(expected) && (forall f :: f in expected ==> f in found) ==> c == |expected|)
  {
    var common := Elements(expected) * Elements(found);
    ElementsBound(expected);
    SubsetSize(common, Elements(expected));
    if |common| == |expected| {
      assert forall f :: f in expected ==> f in Elements(expected);
    }
    if NoDuplicates(expected) && (forall f :: f in expected ==> f in found) {
      assert common == Elements(expected);
    }
  }

  /** The result of checking a merged PDF against its source directory. */
  datatype VerificationResult = VerificationResult(
    pdfPath: Path,
    sourceDir: Path,
    expectedFiles: seq<string>,
    foundFiles: seq<string>,
    missingFiles: seq<string>,
    extraFiles: seq<string>,
    pageCount: int,
    isValid: bool)
  {
    /**
     * `match_percentage`: the share of expected names that were found. It is
     * 100 only when every expected name was found, and (for a list without
     * repeats) whenever they all were.
     */
    function MatchPercentage(): (r: real)
      ensures expectedFiles == [] ==> r == 100.0
      ensures 0.0 <= r <= 100.0
      ensures r == 100.0 ==> forall f :: f in expectedFiles ==> f in foundFiles
      ensures NoDuplicates(expectedFiles) && (forall f :: f in expectedFiles ==> f in foundFiles) ==> r == 100.0
    {
      if expectedFiles == [] then 100.0
      else
        CommonCountFacts(expectedFiles, foundFiles);
        Percent(|Elements(expectedFiles) * Elements(foundFiles)|, |expectedFiles|)
    }
  }
}
