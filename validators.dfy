/**
 * Input validation: the checks run on the directory to scan, the output
 * path, each document, a list of documents, an OCR language string and a
 * configuration file. Every rejection is a `ValidationError` whose details
 * name the checked field and the path as given.
 */
module Validators {
  import opened Base
  import opened Strings
  import opened Collections
  import opened Paths
  import opened Exceptions
  import opened World
  import opened Models
  import opened Utils
  import opened Pages

  /** The `ValidationError` a check raises for field `field` about `path`. */
  function Rejection(message: string, field: string, path: Path): (e: Error)
    requires field != ""
    ensures e.kind == Validation && e.message == message
    ensures "field" in e.details && e.details["field"] == Text(field)
  {
    ValidationError(message, Some(field), Some(ToString(path)))
  }

  /**
   * `validate_directory`: a missing path, a path that is not a directory and
   * a directory that cannot be listed are rejected, in that order.
   */
  function ValidateDirectory(fs: FileSystem, directory: Path): (r: Result<()>)
    ensures r.Ok? <==> fs.IsDir(directory) && fs.nodes[directory].readable
    ensures r.Raised? ==> r.error.kind == Validation && "field" in r.error.details && r.error.details["field"] == Text("directory")
    ensures !fs.Exists(directory) ==>
      r == Raised(Rejection("Directory does not exist: " + ToString(directory), "directory", directory))
    ensures fs.Exists(directory) && !fs.IsDir(directory) ==>
      r == Raised(Rejection("Path is not a directory: " + ToString(directory), "directory", directory))
    ensures fs.IsDir(directory) && !fs.nodes[directory].readable ==>
      r == Raised(Rejection("No read permission for directory: " + ToString(directory), "directory", directory))
  {
    if !fs.Exists(directory) then
      Raised(Rejection("Directory does not exist: " + ToString(directory), "directory", directory))
    else if !fs.IsDir(directory) then
      Raised(Rejection("Path is not a directory: " + ToString(directory), "directory", directory))
    else if !fs.nodes[directory].readable then
      Raised(Rejection("No read permission for directory: " + ToString(directory), "directory", directory))
    else Ok(())
  }

  /** The temporary file `validate_output_path` creates and removes can be written: the parent is a writable directory. */
  predicate CanWriteIn(fs: FileSystem, directory: Path)
  {
    fs.IsDir(directory) && fs.nodes[directory].writable
  }

  /**
   * `validate_output_path`: the parent must exist, an existing file needs
   * `overwrite`, the parent must be writable, and the suffix must be ".pdf"
   * in any case; the first failing check is the one reported.
   */
  function ValidateOutputPath(fs: FileSystem, path: Path, overwrite: bool): (r: Result<()>)
    ensures r.Ok? <==> fs.Exists(Parent(path)) && (overwrite || !fs.Exists(path)) &&
                       CanWriteIn(fs, Parent(path)) && Lower(Suffix(path.name)) == ".pdf"
    ensures r.Raised? ==> r.error.kind == Validation && "field" in r.error.details && r.error.details["field"] == Text("output_path")
    ensures !fs.Exists(Parent(path)) ==>
      r == Raised(Rejection("Output directory does not exist: " + ToString(Parent(path)), "output_path", path))
    ensures fs.Exists(Parent(path)) && fs.Exists(path) && !overwrite ==>
      r == Raised(Rejection("Output file already exists: " + ToString(path) + ". Use --overwrite to replace.",
                            "output_path", path))
    ensures fs.Exists(Parent(path)) && (overwrite || !fs.Exists(path)) && !CanWriteIn(fs, Parent(path)) ==>
      r == Raised(Rejection("No write permission for directory: " + ToString(Parent(path)), "output_path", path))
    ensures fs.Exists(Parent(path)) && (overwrite || !fs.Exists(path)) && CanWriteIn(fs, Parent(path)) &&
            Lower(Suffix(path.name)) != ".pdf" ==>
      r == Raised(Rejection("Output file must have .pdf extension, got: " + Suffix(path.name), "output_path", path))
  {
    var parent := Parent(path);
    if !fs.Exists(parent) then
      Raised(Rejection("Output directory does not exist: " + ToString(parent), "output_path", path))
    else if fs.Exists(path) && !overwrite then
      Raised(Rejection("Output file already exists: " + ToString(path) + ". Use --overwrite to replace.",
                       "output_path", path))
    else if !CanWriteIn(fs, parent) then
      Raised(Rejection("No write permission for directory: " + ToString(parent), "output_path", path))
    else if Lower(Suffix(path.name)) != ".pdf" then
      Raised(Rejection("Output file must have .pdf extension, got: " + Suffix(path.name), "output_path", path))
    else Ok(())
  }

  /** The supported suffixes as the rejection message lists them. */
  const SupportedListing: seq<string> := [".pdf", ".doc", ".docx"]

  function UnsupportedMessage(path: Path): string
  {
    "Unsupported file type: " + Suffix(path.name) + ". Supported types: " + Join(", ", SupportedListing)
  }

  /** The pages `reader.pages[:3]` samples for text. */
  function Sample(pages: seq<PageText>): (s: seq<PageText>)
    ensures |s| == (if |pages| < 3 then |pages| else 3)
    ensures forall i :: 0 <= i < |s| ==> s[i] == pages[i]
  {
    pages[..SliceCount(|pages|, 3)]
  }

  /**
   * `validate_document`: a missing path, a non-file and an unsupported suffix
   * are rejected, in that order. Otherwise the file record, and for a PDF
   * its page count and whether one of its first three pages has text; a
   * `PdfReadError` while reading is not a rejection but is kept as the
   * record's error message. Any other failure propagates.
   */
  function ValidateDocument(fs: FileSystem, pdfs: PdfStore, path: Path): (r: Result<DocumentInfo>)
    ensures !fs.Exists(path) ==> r == Raised(Rejection("File does not exist: " + ToString(path), "document", path))
    ensures fs.Exists(path) && !fs.IsFile(path) ==>
      r == Raised(Rejection("Path is not a file: " + ToString(path), "document", path))
    ensures fs.IsFile(path) && !IsSupported(path) ==> r == Raised(Rejection(UnsupportedMessage(path), "document", path))
    ensures r.Ok? ==> (GetFileInfo(fs, path).Ok? &&
      r.value.(pageCount := None, hasText := None, errorMessage := None) == GetFileInfo(fs, path).value)
    ensures r.Ok? && r.value.docType != DocumentType.Pdf ==> r.value == GetFileInfo(fs, path).value
    ensures r.Raised? && fs.IsFile(path) && IsSupported(path) ==> (Lower(Suffix(path.name)) == ".pdf" &&
      ((OpenPdf(pdfs, path) == Raised(r.error) && r.error.kind == FileNotFound) ||
       (OpenPdf(pdfs, path).Ok? && r.error.kind != PdfRead &&
        exists i :: 0 <= i < |Sample(OpenPdf(pdfs, path).value.pages)| &&
                    Sample(OpenPdf(pdfs, path).value.pages)[i] == ExtractFails(r.error))))
  {
    if !fs.Exists(path) then Raised(Rejection("File does not exist: " + ToString(path), "document", path))
    else if !fs.IsFile(path) then Raised(Rejection("Path is not a file: " + ToString(path), "document", path))
    else if !IsSupported(path) then Raised(Rejection(UnsupportedMessage(path), "document", path))
    else ReadDocument(fs, pdfs, path)
  }

  /** The record `validate_document` makes of a supported file that exists. */
  function ReadDocument(fs: FileSystem, pdfs: PdfStore, path: Path): (r: Result<DocumentInfo>)
    requires fs.IsFile(path) && IsSupported(path)
    ensures GetFileInfo(fs, path).Ok?
    ensures r.Ok? ==> r.value.(pageCount := None, hasText := None, errorMessage := None) == GetFileInfo(fs, path).value
    ensures r.Ok? && r.value.docType != DocumentType.Pdf ==> r.value == GetFileInfo(fs, path).value
    ensures r.Raised? ==> (Lower(Suffix(path.name)) == ".pdf" &&
      ((OpenPdf(pdfs, path) == Raised(r.error) && r.error.kind == FileNotFound) ||
       (OpenPdf(pdfs, path).Ok? && r.error.kind != PdfRead &&
        exists i :: 0 <= i < |Sample(OpenPdf(pdfs, path).value.pages)| &&
                    Sample(OpenPdf(pdfs, path).value.pages)[i] == ExtractFails(r.error))))
  {
    var info := GetFileInfo(fs, path).value;
    DocumentTypeBySuffix(path);
    ReadRecord(info, OpenPdf(pdfs, path))
  }

  /** A file record, and for a PDF what reading it adds; only a failure other than `PdfReadError` raises. */
  function ReadRecord(info: DocumentInfo, reading: Result<Pdf>): (r: Result<DocumentInfo>)
    requires info.pageCount.None? && info.hasText.None? && info.errorMessage.None?
    ensures r.Ok? ==> r.value.(pageCount := None, hasText := None, errorMessage := None) == info
    ensures r.Ok? && r.value.docType != DocumentType.Pdf ==> r.value == info
    ensures r.Raised? ==> (info.docType == DocumentType.Pdf && r.error.kind != PdfRead &&
      (reading == Raised(r.error) ||
       (reading.Ok? && exists i :: 0 <= i < |Sample(reading.value.pages)| && Sample(reading.value.pages)[i] == ExtractFails(r.error))))
  {
    ClearedRecord(info);
    if info.docType != DocumentType.Pdf then Ok(info)
    else ReadPdf(info, reading)
  }

  /** A file record is its own copy with the PDF facts cleared. */
  lemma {:induction false} ClearedRecord(info: DocumentInfo)
    requires info.pageCount.None? && info.hasText.None? && info.errorMessage.None?
    ensures info.(pageCount := None, hasText := None, errorMessage := None) == info
  {
  }

  /**
   * What `validate_document` records about an accepted PDF: the page count
   * exactly when PyPDF2 opens the file, "has text" exactly when one of the
   * first three pages has text, and an error message exactly when opening
   * or extracting raised `PdfReadError`.
   */
  lemma {:induction false} PdfRecord(fs: FileSystem, pdfs: PdfStore, path: Path, d: DocumentInfo)
    requires ValidateDocument(fs, pdfs, path) == Ok(d) && d.docType == DocumentType.Pdf
    ensures d.pageCount.Some? <==> OpenPdf(pdfs, path).Ok?
    ensures d.hasText.Some? <==> OpenPdf(pdfs, path).Ok?
    ensures d.pageCount.Some? ==> d.pageCount.value == |OpenPdf(pdfs, path).value.pages|
    ensures d.errorMessage.None? <==> OpenPdf(pdfs, path).Ok? && !ScanPages(Sample(OpenPdf(pdfs, path).value.pages)).ScanFailed?
    ensures d.hasText == Some(true) <==> OpenPdf(pdfs, path).Ok? && ScanPages(Sample(OpenPdf(pdfs, path).value.pages)) == FoundText
    ensures d.hasText == Some(true) ==> var pages := OpenPdf(pdfs, path).value.pages;
      exists i :: 0 <= i < 3 && i < |pages| && HasText(pages[i])
    ensures d.hasText == Some(false) && d.errorMessage.None? ==> var pages := OpenPdf(pdfs, path).value.pages;
      forall i :: 0 <= i < 3 && i < |pages| ==> Blank(pages[i])
  {
    AcceptedPdfIsRead(fs, pdfs, path);
    ReadPdfRecord(GetFileInfo(fs, path).value, OpenPdf(pdfs, path), d);
  }

  /** An accepted PDF is what reading the file makes of its file record. */
  lemma {:induction false} AcceptedPdfIsRead(fs: FileSystem, pdfs: PdfStore, path: Path)
    requires ValidateDocument(fs, pdfs, path).Ok? && ValidateDocument(fs, pdfs, path).value.docType == DocumentType.Pdf
    ensures GetFileInfo(fs, path).Ok? && ValidateDocument(fs, pdfs, path) == ReadPdf(GetFileInfo(fs, path).value, OpenPdf(pdfs, path))
  {
  }

  /** The record `ReadPdf` makes, in terms of what opening the file gave. */
  lemma {:induction false} ReadPdfRecord(info: DocumentInfo, reading: Result<Pdf>, d: DocumentInfo)
    requires info.pageCount.None? && info.hasText.None? && info.errorMessage.None?
    requires ReadPdf(info, reading) == Ok(d)
    ensures d.pageCount.Some? <==> reading.Ok?
    ensures d.hasText.Some? <==> reading.Ok?
    ensures d.pageCount.Some? ==> d.pageCount.value == |reading.value.pages|
    ensures d.errorMessage.None? <==> reading.Ok? && !ScanPages(Sample(reading.value.pages)).ScanFailed?
    ensures d.hasText == Some(true) <==> reading.Ok? && ScanPages(Sample(reading.value.pages)) == FoundText
    ensures d.hasText == Some(true) ==> var pages := reading.value.pages;
      exists i :: 0 <= i < 3 && i < |pages| && HasText(pages[i])
    ensures d.hasText == Some(false) && d.errorMessage.None? ==> var pages := reading.value.pages;
      forall i :: 0 <= i < 3 && i < |pages| ==> Blank(pages[i])
  {
    if reading.Ok? {
      var pages := reading.value.pages;
      var sample := Sample(pages);
      if d.hasText == Some(true) {
        var i :| 0 <= i < |sample| && HasText(sample[i]) && forall j :: 0 <= j < i ==> Blank(sample[j]);
        assert HasText(pages[i]);
      }
    }
  }

  /** A PDF that PyPDF2 cannot find makes `validate_document` raise `FileNotFoundError`. */
  lemma {:induction false} MissingPdfRaises(fs: FileSystem, pdfs: PdfStore, path: Path)
    requires fs.IsFile(path) && Lower(Suffix(path.name)) == ".pdf" && path !in pdfs
    ensures ValidateDocument(fs, pdfs, path) == Raised(Builtin(FileNotFound, NoSuchFile(ToString(path))))
  {
  }

  /** The PDF part of `validate_document`, given what opening the file gave. */
  function ReadPdf(info: DocumentInfo, reading: Result<Pdf>): (r: Result<DocumentInfo>)
    ensures r.Ok? ==> r.value.(pageCount := None, hasText := None, errorMessage := None) ==
                      info.(pageCount := None, hasText := None, errorMessage := None)
    ensures reading.Raised? ==> r == (if reading.error.kind == PdfRead then Ok(info.(errorMessage := Some(reading.error.message)))
                                     else Raised(reading.error))
    ensures reading.Ok? ==> var pages := reading.value.pages; var scan := ScanPages(Sample(pages));
      (scan == FoundText ==> r == Ok(info.(pageCount := Some(|pages|), hasText := Some(true)))) &&
      (scan == NoText ==> r == Ok(info.(pageCount := Some(|pages|), hasText := Some(false)))) &&
      (scan.ScanFailed? ==> r == (if scan.error.kind == PdfRead
                                  then Ok(info.(pageCount := Some(|pages|), hasText := Some(false), errorMessage := Some(scan.error.message)))
                                  else Raised(scan.error)))
  {
    match reading
    case Raised(e) => if e.kind == PdfRead then Ok(info.(errorMessage := Some(e.message))) else Raised(e)
    case Ok(pdf) =>
      var counted := info.(pageCount := Some(|pdf.pages|), hasText := Some(false));
      match ScanPages(Sample(pdf.pages))
      case FoundText => Ok(counted.(hasText := Some(true)))
      case NoText => Ok(counted)
      case ScanFailed(e) => if e.kind == PdfRead then Ok(counted.(errorMessage := Some(e.message))) else Raised(e)
  }

  /** `validate_document` on the given file system and PDFs, as a function of the path. */
  function Validator(fs: FileSystem, pdfs: PdfStore): Path -> Result<DocumentInfo>
  {
    p => ValidateDocument(fs, pdfs, p)
  }

  /** The validation accepts the path. */
  function AcceptedBy(validate: Path -> Result<DocumentInfo>): Path -> bool
  {
    p => validate(p).Ok?
  }

  /** The validation fails on the path with something other than a `ValidationError`. */
  predicate Fatal(validate: Path -> Result<DocumentInfo>, p: Path)
  {
    validate(p).Raised? && validate(p).error.kind != Validation
  }

  /** An accepted path's record names that path. */
  ghost predicate KeepsPath(validate: Path -> Result<DocumentInfo>)
  {
    forall p :: validate(p).Ok? ==> validate(p).value.path == p
  }

  /** `validate_document` keeps the path it was given. */
  lemma {:induction false} ValidatorKeepsPath(fs: FileSystem, pdfs: PdfStore)
    ensures KeepsPath(Validator(fs, pdfs))
  {
    forall p | Validator(fs, pdfs)(p).Ok? ensures Validator(fs, pdfs)(p).value.path == p {
      assert Validator(fs, pdfs)(p) == ValidateDocument(fs, pdfs, p);
    }
  }

  /** The paths of a list of records. */
  function DocPaths(docs: seq<DocumentInfo>): (ps: seq<Path>)
    ensures |ps| == |docs|
    ensures forall i :: 0 <= i < |docs| ==> ps[i] == docs[i].path
  {
    seq(|docs|, i requires 0 <= i < |docs| => docs[i].path)
  }

  /** What the loop of `validate_documents` has collected: the records, the rejection lines, and an escaped failure. */
  datatype Progress = Progress(valid: seq<DocumentInfo>, errors: seq<string>, fatal: Option<Error>)

  /** The loop of `validate_documents` over `ps`; it stops at the first failure that is not a rejection. */
  function Collect(validate: Path -> Result<DocumentInfo>, ps: seq<Path>): Progress
    decreases |ps|
  {
    if ps == [] then Progress([], [], None)
    else
      var t := Collect(validate, ps[..|ps| - 1]);
      var last := ps[|ps| - 1];
      if t.fatal.Some? then t
      else
        match validate(last)
        case Ok(d) => t.(valid := t.valid + [d])
        case Raised(e) =>
          if e.kind == Validation then t.(errors := t.errors + [last.name + ": " + e.message])
          else t.(fatal := Some(e))
  }

  /** Everything `validate_documents` returns or raises, given the per-path validation. */
  function DocumentsOutcome(validate: Path -> Result<DocumentInfo>, paths: seq<Path>): Result<seq<DocumentInfo>>
  {
    if paths == [] then Raised(ValidationError("No documents provided", None, None))
    else
      var t := Collect(validate, paths);
      if t.fatal.Some? then Raised(t.fatal.value)
      else if t.valid == [] then Raised(ValidationError("No valid documents found. Errors: " + Join("; ", t.errors), None, None))
      else Ok(t.valid)
  }

  /** The loop ends without an escaped failure exactly when no path fails other than by rejection. */
  lemma {:induction false} CollectNoFatal(validate: Path -> Result<DocumentInfo>, ps: seq<Path>)
    ensures Collect(validate, ps).fatal.None? <==> forall i :: 0 <= i < |ps| ==> !Fatal(validate, ps[i])
    decreases |ps|
  {
    if ps != [] {
      var init := ps[..|ps| - 1];
      CollectNoFatal(validate, init);
      assert forall i :: 0 <= i < |init| ==> init[i] == ps[i];
    }
  }

  /**
   * Without an escaped failure, the loop keeps the record of each accepted
   * path, in order, and one rejection line for each other path.
   */
  lemma {:induction false} CollectAccepted(validate: Path -> Result<DocumentInfo>, ps: seq<Path>)
    requires KeepsPath(validate)
    requires Collect(validate, ps).fatal.None?
    ensures var t := Collect(validate, ps);
      DocPaths(t.valid) == Filter(ps, AcceptedBy(validate)) && |t.valid| + |t.errors| == |ps| &&
      forall k :: 0 <= k < |t.valid| ==> validate(t.valid[k].path) == Ok(t.valid[k])
    decreases |ps|
  {
    if ps != [] {
      var init := ps[..|ps| - 1];
      var last := ps[|ps| - 1];
      assert ps == init + [last];
      var t := Collect(validate, init);
      assert t.fatal.None?;
      CollectAccepted(validate, init);
      FilterSnoc(init, last, AcceptedBy(validate));
      var u := Collect(validate, ps);
      if validate(last).Ok? {
        assert u.valid == t.valid + [validate(last).value];
        assert DocPaths(u.valid) == DocPaths(t.valid) + [last];
      } else {
        assert u.valid == t.valid;
      }
    }
  }

  /** An escaped failure is that of the first path that fails other than by rejection. */
  lemma {:induction false} CollectFatal(validate: Path -> Result<DocumentInfo>, ps: seq<Path>)
    requires Collect(validate, ps).fatal.Some?
    ensures exists i :: (0 <= i < |ps| && Fatal(validate, ps[i]) &&
      validate(ps[i]) == Raised(Collect(validate, ps).fatal.value) &&
      forall k :: 0 <= k < i ==> !Fatal(validate, ps[k]))
    decreases |ps|
  {
    var init := ps[..|ps| - 1];
    assert forall i :: 0 <= i < |init| ==> init[i] == ps[i];
    if Collect(validate, init).fatal.Some? {
      CollectFatal(validate, init);
      var i :| 0 <= i < |init| && Fatal(validate, init[i]) &&
        validate(init[i]) == Raised(Collect(validate, init).fatal.value) &&
        forall k :: 0 <= k < i ==> !Fatal(validate, init[k]);
      assert ps[i] == init[i];
    } else {
      CollectNoFatal(validate, init);
      assert Fatal(validate, ps[|ps| - 1]);
    }
  }

  /** One more path, while nothing has escaped: its outcome extends the progress so far. */
  lemma {:induction false} CollectStep(validate: Path -> Result<DocumentInfo>, ps: seq<Path>, i: nat)
    requires i < |ps|
    ensures var t := Collect(validate, ps[..i]);
      var v := validate(ps[i]);
      t.fatal.None? ==> (Collect(validate, ps[..i + 1]) ==
        if v.Ok? then t.(valid := t.valid + [v.value])
        else if v.error.kind == Validation then t.(errors := t.errors + [ps[i].name + ": " + v.error.message])
        else t.(fatal := Some(v.error)))
  {
    assert ps[..i + 1][..i] == ps[..i];
  }

  /** Once the loop has met an escaped failure, the rest of the paths change nothing. */
  lemma {:induction false} FatalStays(validate: Path -> Result<DocumentInfo>, ps: seq<Path>, k: nat)
    requires k <= |ps|
    requires Collect(validate, ps[..k]).fatal.Some?
    ensures Collect(validate, ps) == Collect(validate, ps[..k])
    decreases |ps| - k
  {
    if k < |ps| {
      assert ps[..|ps| - 1][..k] == ps[..k];
      FatalStays(validate, ps[..|ps| - 1], k);
    } else {
      assert ps[..k] == ps;
    }
  }

  /**
   * `validate_documents`: an empty list is rejected; each path is validated
   * in turn, a rejected path contributing "name: message" to the error list
   * and any other failure propagating at once; when nothing was accepted the
   * collected errors are reported together. The records returned are those
   * of the accepted paths, in the order given.
   */
  method ValidateDocuments(fs: FileSystem, pdfs: PdfStore, paths: seq<Path>) returns (r: Result<seq<DocumentInfo>>)
    ensures r == DocumentsOutcome(Validator(fs, pdfs), paths)
    ensures paths == [] ==> r == Raised(ValidationError("No documents provided", None, None))
    ensures r.Ok? ==> (r.value != [] && DocPaths(r.value) == Filter(paths, AcceptedBy(Validator(fs, pdfs))) &&
      forall k :: 0 <= k < |r.value| ==> ValidateDocument(fs, pdfs, r.value[k].path) == Ok(r.value[k]))
    ensures r.Ok? <==> (exists i :: 0 <= i < |paths| && ValidateDocument(fs, pdfs, paths[i]).Ok?) &&
                       forall i :: 0 <= i < |paths| ==> !Fatal(Validator(fs, pdfs), paths[i])
    ensures r.Raised? && r.error.kind != Validation ==> exists i :: (0 <= i < |paths| &&
      ValidateDocument(fs, pdfs, paths[i]) == Raised(r.error) &&
      forall k :: 0 <= k < i ==> !Fatal(Validator(fs, pdfs), paths[k]))
  {
    r := ValidateEach(Validator(fs, pdfs), paths);
    ValidateOutcome(fs, pdfs, paths);
  }

  /** The loop of `validate_documents`, for any validation of one path. */
  method ValidateEach(validate: Path -> Result<DocumentInfo>, paths: seq<Path>) returns (r: Result<seq<DocumentInfo>>)
    ensures r == DocumentsOutcome(validate, paths)
  {
    if paths == [] {
      return Raised(ValidationError("No documents provided", None, None));
    }
    var valid: seq<DocumentInfo> := [];
    var errors: seq<string> := [];
    var i := 0;
    while i < |paths|
      invariant 0 <= i <= |paths|
      invariant Collect(validate, paths[..i]) == Progress(valid, errors, None)
    {
      CollectStep(validate, paths, i);
      var v := validate(paths[i]);
      if v.Ok? {
        valid := valid + [v.value];
      } else if v.error.kind == Validation {
        errors := errors + [paths[i].name + ": " + v.error.message];
      } else {
        FatalStays(validate, paths, i + 1);
        return Raised(v.error);
      }
      i := i + 1;
    }
    assert paths[..i] == paths;
    if valid == [] {
      r := Raised(ValidationError("No valid documents found. Errors: " + Join("; ", errors), None, None));
    } else {
      r := Ok(valid);
    }
  }

  /** The promises of `validate_documents`, about its outcome with the validator it runs. */
  lemma {:induction false} ValidateOutcome(fs: FileSystem, pdfs: PdfStore, paths: seq<Path>)
    ensures var r := DocumentsOutcome(Validator(fs, pdfs), paths);
      (paths == [] ==> r == Raised(ValidationError("No documents provided", None, None))) &&
      (r.Ok? ==> (r.value != [] && DocPaths(r.value) == Filter(paths, AcceptedBy(Validator(fs, pdfs))) &&
        forall k :: 0 <= k < |r.value| ==> ValidateDocument(fs, pdfs, r.value[k].path) == Ok(r.value[k]))) &&
      (r.Ok? <==> ((exists i :: 0 <= i < |paths| && ValidateDocument(fs, pdfs, paths[i]).Ok?) &&
        forall i :: 0 <= i < |paths| ==> !Fatal(Validator(fs, pdfs), paths[i]))) &&
      (r.Raised? && r.error.kind != Validation ==> exists i :: (0 <= i < |paths| &&
        ValidateDocument(fs, pdfs, paths[i]) == Raised(r.error) &&
        forall k :: 0 <= k < i ==> !Fatal(Validator(fs, pdfs), paths[k])))
  {
    ValidatorKeepsPath(fs, pdfs);
    OutcomeFacts(Validator(fs, pdfs), paths);
  }

  /**
   * What `validate_documents` returns: some records exactly when some path is
   * accepted and none fails other than by rejection, and then the records of
   * the accepted paths in order; a failure other than a rejection is that of
   * the first path that fails that way.
   */
  lemma {:induction false} OutcomeFacts(validate: Path -> Result<DocumentInfo>, paths: seq<Path>)
    requires KeepsPath(validate)
    ensures var r := DocumentsOutcome(validate, paths);
      (r.Ok? ==> (r.value != [] && DocPaths(r.value) == Filter(paths, AcceptedBy(validate)) &&
        forall k :: 0 <= k < |r.value| ==> validate(r.value[k].path) == Ok(r.value[k]))) &&
      (r.Ok? <==> (exists i :: 0 <= i < |paths| && validate(paths[i]).Ok?) &&
                  forall i :: 0 <= i < |paths| ==> !Fatal(validate, paths[i])) &&
      (r.Raised? && r.error.kind != Validation ==> exists i :: (0 <= i < |paths| &&
        validate(paths[i]) == Raised(r.error) && forall k :: 0 <= k < i ==> !Fatal(validate, paths[k])))
  {
    CollectNoFatal(validate, paths);
    var t := Collect(validate, paths);
    if t.fatal.Some? {
      CollectFatal(validate, paths);
    } else {
      CollectAccepted(validate, paths);
      var accepted := Filter(paths, AcceptedBy(validate));
      if exists i :: 0 <= i < |paths| && validate(paths[i]).Ok? {
        var i :| 0 <= i < |paths| && validate(paths[i]).Ok?;
        assert AcceptedBy(validate)(paths[i]);
        assert paths[i] in accepted;
        assert |DocPaths(t.valid)| > 0;
      }
      if t.valid != [] {
        assert DocPaths(t.valid)[0] in accepted;
      }
    }
  }

  /** The language codes `validate_ocr_language` does not warn about. */
  const CommonLanguages: set<string> := {
    "eng", "deu", "fra", "spa", "ita", "por", "rus", "jpn", "chi_sim", "chi_tra",
    "ara", "hin", "kor", "nld", "pol", "tur", "vie", "ind", "tha", "heb"}

  /** A code is unusual when it is shorter than three characters, or neither common nor of the `xxx_yyy` form. */
  predicate Unusual(code: string)
  {
    |code| < 3 || (code !in CommonLanguages && '_' !in code)
  }

  /**
   * `validate_ocr_language`: the '+'-separated codes it warns about, in
   * order. It never rejects a language string.
   */
  function UnusualLanguageParts(language: string): (r: seq<string>)
    ensures forall c :: c in r <==> c in Split(language, '+') && Unusual(c)
    ensures forall c :: c in r ==> '+' !in c
  {
    SplitPiecesFree(language, '+');
    Filter(Split(language, '+'), Unusual)
  }

  /** Every common code, alone or joined with '+', draws no warning. */
  lemma {:induction false} CommonLanguagesUsual(a: string, b: string)
    requires a in CommonLanguages && b in CommonLanguages
    ensures forall c :: c !in UnusualLanguageParts(a)
    ensures forall c :: c !in UnusualLanguageParts(a + "+" + b)
  {
    assert '+' !in a && '+' !in b;
    SplitWithoutSep(a, '+');
    SplitWithoutSep(b, '+');
    SplitAtSep(a, '+', b);
    assert a + "+" + b == a + ['+'] + b;
    assert !Unusual(a) && !Unusual(b);
  }

  /** What reading the configuration file as YAML gives. */
  datatype ConfigLoad = YamlLoaded | YamlInvalid(reason: string) | ReadFailed(reason: string)

  /**
   * `validate_config_file`, with the outcome of `yaml.safe_load` given as
   * `load`: a missing path, a non-file, a suffix other than ".yaml"/".yml"
   * (in any case), invalid YAML and a read failure are rejected, in that order.
   */
  function ValidateConfigFile(fs: FileSystem, path: Path, load: ConfigLoad): (r: Result<()>)
    ensures r.Ok? <==> fs.IsFile(path) && Lower(Suffix(path.name)) in {".yaml", ".yml"} && load == YamlLoaded
    ensures r.Raised? ==> r.error.kind == Validation && "field" in r.error.details && r.error.details["field"] == Text("config")
    ensures !fs.Exists(path) ==> r == Raised(Rejection("Configuration file does not exist: " + ToString(path), "config", path))
    ensures fs.Exists(path) && !fs.IsFile(path) ==>
      r == Raised(Rejection("Configuration path is not a file: " + ToString(path), "config", path))
    ensures fs.IsFile(path) && Lower(Suffix(path.name)) !in {".yaml", ".yml"} ==>
      r == Raised(Rejection("Configuration file must be YAML (.yaml or .yml), got: " + Suffix(path.name), "config", path))
    ensures fs.IsFile(path) && Lower(Suffix(path.name)) in {".yaml", ".yml"} && load.YamlInvalid? ==>
      r == Raised(Rejection("Invalid YAML in configuration file: " + load.reason, "config", path))
    ensures fs.IsFile(path) && Lower(Suffix(path.name)) in {".yaml", ".yml"} && load.ReadFailed? ==>
      r == Raised(Rejection("Cannot read configuration file: " + load.reason, "config", path))
  {
    if !fs.Exists(path) then Raised(Rejection("Configuration file does not exist: " + ToString(path), "config", path))
    else if !fs.IsFile(path) then Raised(Rejection("Configuration path is not a file: " + ToString(path), "config", path))
    else if Lower(Suffix(path.name)) !in {".yaml", ".yml"} then
      Raised(Rejection("Configuration file must be YAML (.yaml or .yml), got: " + Suffix(path.name), "config", path))
    else match load
      case YamlLoaded => Ok(())
      case YamlInvalid(reason) => Raised(Rejection("Invalid YAML in configuration file: " + reason, "config", path))
      case ReadFailed(reason) => Raised(Rejection("Cannot read configuration file: " + reason, "config", path))
  }
}
