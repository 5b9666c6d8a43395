/**
 * Conversion of DOC and DOCX documents to PDF: the type dispatch, the
 * output directory and file the conversion writes, the two conversion
 * routes (docx2pdf on Windows and macOS, LibreOffice elsewhere), and the
 * batch pass that maps every document's path to a PDF.
 */
module Converters {
  import opened Base
  import opened Strings
  import opened Paths
  import opened Collections
  import opened Exceptions
  import opened World
  import opened Models
  import opened Utils
  import opened Batch

  /** A `DocumentConverter`: only its temporary directory, if any. */
  datatype DocumentConverter = DocumentConverter(tempDir: Option<Path>)

  /** The platforms on which docx2pdf is used instead of LibreOffice. */
  const Docx2PdfSystems: set<string> := {"Windows", "Darwin"}

  /** What every conversion error names as the format it was converting to. */
  const TargetFormat := "pdf"

  /** The path of a converted document: the stem of the input's name with ".pdf", in `dir`. */
  function ExpectedOutput(dir: Path, input: Path): (p: Path)
    ensures p.dir == Parts(dir)
    ensures input.name != "" ==> Stem(p.name) == Stem(input.name) && Suffix(p.name) == ".pdf"
  {
    var p := Child(dir, Stem(input.name) + ".pdf");
    if input.name != "" then
      StemNonEmpty(input.name);
      PdfNameParts(Stem(input.name));
      p
    else p
  }

  /** The directory a conversion writes to: the one given, else the converter's temporary directory, else the system's. */
  function OfficeOutputDir(conv: DocumentConverter, outputDir: Option<Path>, systemTemp: Path): (dir: Path)
    ensures outputDir.Some? ==> dir == outputDir.value
    ensures outputDir.None? && conv.tempDir.Some? ==> dir == conv.tempDir.value
    ensures outputDir.None? && conv.tempDir.None? ==> dir == systemTemp
  {
    match outputDir
    case Some(d) => d
    case None => if conv.tempDir.Some? then conv.tempDir.value else systemTemp
  }

  /** The error's details name the input (when its path renders as a non-empty string) and the target format, and nothing else. */
  predicate NamesInput(e: Error, input: Path)
  {
    e.details.Keys <= {"source_file", "target_format"} &&
    "target_format" in e.details && e.details["target_format"] == Text(TargetFormat) &&
    ("source_file" in e.details <==> ToString(input) != "") &&
    (ToString(input) != "" ==> e.details["source_file"] == Text(ToString(input)))
  }

  /** The `ConversionError` a conversion raises: it names the input and the target format. */
  function ConversionFailure(input: Path, message: string): (e: Error)
    ensures e.kind == Conversion && e.message == message && NamesInput(e, input)
  {
    ConversionError(message, Some(ToString(input)), Some(TargetFormat))
  }

  /** The message raised when docx2pdf cannot be imported. */
  const Docx2PdfMissing := "docx2pdf is required for DOC/DOCX conversion on Windows/macOS"

  /** The reason a conversion that left no file reports. */
  const NoOutput := "Conversion produced no output file"

  /**
   * `_convert_with_docx2pdf(input, output)`: the output path when the call
   * returns and the file is then present. A library that cannot be
   * imported, or a call that raises `ImportError`, gives the "required"
   * error; any other exception, including the missing output raised inside
   * the same `try`, is reported as "Failed to convert document: ...".
   */
  function ConvertWithDocx2Pdf(docx2pdf: (Path, Path) -> LibraryCall, input: Path, output: Path): (r: Result<Path>)
    ensures r.Ok? <==> docx2pdf(input, output).Returned? && output in docx2pdf(input, output).present
    ensures r.Ok? ==> r.value == output
    ensures r.Raised? ==> r.error.kind == Conversion && NamesInput(r.error, input)
    ensures docx2pdf(input, output).NotImportable? || (docx2pdf(input, output).Threw? && docx2pdf(input, output).error.kind == Import) ==>
      r == Raised(ConversionFailure(input, Docx2PdfMissing))
    ensures docx2pdf(input, output).Returned? && output !in docx2pdf(input, output).present ==>
      r == Raised(ConversionFailure(input, "Failed to convert document: " + NoOutput))
    ensures docx2pdf(input, output).Threw? && docx2pdf(input, output).error.kind != Import ==>
      r == Raised(ConversionFailure(input, "Failed to convert document: " + docx2pdf(input, output).error.message))
  {
    match docx2pdf(input, output)
    case NotImportable => Raised(ConversionFailure(input, Docx2PdfMissing))
    case Threw(e) =>
      if e.kind == Import then Raised(ConversionFailure(input, Docx2PdfMissing))
      else Raised(ConversionFailure(input, "Failed to convert document: " + e.message))
    case Returned(present) =>
      if output in present then Ok(output)
      else Raised(ConversionFailure(input, "Failed to convert document: " + ConversionFailure(input, NoOutput).message))
  }

  /** The LibreOffice invocation that converts `input` into `dir`. */
  function LibreOfficeCommand(dir: Path, input: Path): (cmd: seq<string>)
    ensures |cmd| == 7 && Program(cmd) == "libreoffice"
    ensures cmd[1..5] == ["--headless", "--convert-to", "pdf", "--outdir"]
    ensures cmd[5] == ToString(dir) && cmd[6] == ToString(input)
  {
    ["libreoffice", "--headless", "--convert-to", "pdf", "--outdir", ToString(dir), ToString(input)]
  }

  /** The timeout, in seconds, LibreOffice is given. */
  const LibreOfficeTimeout := 120

  /** `p` matches `dir.glob(f"{stem}*.pdf")`: a file in `dir` whose name starts with the stem and ends with ".pdf". */
  predicate GlobMatch(dir: Path, stem: string, p: Path)
  {
    p.dir == Parts(dir) && |p.name| >= |stem| + 4 && p.name[..|stem|] == stem && p.name[|p.name| - 4..] == ".pdf"
  }

  /** The expected output file is one of the files the glob finds. */
  lemma {:induction false} ExpectedMatches(dir: Path, input: Path)
    ensures GlobMatch(dir, Stem(input.name), ExpectedOutput(dir, input))
  {
    var n := ExpectedOutput(dir, input).name;
    assert n == Stem(input.name) + ".pdf";
    assert n[..|Stem(input.name)|] == Stem(input.name);
  }

  /**
   * `_convert_with_libreoffice(input, dir)`: LibreOffice runs with a
   * 120-second timeout; the expected output is returned when present, else
   * the first file in `glob` order that matches `<stem>*.pdf`. A program
   * that is not installed becomes a `DependencyError`; every other failure,
   * including no output at all, is reported as "LibreOffice conversion failed: ...".
   */
  function ConvertWithLibreOffice(tools: Invocation -> ToolOutcome, input: Path, dir: Path): (r: Result<Path>)
    ensures var run := RunCommand(tools, LibreOfficeCommand(dir, input), Some(LibreOfficeTimeout));
      (r.Ok? <==> run.Ok? && exists p :: p in run.value && GlobMatch(dir, Stem(input.name), p)) &&
      (r.Ok? && ExpectedOutput(dir, input) in run.value ==> r.value == ExpectedOutput(dir, input)) &&
      (r.Ok? && ExpectedOutput(dir, input) !in run.value ==>
        FirstMatch(run.value, (p: Path) => GlobMatch(dir, Stem(input.name), p), r.value)) &&
      (run.Raised? && run.error.kind == FileNotFound ==>
        r == Raised(DependencyError("libreoffice", Some("sudo apt-get install libreoffice")))) &&
      (run.Raised? && run.error.kind != FileNotFound ==>
        r == Raised(ConversionFailure(input, "LibreOffice conversion failed: " + run.error.message))) &&
      (r.Raised? && run.Ok? ==> r == Raised(ConversionFailure(input, "LibreOffice conversion failed: " + NoOutput)))
    ensures r.Raised? ==> r.error.kind in {Conversion, Dependency}
  {
    var expected := ExpectedOutput(dir, input);
    var matches := (p: Path) => GlobMatch(dir, Stem(input.name), p);
    match RunCommand(tools, LibreOfficeCommand(dir, input), Some(LibreOfficeTimeout))
    case Ok(present) =>
      ExpectedMatches(dir, input);
      if expected in present then Ok(expected)
      else
        var found := Filter(present, matches);
        if found != [] then
          FilterFirst(present, matches);
          Ok(found[0])
        else
          assert forall p :: p in present ==> !matches(p);
          Raised(ConversionFailure(input, "LibreOffice conversion failed: " + ConversionFailure(input, NoOutput).message))
    case Raised(e) =>
      if e.kind == FileNotFound then Raised(DependencyError("libreoffice", Some("sudo apt-get install libreoffice")))
      else Raised(ConversionFailure(input, "LibreOffice conversion failed: " + e.message))
  }

  /** `x` is the first entry of `xs` that satisfies `keep`. */
  predicate FirstMatch<T(==)>(xs: seq<T>, keep: T -> bool, x: T)
  {
    exists i :: 0 <= i < |xs| && xs[i] == x && keep(x) && forall j :: 0 <= j < i ==> !keep(xs[j])
  }

  /** `_convert_office_to_pdf(document, output_dir)`: docx2pdf on Windows and macOS, LibreOffice elsewhere. */
  function ConvertOffice(env: Env, conv: DocumentConverter, d: DocumentInfo, outputDir: Option<Path>): (r: Result<Path>)
    ensures var dir := OfficeOutputDir(conv, outputDir, env.systemTemp);
      if env.system in Docx2PdfSystems then r == ConvertWithDocx2Pdf(env.docx2pdf, d.path, ExpectedOutput(dir, d.path))
      else r == ConvertWithLibreOffice(env.tools, d.path, dir)
  {
    var dir := OfficeOutputDir(conv, outputDir, env.systemTemp);
    if env.system in Docx2PdfSystems then ConvertWithDocx2Pdf(env.docx2pdf, d.path, ExpectedOutput(dir, d.path))
    else ConvertWithLibreOffice(env.tools, d.path, dir)
  }

  /**
   * `convert_to_pdf(document, output_dir)`: a PDF is returned as it is; a
   * DOC or DOCX is converted into the output directory, and the converted
   * file lies in that directory, has the suffix ".pdf" and (by name) starts
   * with the document's stem. Every failure is a `ConversionError` naming
   * the document and "pdf", or the `DependencyError` for LibreOffice.
   */
  function ConvertToPdf(env: Env, conv: DocumentConverter, d: DocumentInfo, outputDir: Option<Path>): (r: Result<Path>)
    ensures d.docType.Pdf? ==> r == Ok(d.path)
    ensures !d.docType.Pdf? && r.Ok? ==> (var dir := OfficeOutputDir(conv, outputDir, env.systemTemp);
      GlobMatch(dir, Stem(d.path.name), r.value) &&
      (env.system in Docx2PdfSystems ==> r.value == ExpectedOutput(dir, d.path)))
    ensures r.Raised? ==> r.error.kind in {Conversion, Dependency}
    ensures r.Raised? && r.error.kind == Conversion ==> NamesInput(r.error, d.path)
    ensures r.Raised? && r.error.kind == Dependency ==>
      env.system !in Docx2PdfSystems && r.error == DependencyError("libreoffice", Some("sudo apt-get install libreoffice"))
  {
    match d.docType
    case Pdf => Ok(d.path)
    case _ =>
      var r := ConvertOffice(env, conv, d, outputDir);
      ExpectedMatches(OfficeOutputDir(conv, outputDir, env.systemTemp), d.path);
      r
  }

  /** A conversion that succeeds leaves a file the route reported as present in the output directory. */
  lemma {:induction false} ConvertedIsPresent(env: Env, conv: DocumentConverter, d: DocumentInfo, outputDir: Option<Path>)
    requires !d.docType.Pdf? && ConvertToPdf(env, conv, d, outputDir).Ok?
    ensures var dir := OfficeOutputDir(conv, outputDir, env.systemTemp);
      var out := ConvertToPdf(env, conv, d, outputDir).value;
      if env.system in Docx2PdfSystems then
        out in env.docx2pdf(d.path, ExpectedOutput(dir, d.path)).present
      else
        out in RunCommand(env.tools, LibreOfficeCommand(dir, d.path), Some(LibreOfficeTimeout)).value
  {
    var dir := OfficeOutputDir(conv, outputDir, env.systemTemp);
    if env.system !in Docx2PdfSystems {
      var run := RunCommand(env.tools, LibreOfficeCommand(dir, d.path), Some(LibreOfficeTimeout));
      var out := ConvertToPdf(env, conv, d, outputDir).value;
      if ExpectedOutput(dir, d.path) !in run.value {
        assert FirstMatch(run.value, (p: Path) => GlobMatch(dir, Stem(d.path.name), p), out);
      }
    }
  }

  /** A `BatchConverter`: the converter it uses and its worker limit. */
  datatype BatchConverter = BatchConverter(converter: DocumentConverter, maxWorkers: int)

  /** The documents whose type is PDF, which need no conversion. */
  function IsPdfType(): DocumentInfo -> bool
  {
    (d: DocumentInfo) => d.docType.Pdf?
  }

  /** The documents to convert. */
  function ToConvert(): DocumentInfo -> bool
  {
    (d: DocumentInfo) => !d.docType.Pdf?
  }

  /** No document is selected twice by the final pass of the conversion batch, which has none. */
  function NoneSelected(): DocumentInfo -> bool
  {
    (d: DocumentInfo) => false
  }

  /** The serial branch is taken for at most three documents to convert or a single worker. */
  predicate SerialConversion(convertCount: nat, maxWorkers: int)
  {
    convertCount <= 3 || maxWorkers == 1
  }

  /** What the parallel branch raises for a document whose conversion failed. */
  function BatchFailure(d: DocumentInfo, e: Error): Error
  {
    ConversionError("Batch conversion failed for " + d.name + ": " + e.message, Some(Key(d)), Some(TargetFormat))
  }

  /**
   * `convert_documents(documents, output_dir)` for the conversion job
   * `job`: every PDF maps to itself, then each remaining document is
   * converted in order and maps to its PDF. The serial branch lets the
   * first error through as it is; the parallel branch, taken as finishing
   * its jobs in submission order, reports it as a batch `ConversionError`
   * and refuses a worker limit below one.
   */
  function ConvertBatch(job: DocumentInfo -> Result<Path>, maxWorkers: int, documents: seq<DocumentInfo>): (r: Result<map<string, Path>>)
  {
    var pdfs := AddSelf(IsPdfType(), documents, |documents|, map[]);
    var convertCount := |Filter(documents, ToConvert())|;
    var serial := SerialConversion(convertCount, maxWorkers);
    if !serial && maxWorkers <= 0 then Raised(Builtin(ValueErr, "max_workers must be greater than 0"))
    else
      var pass := PassFrom(ToConvert(), job, documents, 0, pdfs);
      match pass.failure
      case None => Ok(pass.results)
      case Some(f) =>
        PassFailure(ToConvert(), job, documents, 0, pdfs);
        Raised(if serial then f.error else BatchFailure(documents[f.index], f.error))
  }

  /** The batch converter's pass with its own converter. */
  function ConvertDocumentsOutcome(env: Env, batch: BatchConverter, documents: seq<DocumentInfo>, outputDir: Option<Path>): Result<map<string, Path>>
  {
    ConvertBatch(ConverterJob(env, batch.converter, outputDir), batch.maxWorkers, documents)
  }

  /** The converter as the job each document of a batch is given to. */
  function ConverterJob(env: Env, conv: DocumentConverter, outputDir: Option<Path>): DocumentInfo -> Result<Path>
  {
    (d: DocumentInfo) => ConvertToPdf(env, conv, d, outputDir)
  }

  /** A selector that selects nothing adds nothing. */
  lemma {:induction false} AddNothing(docs: seq<DocumentInfo>, n: nat, results: map<string, Path>)
    requires n <= |docs|
    ensures AddSelf(NoneSelected(), docs, n, results) == results
  {
    if n > 0 {
      AddNothing(docs, n - 1, results);
    }
  }

  /**
   * A successful batch has an entry for every document and no other; when
   * no two documents share a path, a PDF maps to itself and every other
   * document to the result of its conversion.
   */
  lemma {:induction false} ConvertBatchOk(job: DocumentInfo -> Result<Path>, maxWorkers: int, documents: seq<DocumentInfo>)
    requires ConvertBatch(job, maxWorkers, documents).Ok?
    ensures var m := ConvertBatch(job, maxWorkers, documents).value;
      (forall i :: 0 <= i < |documents| ==> Key(documents[i]) in m) &&
      (forall k :: k in m ==> exists i :: 0 <= i < |documents| && Key(documents[i]) == k)
    ensures var m := ConvertBatch(job, maxWorkers, documents).value;
      UniqueKeys(documents) ==> forall i :: 0 <= i < |documents| ==>
        if documents[i].docType.Pdf? then m[Key(documents[i])] == documents[i].path
        else job(documents[i]) == Ok(m[Key(documents[i])])
  {
    var pdfs := AddSelf(IsPdfType(), documents, |documents|, map[]);
    var pass := PassFrom(ToConvert(), job, documents, 0, pdfs);
    assert pass.failure.None?;
    AddNothing(documents, |documents|, pass.results);
    assert ConvertBatch(job, maxWorkers, documents).value ==
      ThreePass(IsPdfType(), ToConvert(), NoneSelected(), job, documents, documents, documents);
    ThreePassKeys(IsPdfType(), ToConvert(), NoneSelected(), job, documents, documents, documents);
    if UniqueKeys(documents) {
      ThreePassValues(IsPdfType(), ToConvert(), NoneSelected(), job, documents, documents, documents);
    }
  }

  /**
   * A batch fails exactly when the parallel branch is refused a worker
   * limit below one, or some document to convert fails; then the error is
   * the first failing document's, as it is in the serial branch and
   * wrapped with the document's name in the parallel one, and every
   * document before it converted.
   */
  lemma {:induction false} ConvertBatchRaised(job: DocumentInfo -> Result<Path>, maxWorkers: int, documents: seq<DocumentInfo>)
    ensures var serial := SerialConversion(|Filter(documents, ToConvert())|, maxWorkers);
      var r := ConvertBatch(job, maxWorkers, documents);
      (!serial && maxWorkers <= 0 ==> r == Raised(Builtin(ValueErr, "max_workers must be greater than 0"))) &&
      (serial || maxWorkers > 0 ==>
        (r.Raised? <==> exists i :: 0 <= i < |documents| && !documents[i].docType.Pdf? && job(documents[i]).Raised?))
    ensures var serial := SerialConversion(|Filter(documents, ToConvert())|, maxWorkers);
      var r := ConvertBatch(job, maxWorkers, documents);
      (serial || maxWorkers > 0) && r.Raised? ==>
        exists i :: 0 <= i < |documents| && !documents[i].docType.Pdf? && job(documents[i]).Raised? &&
          (forall j :: 0 <= j < i && !documents[j].docType.Pdf? ==> job(documents[j]).Ok?) &&
          r.error == (if serial then job(documents[i]).error else BatchFailure(documents[i], job(documents[i]).error))
  {
    var pdfs := AddSelf(IsPdfType(), documents, |documents|, map[]);
    PassFailure(ToConvert(), job, documents, 0, pdfs);
    var pass := PassFrom(ToConvert(), job, documents, 0, pdfs);
    if pass.failure.Some? {
      var i := pass.failure.value.index;
      assert !documents[i].docType.Pdf? && job(documents[i]).Raised?;
    }
  }

  /**
   * `BatchConverter.convert_documents(documents, output_dir)`: PDFs are
   * recorded first, then the rest are converted one after the other.
   */
  method ConvertDocuments(env: Env, batch: BatchConverter, documents: seq<DocumentInfo>, outputDir: Option<Path>)
    returns (r: Result<map<string, Path>>)
    ensures r == ConvertDocumentsOutcome(env, batch, documents, outputDir)
  {
    r := RunBatch(ConverterJob(env, batch.converter, outputDir), batch.maxWorkers, documents);
  }

  /** One batch with any job: record the PDFs, check the worker limit, then convert the rest. */
  method RunBatch(job: DocumentInfo -> Result<Path>, maxWorkers: int, documents: seq<DocumentInfo>)
    returns (r: Result<map<string, Path>>)
    ensures r == ConvertBatch(job, maxWorkers, documents)
  {
    var results := map[];
    var toConvert: seq<DocumentInfo> := [];
    var i := 0;
    while i < |documents|
      invariant 0 <= i <= |documents|
      invariant results == AddSelf(IsPdfType(), documents, i, map[])
      invariant toConvert == Filter(documents[..i], ToConvert())
    {
      FilterPrefixStep(documents, i, ToConvert());
      if documents[i].docType.Pdf? {
        results := results[Key(documents[i]) := documents[i].path];
      } else {
        toConvert := toConvert + [documents[i]];
      }
      i := i + 1;
    }
    assert documents[..|documents|] == documents;
    var serial := SerialConversion(|toConvert|, maxWorkers);
    if !serial && maxWorkers <= 0 {
      r := Raised(Builtin(ValueErr, "max_workers must be greater than 0"));
      return;
    }
    r := ConvertPass(job, serial, documents, results);
  }

  /** The conversion pass: each document to convert, in order, until the first failure. */
  method ConvertPass(job: DocumentInfo -> Result<Path>, serial: bool, documents: seq<DocumentInfo>, pdfs: map<string, Path>)
    returns (r: Result<map<string, Path>>)
    ensures var pass := PassFrom(ToConvert(), job, documents, 0, pdfs);
      (pass.failure.None? ==> r == Ok(pass.results)) &&
      (pass.failure.Some? ==> (pass.failure.value.index < |documents| &&
        r == Raised(if serial then pass.failure.value.error else BatchFailure(documents[pass.failure.value.index], pass.failure.value.error))))
  {
    ghost var pass := PassFrom(ToConvert(), job, documents, 0, pdfs);
    var results := pdfs;
    var i := 0;
    while i < |documents|
      invariant 0 <= i <= |documents|
      invariant PassFrom(ToConvert(), job, documents, i, results) == pass
    {
      var d := documents[i];
      if !d.docType.Pdf? {
        var converted := job(d);
        if converted.Raised? {
          assert pass == Pass(results, Some(Failure(i, converted.error)));
          if serial {
            r := Raised(converted.error);
          } else {
            r := Raised(ConversionError("Batch conversion failed for " + d.name + ": " + converted.error.message,
                                        Some(Key(d)), Some(TargetFormat)));
          }
          return;
        }
        results := results[Key(d) := converted.value];
      }
      i := i + 1;
    }
    r := Ok(results);
  }
}
