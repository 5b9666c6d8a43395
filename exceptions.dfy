/**
 * The package's exception hierarchy (all derived from `PDFCombinerError`)
 * and the built-in and library exceptions the combiner raises or catches.
 * A raised exception is a value: its class, its message (`str(e)`), and the
 * `details` dictionary the package's own exceptions carry.
 */
module Exceptions {
  import opened Base

  /** A value stored in an exception's `details`: a string, or the list of failed files. */
  datatype Detail = Text(s: string) | Files(names: seq<string>)

  /** The class of an exception. */
  datatype Kind =
    | Combiner | Validation | Conversion | Ocr | FileRead | Merge | Dependency
    | NotADirectory | ValueErr | Runtime | FileNotFound | PdfRead | CalledProcess | Timeout | Import

  datatype Error = Error(kind: Kind, message: string, details: map<string, Detail>)
  {
    /** `isinstance(e, PDFCombinerError)`. */
    predicate IsCombinerError()
    {
      kind in {Combiner, Validation, Conversion, Ocr, FileRead, Merge, Dependency}
    }
  }

  /** The outcome of an operation that returns a value or raises. */
  datatype Result<T> = Ok(value: T) | Raised(error: Error)

  /** Python truthiness of an optional string: present and non-empty. */
  predicate Truthy(o: Option<string>)
  {
    o.Some? && o.value != ""
  }

  /** A built-in or library exception: a class and a message, no `details`. */
  function Builtin(kind: Kind, message: string): Error
  {
    Error(kind, message, map[])
  }

  /** `PDFCombinerError(message, details)`: missing or empty details become `{}`. */
  function PdfCombinerError(message: string, details: Option<map<string, Detail>>): (e: Error)
    ensures e.IsCombinerError() && e.message == message
    ensures details.None? ==> e.details == map[]
    ensures details.Some? ==> e.details == details.value
  {
    Error(Combiner, message, if details.Some? then details.value else map[])
  }

  /** `ValidationError(message, field, value)`: each detail is recorded only when given and non-empty. */
  function ValidationError(message: string, field: Option<string>, value: Option<string>): (e: Error)
    ensures e.kind == Validation && e.message == message && e.IsCombinerError()
    ensures e.details.Keys <= {"field", "value"}
    ensures "field" in e.details <==> Truthy(field)
    ensures "value" in e.details <==> Truthy(value)
    ensures Truthy(field) ==> e.details["field"] == Text(field.value)
    ensures Truthy(value) ==> e.details["value"] == Text(value.value)
  {
    var d0: map<string, Detail> := map[];
    var d1 := if Truthy(field) then d0["field" := Text(field.value)] else d0;
    var d2 := if Truthy(value) then d1["value" := Text(value.value)] else d1;
    Error(Validation, message, d2)
  }

  /** `ConversionError(message, source_file, target_format)`. */
  function ConversionError(message: string, sourceFile: Option<string>, targetFormat: Option<string>): (e: Error)
    ensures e.kind == Conversion && e.message == message && e.IsCombinerError()
    ensures e.details.Keys <= {"source_file", "target_format"}
    ensures "source_file" in e.details <==> Truthy(sourceFile)
    ensures "target_format" in e.details <==> Truthy(targetFormat)
    ensures Truthy(sourceFile) ==> e.details["source_file"] == Text(sourceFile.value)
    ensures Truthy(targetFormat) ==> e.details["target_format"] == Text(targetFormat.value)
  {
    var d0: map<string, Detail> := map[];
    var d1 := if Truthy(sourceFile) then d0["source_file" := Text(sourceFile.value)] else d0;
    var d2 := if Truthy(targetFormat) then d1["target_format" := Text(targetFormat.value)] else d1;
    Error(Conversion, message, d2)
  }

  /** The engine an `OCRError` names when none is given. */
  const DefaultOcrEngine := "ocrmypdf"

  /** `OCRError(message, pdf_file, ocr_engine)`: the engine is always recorded. */
  function OcrError(message: string, pdfFile: Option<string>, ocrEngine: string): (e: Error)
    ensures e.kind == Ocr && e.message == message && e.IsCombinerError()
    ensures e.details.Keys <= {"ocr_engine", "pdf_file"}
    ensures "ocr_engine" in e.details && e.details["ocr_engine"] == Text(ocrEngine)
    ensures "pdf_file" in e.details <==> Truthy(pdfFile)
    ensures Truthy(pdfFile) ==> e.details["pdf_file"] == Text(pdfFile.value)
  {
    var d0: map<string, Detail> := map["ocr_engine" := Text(ocrEngine)];
    var d1 := if Truthy(pdfFile) then d0["pdf_file" := Text(pdfFile.value)] else d0;
    Error(Ocr, message, d1)
  }

  /** `FileReadError(message, file_path)`: the path is the one detail. */
  function FileReadError(message: string, filePath: string): (e: Error)
    ensures e.kind == FileRead && e.message == message && e.IsCombinerError()
    ensures e.details.Keys == {"file_path"} && e.details["file_path"] == Text(filePath)
  {
    Error(FileRead, message, map["file_path" := Text(filePath)])
  }

  /** `MergeError(message, failed_files)`: the list is recorded only when it is non-empty. */
  function MergeError(message: string, failedFiles: Option<seq<string>>): (e: Error)
    ensures e.kind == Merge && e.message == message && e.IsCombinerError()
    ensures e.details.Keys <= {"failed_files"}
    ensures "failed_files" in e.details <==> failedFiles.Some? && |failedFiles.value| > 0
    ensures "failed_files" in e.details ==> e.details["failed_files"] == Files(failedFiles.value)
  {
    var d0: map<string, Detail> := map[];
    var d1 := if failedFiles.Some? && |failedFiles.value| > 0 then d0["failed_files" := Files(failedFiles.value)] else d0;
    Error(Merge, message, d1)
  }

  /** The message of a `DependencyError` without an install hint. */
  function DependencyMessage(dependency: string): string
  {
    "Required dependency '" + dependency + "' is not installed"
  }

  /** `DependencyError(dependency, install_command)`: the hint extends the message and the details together. */
  function DependencyError(dependency: string, installCommand: Option<string>): (e: Error)
    ensures e.kind == Dependency && e.IsCombinerError()
    ensures e.details.Keys <= {"dependency", "install_command"}
    ensures "dependency" in e.details && e.details["dependency"] == Text(dependency)
    ensures "install_command" in e.details <==> Truthy(installCommand)
    ensures !Truthy(installCommand) ==> e.message == DependencyMessage(dependency)
    ensures Truthy(installCommand) ==>
      e.message == DependencyMessage(dependency) + ". Install with: " + installCommand.value &&
      e.details["install_command"] == Text(installCommand.value)
  {
    var message0 := DependencyMessage(dependency);
    var d0: map<string, Detail> := map["dependency" := Text(dependency)];
    var message1 := if Truthy(installCommand) then message0 + ". Install with: " + installCommand.value else message0;
    var d1 := if Truthy(installCommand) then d0["install_command" := Text(installCommand.value)] else d0;
    Error(Dependency, message1, d1)
  }
}
