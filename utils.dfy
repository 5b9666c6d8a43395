/**
 * The package's helpers: document classification by suffix, scanning a
 * directory for documents, the file record of one document, the
 * external-dependency checks, running an external program, and making a
 * string safe to use as a file name.
 */
module Utils {
  import opened Base
  import opened Strings
  import opened Order
  import opened Collections
  import opened Paths
  import opened Exceptions
  import opened World
  import opened Models

  /** `SUPPORTED_EXTENSIONS`. */
  const SupportedExtensions: set<string> := {".pdf", ".doc", ".docx"}

  /** The check `iter_documents` applies: the lower-cased suffix is a supported one. */
  predicate IsSupported(p: Path)
  {
    Lower(Suffix(p.name)) in SupportedExtensions
  }

  /**
   * `get_document_type`: the type named by the lower-cased suffix. A document
   * has a type exactly when its suffix is one `iter_documents` accepts.
   */
  function GetDocumentType(p: Path): (r: Option<DocumentType>)
    ensures r.Some? <==> IsSupported(p)
  {
    ExtensionCases(p);
    TypeOfExtension(Extension(p))
  }

  /** The type an extension (without its dot) names, if any. */
  function TypeOfExtension(e: string): Option<DocumentType>
  {
    if e == "pdf" then Some(DocumentType.Pdf)
    else if e == "doc" then Some(Doc)
    else if e == "docx" then Some(Docx)
    else None
  }

  /** Each type is named by exactly one lower-cased suffix. */
  lemma {:induction false} DocumentTypeBySuffix(p: Path)
    ensures var r := GetDocumentType(p);
      var lowered := Lower(Suffix(p.name));
      (r == Some(DocumentType.Pdf) <==> lowered == ".pdf") &&
      (r == Some(Doc) <==> lowered == ".doc") &&
      (r == Some(Docx) <==> lowered == ".docx")
  {
    ExtensionCases(p);
  }

  /** The three extensions `get_document_type` knows, each against its lower-cased suffix. */
  lemma {:induction false} ExtensionCases(p: Path)
    ensures var e := Extension(p);
      var lowered := Lower(Suffix(p.name));
      (e == "pdf" <==> lowered == ".pdf") && (e == "doc" <==> lowered == ".doc") && (e == "docx" <==> lowered == ".docx")
  {
    var e := Extension(p);
    var lowered := Lower(Suffix(p.name));
    assert lowered == (if e == "" then "" else "." + e);
    DottedIs(lowered, e, "pdf", ".pdf");
    DottedIs(lowered, e, "doc", ".doc");
    DottedIs(lowered, e, "docx", ".docx");
  }

  /** An extension, written back behind its dot, is a given name exactly when it is that name after a dot. */
  lemma {:induction false} DottedIs(lowered: string, e: string, n: string, dotted: string)
    requires n != "" && dotted == "." + n
    requires lowered == (if e == "" then "" else "." + e)
    ensures e == n <==> lowered == dotted
  {
    if lowered == dotted {
      assert e == lowered[1..] && n == dotted[1..];
    }
  }

  /** Classification ignores the case of the name: names equal up to case give the same type. */
  lemma {:induction false} DocumentTypeIgnoresCase(a: Path, b: Path)
    requires Lower(a.name) == Lower(b.name)
    ensures GetDocumentType(a) == GetDocumentType(b)
  {
    assert Extension(a) == Extension(b) by {
      SuffixLower(a.name);
      SuffixLower(b.name);
      assert Lower(Suffix(a.name)) == Lower(Suffix(b.name));
    }
  }

  /** The documents `iter_documents` keeps from a candidate list: regular files with a supported suffix. */
  function SupportedFiles(fs: FileSystem, candidates: seq<Path>): (r: seq<Path>)
    ensures forall p :: p in r <==> p in candidates && fs.IsFile(p) && IsSupported(p)
  {
    Filter(candidates, p => fs.IsFile(p) && IsSupported(p))
  }

  /**
   * `iter_documents(directory, recursive)`: a missing path or a non-directory
   * raises `NotADirectoryError`; otherwise the regular files with a supported
   * suffix directly in the directory (or anywhere beneath it when
   * `recursive`), in sorted path order, each once.
   */
  function IterDocuments(fs: FileSystem, directory: Path, recursive: bool): (r: Result<seq<Path>>)
    ensures r.Raised? <==> !fs.IsDir(directory)
    ensures r.Raised? ==> r.error.kind == NotADirectory
    ensures r.Raised? ==> r.error.message == (if fs.Exists(directory) then "Path is not a directory: "
                                              else "Directory does not exist: ") + ToString(directory)
    ensures r.Ok? ==> forall p :: p in r.value <==>
      p in fs.listing && Under(p, directory, recursive) && fs.IsFile(p) && IsSupported(p)
    ensures r.Ok? ==> forall i, j :: 0 <= i < j < |r.value| ==> !PathLess(r.value[j], r.value[i])
    ensures r.Ok? && fs.ListedOnce() ==> forall i, j :: 0 <= i < j < |r.value| ==> PathLess(r.value[i], r.value[j])
  {
    if !fs.Exists(directory) then Raised(Builtin(NotADirectory, "Directory does not exist: " + ToString(directory)))
    else if !fs.IsDir(directory) then Raised(Builtin(NotADirectory, "Path is not a directory: " + ToString(directory)))
    else
      ScanFacts(fs, directory, recursive);
      Ok(Scan(fs, directory, recursive))
  }

  /** The loop of `iter_documents`: the sorted entries below the directory, filtered. */
  function Scan(fs: FileSystem, directory: Path, recursive: bool): seq<Path>
  {
    SupportedFiles(fs, SortPaths(Below(fs.listing, directory, recursive)))
  }

  /** What the scan yields, and that it is sorted, strictly when the listing has no repeats. */
  lemma {:induction false} ScanFacts(fs: FileSystem, directory: Path, recursive: bool)
    ensures var r := Scan(fs, directory, recursive);
      (forall p :: p in r <==> p in fs.listing && Under(p, directory, recursive) && fs.IsFile(p) && IsSupported(p)) &&
      (forall i, j :: 0 <= i < j < |r| ==> !PathLess(r[j], r[i])) &&
      (fs.ListedOnce() ==> forall i, j :: 0 <= i < j < |r| ==> PathLess(r[i], r[j]))
  {
    var below := Below(fs.listing, directory, recursive);
    var candidates := SortPaths(below);
    assert forall p :: p in candidates <==> p in below by {
      assert forall p :: p in candidates <==> p in multiset(candidates);
      assert forall p :: p in below <==> p in multiset(below);
    }
    ScanOrder(fs, candidates);
    if fs.ListedOnce() {
      FilterNoDuplicates(fs.listing, p => Under(p, directory, recursive));
      PermutationNoDuplicates(below, candidates);
      ScanStrictOrder(fs, candidates);
    }
  }

  /** Filtering a sorted list keeps it sorted. */
  lemma {:induction false} ScanOrder(fs: FileSystem, candidates: seq<Path>)
    requires forall i, j :: 0 <= i < j < |candidates| ==> !PathLess(candidates[j], candidates[i])
    ensures var r := SupportedFiles(fs, candidates);
      forall i, j :: 0 <= i < j < |r| ==> !PathLess(r[j], r[i])
  {
    FilterKeepsOrder(candidates, p => fs.IsFile(p) && IsSupported(p), (a: Path, b: Path) => !PathLess(b, a));
  }

  /** A sorted list without repeats, once filtered, is strictly ascending. */
  lemma {:induction false} ScanStrictOrder(fs: FileSystem, candidates: seq<Path>)
    requires forall i, j :: 0 <= i < j < |candidates| ==> !PathLess(candidates[j], candidates[i])
    requires NoDuplicates(candidates)
    ensures var r := SupportedFiles(fs, candidates);
      forall i, j :: 0 <= i < j < |r| ==> PathLess(r[i], r[j])
  {
    var keep := p => fs.IsFile(p) && IsSupported(p);
    ScanOrder(fs, candidates);
    FilterNoDuplicates(candidates, keep);
    var r := SupportedFiles(fs, candidates);
    forall i, j | 0 <= i < j < |r| ensures PathLess(r[i], r[j]) {
      assert !PathLess(r[j], r[i]) && r[i] != r[j];
      PartsLessTotal(Parts(r[i]), Parts(r[j]));
      if Parts(r[i]) == Parts(r[j]) {
        PartsInjective(r[i], r[j]);
      }
    }
  }

  /** The documents below `directory` that `iter_documents` accepts, as a set. */
  function DocumentSet(fs: FileSystem, directory: Path, recursive: bool): set<Path>
  {
    set p | p in fs.listing && Under(p, directory, recursive) && fs.IsFile(p) && IsSupported(p)
  }

  /**
   * `count_documents`: fails as the scan fails, and otherwise counts the
   * documents the scan yields, which is the number of distinct supported
   * documents below the directory.
   */
  function CountDocuments(fs: FileSystem, directory: Path, recursive: bool): (r: Result<nat>)
    ensures r.Raised? <==> !fs.IsDir(directory)
    ensures r.Raised? ==> r == Raised(IterDocuments(fs, directory, recursive).error)
    ensures r.Ok? ==> r.value == |IterDocuments(fs, directory, recursive).value|
    ensures r.Ok? && fs.ListedOnce() ==> r.value == |DocumentSet(fs, directory, recursive)|
  {
    match IterDocuments(fs, directory, recursive)
    case Raised(e) => Raised(e)
    case Ok(docs) =>
      CountIsSize(fs, directory, recursive, docs);
      Ok(|docs|)
  }

  lemma {:induction false} CountIsSize(fs: FileSystem, directory: Path, recursive: bool, docs: seq<Path>)
    requires IterDocuments(fs, directory, recursive) == Ok(docs)
    ensures fs.ListedOnce() ==> |docs| == |DocumentSet(fs, directory, recursive)|
  {
    if fs.ListedOnce() {
      CountListedOnce(fs, directory, recursive, docs);
    }
  }

  lemma {:induction false} CountListedOnce(fs: FileSystem, directory: Path, recursive: bool, docs: seq<Path>)
    requires IterDocuments(fs, directory, recursive) == Ok(docs)
    requires fs.ListedOnce()
    ensures |docs| == |DocumentSet(fs, directory, recursive)|
  {
    assert Elements(docs) == DocumentSet(fs, directory, recursive);
    assert NoDuplicates(docs) by {
      forall i, j | 0 <= i < j < |docs| ensures docs[i] != docs[j] {
        PartsLessIrreflexive(Parts(docs[i]));
      }
    }
    ElementsBound(docs);
  }

  /**
   * `get_file_info`: an unsupported suffix raises `ValueError`; a missing
   * path makes `stat` raise `FileNotFoundError`; otherwise a pending record
   * with the path's name, its type and what `stat` reports.
   */
  function GetFileInfo(fs: FileSystem, p: Path): (r: Result<DocumentInfo>)
    ensures (r.Raised? && r.error.kind == ValueErr) <==> GetDocumentType(p).None?
    ensures GetDocumentType(p).None? ==> r.error.message == "Unsupported file type: " + Suffix(p.name)
    ensures r.Ok? <==> GetDocumentType(p).Some? && fs.Exists(p)
    ensures r.Raised? && GetDocumentType(p).Some? ==> r.error == Builtin(FileNotFound, NoSuchFile(ToString(p)))
    ensures r.Ok? ==> var d := r.value; var node := fs.nodes[p];
      d.path == p && d.name == p.name && Some(d.docType) == GetDocumentType(p) &&
      d.sizeBytes == node.size && d.createdAt == node.created && d.modifiedAt == node.modified &&
      d.status == Pending && d.ocrStatus.None? && d.pageCount.None? && d.hasText.None? && d.errorMessage.None?
  {
    match GetDocumentType(p)
    case None => Raised(Builtin(ValueErr, "Unsupported file type: " + Suffix(p.name)))
    case Some(t) =>
      if !fs.Exists(p) then Raised(Builtin(FileNotFound, NoSuchFile(ToString(p))))
      else
        var node := fs.nodes[p];
        Ok(NewDocument(p, p.name, t, node.size, node.created, node.modified))
  }

  /** The external tools and what `check_system_dependencies` sorted them into. */
  datatype DependencyReport = DependencyReport(available: seq<string>, missing: seq<string>)

  /** The commands under which Ghostscript may be installed. */
  const GhostscriptCommands := ["gs", "gswin32c", "gswin64c", "ghostscript"]

  /** The tools checked on a platform, in order: LibreOffice only on Linux. */
  function CheckedDependencies(system: string): seq<string>
  {
    ["ocrmypdf", "tesseract", "ghostscript"] + (if system == "Linux" then ["libreoffice"] else [])
  }

  /** `shutil.which` finds the tool (for Ghostscript, under any of its command names). */
  predicate Found(dependency: string, onPath: set<string>)
  {
    if dependency == "ghostscript" then exists c :: c in GhostscriptCommands && c in onPath
    else dependency in onPath
  }

  /**
   * `check_system_dependencies`, with the commands `shutil.which` finds
   * given as `onPath`: every checked tool is listed exactly once, as
   * available when it is found and as missing otherwise, in checking order.
   */
  function CheckSystemDependencies(onPath: set<string>, system: string): (r: DependencyReport)
    ensures r.available == Filter(CheckedDependencies(system), d => Found(d, onPath))
    ensures r.missing == Filter(CheckedDependencies(system), d => !Found(d, onPath))
    ensures forall d :: d in r.missing <==> d in CheckedDependencies(system) && !Found(d, onPath)
    ensures forall d :: d in r.available <==> d in CheckedDependencies(system) && Found(d, onPath)
  {
    RecordAllFilters(DependencyReport([], []), CheckedDependencies(system), onPath);
    RecordAll(DependencyReport([], []), CheckedDependencies(system), onPath)
  }

  /** One `append` to the available or the missing list. */
  function Record(r: DependencyReport, dependency: string, found: bool): DependencyReport
  {
    if found then r.(available := r.available + [dependency]) else r.(missing := r.missing + [dependency])
  }

  /** The checks in order, each appending the tool to one of the two lists. */
  function RecordAll(r: DependencyReport, ds: seq<string>, onPath: set<string>): DependencyReport
    decreases |ds|
  {
    if ds == [] then r else RecordAll(Record(r, ds[0], Found(ds[0], onPath)), ds[1..], onPath)
  }

  lemma {:induction false} RecordAllFilters(r: DependencyReport, ds: seq<string>, onPath: set<string>)
    ensures RecordAll(r, ds, onPath).available == r.available + Filter(ds, d => Found(d, onPath))
    ensures RecordAll(r, ds, onPath).missing == r.missing + Filter(ds, d => !Found(d, onPath))
    decreases |ds|
  {
    if ds != [] {
      RecordAllFilters(Record(r, ds[0], Found(ds[0], onPath)), ds[1..], onPath);
    }
  }

  /** The install hint `get_dependency_install_command` knows for a tool on a platform, if any. */
  function KnownHint(system: string, dependency: string): Option<string>
  {
    if system == "Windows" then
      if dependency == "ocrmypdf" then Some("pip install ocrmypdf")
      else if dependency == "tesseract" then Some(DownloadFrom("https://github.com/UB-Mannheim/tesseract/wiki"))
      else if dependency == "ghostscript" then Some(DownloadFrom("https://www.ghostscript.com/download/gsdnld.html"))
      else None
    else if system == "Darwin" then
      if dependency == "ocrmypdf" then Some("pip install ocrmypdf")
      else if dependency == "tesseract" then Some("brew install tesseract")
      else if dependency == "ghostscript" then Some("brew install ghostscript")
      else None
    else if system == "Linux" then
      if dependency == "ocrmypdf" then Some("pip install ocrmypdf")
      else if dependency == "tesseract" then Some("sudo apt-get install tesseract-ocr")
      else if dependency == "ghostscript" then Some("sudo apt-get install ghostscript")
      else if dependency == "libreoffice" then Some("sudo apt-get install libreoffice")
      else None
    else None
  }

  /** The Windows hints point to a download page. */
  function DownloadFrom(url: string): string
  {
    "Download from " + url
  }

  /** No known hint starts with the word the generic hint starts with. */
  lemma {:induction false} KnownHintsDiffer(system: string, dependency: string)
    requires KnownHint(system, dependency).Some?
    ensures KnownHint(system, dependency).value != FallbackInstallCommand(dependency)
  {
    var hint := KnownHint(system, dependency).value;
    assert FallbackInstallCommand(dependency)[0] == 'I';
    if dependency == "ocrmypdf" {
      assert hint == "pip install ocrmypdf";
    } else if system == "Windows" {
      assert hint[0] == 'D';
    } else if system == "Darwin" {
      assert hint[..4] == "brew";
    } else {
      assert hint[..4] == "sudo";
    }
  }

  /** The hint for a platform or tool the table does not know. */
  function FallbackInstallCommand(dependency: string): string
  {
    "Install " + dependency + " for your system"
  }

  /**
   * `get_dependency_install_command`: the platform's hint for the tool,
   * falling back to the generic hint exactly when the table has no entry,
   * so the generic hint is never mistaken for a known one.
   */
  function InstallCommand(system: string, dependency: string): (cmd: string)
    ensures KnownHint(system, dependency).Some? ==> cmd == KnownHint(system, dependency).value
    ensures cmd == FallbackInstallCommand(dependency) <==> KnownHint(system, dependency).None?
    ensures system !in {"Windows", "Darwin", "Linux"} ==> cmd == FallbackInstallCommand(dependency)
  {
    match KnownHint(system, dependency)
    case Some(hint) =>
      KnownHintsDiffer(system, dependency);
      hint
    case None => FallbackInstallCommand(dependency)
  }

  /** `[dep for dep in required if dep in missing]`. */
  function MissingRequired(required: seq<string>, missing: seq<string>): (r: seq<string>)
    ensures forall d :: d in r <==> d in required && d in missing
  {
    Filter(required, d => d in missing)
  }

  /**
   * `ensure_dependencies(required)`: raises `DependencyError` exactly when
   * some required tool is missing, naming the first such tool in `required`
   * order with its install hint.
   */
  function EnsureDependencies(required: seq<string>, onPath: set<string>, system: string): (r: Result<()>)
    ensures var missing := CheckSystemDependencies(onPath, system).missing;
      r.Raised? <==> exists i :: 0 <= i < |required| && required[i] in missing
    ensures var missing := CheckSystemDependencies(onPath, system).missing;
      r.Raised? ==> exists i :: (0 <= i < |required| && required[i] in missing &&
        (forall k :: 0 <= k < i ==> required[k] !in missing) &&
        r.error == DependencyError(required[i], Some(InstallCommand(system, required[i]))))
  {
    EnsureSelects(required, CheckSystemDependencies(onPath, system).missing, system);
    var missing := CheckSystemDependencies(onPath, system).missing;
    var missingRequired := MissingRequired(required, missing);
    MissingRequiredFirst(required, missing);
    if missingRequired == [] then Ok(())
    else Raised(DependencyError(missingRequired[0], Some(InstallCommand(system, missingRequired[0]))))
  }

  lemma {:induction false} EnsureSelects(required: seq<string>, missing: seq<string>, system: string)
    ensures var m := MissingRequired(required, missing);
      m != [] ==> exists i :: (0 <= i < |required| && required[i] in missing &&
        (forall k :: 0 <= k < i ==> required[k] !in missing) &&
        DependencyError(m[0], Some(InstallCommand(system, m[0]))) ==
          DependencyError(required[i], Some(InstallCommand(system, required[i]))))
  {
    MissingRequiredFirst(required, missing);
  }

  /** Nothing required is missing exactly when the selection is empty; otherwise it starts with the first missing one. */
  lemma {:induction false} MissingRequiredFirst(required: seq<string>, missing: seq<string>)
    ensures var m := MissingRequired(required, missing);
      (m == [] <==> forall i :: 0 <= i < |required| ==> required[i] !in missing) &&
      (m != [] ==> exists i :: (0 <= i < |required| && required[i] in missing && m[0] == required[i] &&
        forall k :: 0 <= k < i ==> required[k] !in missing))
  {
    var m := MissingRequired(required, missing);
    if m == [] {
      forall i | 0 <= i < |required| ensures required[i] !in missing {
        assert required[i] in required;
      }
    } else {
      assert m[0] in m;
      FilterFirst(required, d => d in missing);
    }
  }

  /** A tool that is never checked on a platform (LibreOffice off Linux) is never reported missing. */
  lemma {:induction false} UncheckedNeverMissing(onPath: set<string>, system: string)
    requires system != "Linux"
    ensures EnsureDependencies(["libreoffice"], onPath, system).Ok?
  {
    assert "libreoffice" !in CheckedDependencies(system);
  }

  // ---------------------------------------------------------------------
  // The text of a failed command

  /** A lower-case hexadecimal digit. */
  function HexDigit(d: nat): char
    requires d < 16
  {
    "0123456789abcdef"[d]
  }

  /** The value of a lower-case hexadecimal digit (0 for any other character). */
  function HexValue(c: char): (d: nat)
    ensures d < 16
  {
    if '0' <= c <= '9' then c as int - '0' as int
    else if 'a' <= c <= 'f' then c as int - 'a' as int + 10
    else 0
  }

  /** Reading a digit back gives its value. */
  lemma {:induction false} HexDigitValue(d: nat)
    requires d < 16
    ensures HexValue(HexDigit(d)) == d
  {
    var digits := "0123456789abcdef";
    assert digits[d] as int == if d < 10 then '0' as int + d else 'a' as int + d - 10;
  }

  /** The delimiter `repr` picks: double quotes only for a string with a single quote and no double quote. */
  function ReprQuote(s: string): (q: char)
    ensures q == '\'' || q == '"'
  {
    if '\'' in s && '"' !in s then '"' else '\''
  }

  /** Whether `repr` writes `c` as a `\xhh` escape: the ASCII control characters. */
  predicate IsControl(c: char)
  {
    c < ' ' || c as int == 0x7F
  }

  /** How `repr` writes one character inside a string delimited by `quote`. */
  function ReprChar(c: char, quote: char): string
  {
    if c == quote || c == '\\' then ['\\', c]
    else if c == '\t' then "\\t"
    else if c == '\n' then "\\n"
    else if c == '\r' then "\\r"
    else if IsControl(c) then "\\x" + [HexDigit(c as int / 16), HexDigit(c as int % 16)]
    else [c]
  }

  /** The characters of `s` as `repr` writes them between the delimiters. */
  function ReprBody(s: string, quote: char): string
  {
    if s == [] then [] else ReprChar(s[0], quote) + ReprBody(s[1..], quote)
  }

  /** `repr(s)` of a string. */
  function StrRepr(s: string): (r: string)
    ensures |r| >= 2 && r[0] == r[|r| - 1] == ReprQuote(s)
  {
    [ReprQuote(s)] + ReprBody(s, ReprQuote(s)) + [ReprQuote(s)]
  }

  /** Reading an escaped string body back: the inverse of `ReprBody`. */
  function Unescape(t: string): string
    decreases |t|
  {
    if t == [] then []
    else if t[0] == '\\' && |t| >= 2 then
      if t[1] == 't' then "\t" + Unescape(t[2..])
      else if t[1] == 'n' then "\n" + Unescape(t[2..])
      else if t[1] == 'r' then "\r" + Unescape(t[2..])
      else if t[1] == 'x' && |t| >= 4 then [(16 * HexValue(t[2]) + HexValue(t[3])) as char] + Unescape(t[4..])
      else [t[1]] + Unescape(t[2..])
    else [t[0]] + Unescape(t[1..])
  }

  /** One written character reads back as itself, whatever follows it. */
  lemma {:induction false} UnescapeChar(c: char, quote: char, rest: string)
    requires quote == '\'' || quote == '"'
    ensures Unescape(ReprChar(c, quote) + rest) == [c] + Unescape(rest)
  {
    if c == quote || c == '\\' || c == '\t' || c == '\n' || c == '\r' {
      UnescapePair(c, quote, rest);
    } else if IsControl(c) {
      UnescapeHex(c, quote, rest);
    } else {
      var t := ReprChar(c, quote) + rest;
      assert t[0] == c && t[1..] == rest;
    }
  }

  /** A two-character escape reads back as the character it stands for. */
  lemma {:induction false} UnescapePair(c: char, quote: char, rest: string)
    requires quote == '\'' || quote == '"'
    requires c == quote || c == '\\' || c == '\t' || c == '\n' || c == '\r'
    ensures Unescape(ReprChar(c, quote) + rest) == [c] + Unescape(rest)
  {
    var t := ReprChar(c, quote) + rest;
    assert |ReprChar(c, quote)| == 2 && t[0] == '\\';
    assert t[2..] == rest;
  }

  /** A `\xhh` escape reads back as the control character it stands for. */
  lemma {:induction false} UnescapeHex(c: char, quote: char, rest: string)
    requires quote == '\'' || quote == '"'
    requires c != quote && c != '\\' && c != '\t' && c != '\n' && c != '\r' && IsControl(c)
    ensures Unescape(ReprChar(c, quote) + rest) == [c] + Unescape(rest)
  {
    var n := c as int;
    var t := ReprChar(c, quote) + rest;
    assert ReprChar(c, quote) == ['\\', 'x', HexDigit(n / 16), HexDigit(n % 16)];
    HexDigitValue(n / 16);
    HexDigitValue(n % 16);
    assert t[2] == HexDigit(n / 16) && t[3] == HexDigit(n % 16);
    assert t[4..] == rest;
  }

  /** `repr` loses nothing: its body reads back as the string. */
  lemma {:induction false} ReprBodyRoundTrip(s: string, quote: char)
    requires quote == '\'' || quote == '"'
    ensures Unescape(ReprBody(s, quote)) == s
  {
    if s != [] {
      ReprBodyRoundTrip(s[1..], quote);
      UnescapeChar(s[0], quote, ReprBody(s[1..], quote));
      assert s == [s[0]] + s[1..];
    }
  }

  /** A plain argument (no quote, backslash or control character) is written unchanged between single quotes. */
  lemma {:induction false} PlainRepr(s: string)
    requires forall i :: 0 <= i < |s| ==> !IsControl(s[i]) && s[i] != '\'' && s[i] != '\\'
    ensures StrRepr(s) == "'" + s + "'"
  {
    assert ReprQuote(s) == '\'';
    PlainBody(s);
  }

  /** The body of a plain string is the string. */
  lemma {:induction false} PlainBody(s: string)
    requires forall i :: 0 <= i < |s| ==> !IsControl(s[i]) && s[i] != '\'' && s[i] != '\\'
    ensures ReprBody(s, '\'') == s
  {
    if s != [] {
      PlainBody(s[1..]);
      assert s == [s[0]] + s[1..];
    }
  }

  /** `repr` of an argument list: each argument's `repr`, comma-separated, in brackets. */
  function ArgumentsRepr(cmd: seq<string>): string
  {
    "[" + Join(", ", seq(|cmd|, i requires 0 <= i < |cmd| => StrRepr(cmd[i]))) + "]"
  }

  /**
   * The name of the `signal.Signals` member numbered `n` on Linux, or ""
   * when there is none; aliases take the name `signal` gives them.
   */
  function LinuxSignalName(n: int): string
  {
    if n == 1 then "SIGHUP"
    else if n == 2 then "SIGINT"
    else if n == 3 then "SIGQUIT"
    else if n == 4 then "SIGILL"
    else if n == 5 then "SIGTRAP"
    else if n == 6 then "SIGABRT"
    else if n == 7 then "SIGBUS"
    else if n == 8 then "SIGFPE"
    else if n == 9 then "SIGKILL"
    else if n == 10 then "SIGUSR1"
    else if n == 11 then "SIGSEGV"
    else if n == 12 then "SIGUSR2"
    else if n == 13 then "SIGPIPE"
    else if n == 14 then "SIGALRM"
    else if n == 15 then "SIGTERM"
    else if n == 16 then "SIGSTKFLT"
    else if n == 17 then "SIGCHLD"
    else if n == 18 then "SIGCONT"
    else if n == 19 then "SIGSTOP"
    else if n == 20 then "SIGTSTP"
    else if n == 21 then "SIGTTIN"
    else if n == 22 then "SIGTTOU"
    else if n == 23 then "SIGURG"
    else if n == 24 then "SIGXCPU"
    else if n == 25 then "SIGXFSZ"
    else if n == 26 then "SIGVTALRM"
    else if n == 27 then "SIGPROF"
    else if n == 28 then "SIGWINCH"
    else if n == 29 then "SIGIO"
    else if n == 30 then "SIGPWR"
    else if n == 31 then "SIGSYS"
    else if n == 34 then "SIGRTMIN"
    else if n == 64 then "SIGRTMAX"
    else ""
  }

  /**
   * How `CalledProcessError` describes a command's exit `code`: the exit
   * status for a positive code; for a negative one the signal that killed
   * it, as `repr` of its `signal.Signals` member, or "unknown signal".
   */
  function ExitDescription(code: int): string
  {
    if code >= 0 then "returned non-zero exit status " + IntToString(code) + "."
    else if LinuxSignalName(-code) != "" then "died with <Signals." + LinuxSignalName(-code) + ": " + IntToString(-code) + ">."
    else "died with unknown signal " + IntToString(-code) + "."
  }

  /** The program a command runs: its first argument. */
  function Program(cmd: seq<string>): string
  {
    if cmd == [] then "" else cmd[0]
  }

  /**
   * `run_command(cmd, timeout)` with `check=True`, the way every caller runs
   * it: a zero exit returns the files present afterwards; a non-zero exit
   * raises `CalledProcessError`, an expired timeout `TimeoutExpired`, and a
   * program that is not installed `FileNotFoundError`.
   */
  function RunCommand(tools: Invocation -> ToolOutcome, cmd: seq<string>, timeout: Option<int>): (r: Result<seq<Path>>)
    ensures var outcome := tools(Invocation(cmd, timeout));
      (r.Ok? <==> outcome.Exited? && outcome.code == 0) &&
      (r.Ok? ==> r.value == outcome.present) &&
      (outcome.TimedOut? <==> r.Raised? && r.error.kind == Timeout) &&
      (outcome.NotInstalled? <==> r.Raised? && r.error.kind == FileNotFound) &&
      (outcome.Exited? && outcome.code != 0 <==> r.Raised? && r.error.kind == CalledProcess)
    ensures r.Raised? && r.error.kind == FileNotFound ==> r.error.message == NoSuchFile(Program(cmd))
  {
    match tools(Invocation(cmd, timeout))
    case Exited(code, present) =>
      if code == 0 then Ok(present)
      else Raised(Builtin(CalledProcess,
        "Command '" + ArgumentsRepr(cmd) + "' " + ExitDescription(code)))
    case TimedOut =>
      Raised(Builtin(Timeout, "Command '" + ArgumentsRepr(cmd) + "' timed out after " +
        (if timeout.Some? then IntToString(timeout.value) else "None") + " seconds"))
    case NotInstalled => Raised(Builtin(FileNotFound, NoSuchFile(Program(cmd))))
  }

  /** The characters `sanitize_filename` replaces, in the order it replaces them. */
  const InvalidChars := "<>:\"|?*"

  /** The characters `sanitize_filename` strips from both ends. */
  const EdgeChars: set<char> := {'.', ' '}

  /** Each of `chars` in turn replaced by '_' throughout `s`. */
  function ReplaceEach(s: string, chars: string): string
    decreases |chars|
  {
    if chars == [] then s
    else Replace(ReplaceEach(s, chars[..|chars| - 1]), [chars[|chars| - 1]], "_")
  }

  /** After the replacements, every character of `chars` has become '_' and nothing else has changed. */
  lemma {:induction false} ReplaceEachChars(s: string, chars: string)
    requires '_' !in chars
    ensures |ReplaceEach(s, chars)| == |s|
    ensures forall i :: 0 <= i < |s| ==> ReplaceEach(s, chars)[i] == (if s[i] in chars then '_' else s[i])
    decreases |chars|
  {
    if chars != [] {
      var init := chars[..|chars| - 1];
      var c := chars[|chars| - 1];
      assert forall x :: x in chars <==> x in init || x == c by {
        assert chars == init + [c];
      }
      ReplaceEachChars(s, init);
      ReplaceOneChar(ReplaceEach(s, init), c, '_');
    }
  }

  /** What `sanitize_filename` returns: the replacements, then `strip('. ')`, then "unnamed" for nothing left. */
  function Sanitized(filename: string): string
  {
    var stripped := StripChars(ReplaceEach(filename, InvalidChars), EdgeChars);
    if stripped == "" then "unnamed" else stripped
  }

  /** A safe file name: non-empty, none of the invalid characters, no dot or space at either end. */
  predicate SafeName(name: string)
  {
    name != "" && (forall c :: c in InvalidChars ==> c !in name) &&
    name[0] !in EdgeChars && name[|name| - 1] !in EdgeChars
  }

  /** The replacements leave none of the invalid characters. */
  lemma {:induction false} ReplacedAvoids(filename: string)
    ensures forall c :: c in InvalidChars ==> c !in ReplaceEach(filename, InvalidChars)
  {
    var replaced := ReplaceEach(filename, InvalidChars);
    ReplaceEachChars(filename, InvalidChars);
    forall c | c in InvalidChars ensures c !in replaced {
      forall i | 0 <= i < |replaced| ensures replaced[i] != c {
      }
    }
  }

  /** Every sanitised name is safe. */
  lemma {:induction false} SanitizedIsSafe(filename: string)
    ensures SafeName(Sanitized(filename))
  {
    var replaced := ReplaceEach(filename, InvalidChars);
    var stripped := StripChars(replaced, EdgeChars);
    if stripped == "" {
      UnnamedIsSafe();
    } else {
      ReplacedAvoids(filename);
      StripCharsEnds(replaced, EdgeChars);
      forall c | c in InvalidChars ensures c !in stripped {
        StripCharsKeepsOut(replaced, EdgeChars, c);
      }
    }
  }

  /** The fallback name is safe. */
  lemma {:induction false} UnnamedIsSafe()
    ensures SafeName("unnamed")
  {
    var name := "unnamed";
    assert forall i :: 0 <= i < |name| ==> 'a' <= name[i] <= 'z';
    forall c | c in InvalidChars ensures c !in name {
      assert !('a' <= c <= 'z');
    }
  }

  /** A safe name is left as it is. */
  lemma {:induction false} SafeNameFixed(name: string)
    requires SafeName(name)
    ensures Sanitized(name) == name
  {
    ReplaceEachChars(name, InvalidChars);
    assert forall i :: 0 <= i < |name| ==> name[i] !in InvalidChars by {
      forall i | 0 <= i < |name| ensures name[i] !in InvalidChars {
        assert name[i] in name;
      }
    }
    assert ReplaceEach(name, InvalidChars) == name;
    StripCharsKeeps(name, EdgeChars);
  }

  /** Sanitising twice is sanitising once. */
  lemma {:induction false} SanitizedIdempotent(filename: string)
    ensures Sanitized(Sanitized(filename)) == Sanitized(filename)
  {
    SanitizedIsSafe(filename);
    SafeNameFixed(Sanitized(filename));
  }

  /**
   * `sanitize_filename`: each invalid character in turn replaced by '_',
   * dots and spaces stripped from both ends, and "unnamed" for an empty
   * result. The name it returns is safe and sanitising it again changes
   * nothing.
   */
  method SanitizeFilename(filename: string) returns (r: string)
    ensures r == Sanitized(filename)
    ensures SafeName(r)
    ensures Sanitized(r) == r
  {
    r := filename;
    var i := 0;
    while i < |InvalidChars|
      invariant 0 <= i <= |InvalidChars|
      invariant r == ReplaceEach(filename, InvalidChars[..i])
    {
      assert InvalidChars[..i + 1][..i] == InvalidChars[..i];
      r := Replace(r, [InvalidChars[i]], "_");
      i := i + 1;
    }
    assert InvalidChars[..i] == InvalidChars;
    r := StripChars(r, EdgeChars);
    if r == "" {
      r := "unnamed";
    }
    SanitizedIsSafe(filename);
    SanitizedIdempotent(filename);
  }
}
