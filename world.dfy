/**
 * The outside world the combiner works against, as values: the file system
 * it scans and validates, the PDF files PyPDF2 opens, and the external
 * programs (LibreOffice, ocrmypdf, docx2pdf) it runs.
 */
module World {
  import opened Base
  import opened Strings
  import opened Paths
  import opened Exceptions
  import opened Collections

  datatype NodeKind = RegularFile | Directory | Special

  /** What `stat`, `is_file`/`is_dir` and a permission probe report for one path. */
  datatype Node = Node(kind: NodeKind, size: nat, created: int, modified: int, readable: bool, writable: bool)

  /**
   * The file system at one moment: the node at each existing path, and every
   * path in the order in which the operating system enumerates directory
   * entries (which is the order of `glob` and `iterdir`).
   */
  datatype FileSystem = FileSystem(nodes: map<Path, Node>, listing: seq<Path>)
  {
    predicate Exists(p: Path) { p in nodes }
    predicate IsFile(p: Path) { p in nodes && nodes[p].kind == RegularFile }
    predicate IsDir(p: Path) { p in nodes && nodes[p].kind == Directory }

    /** No path is enumerated twice, as in any real directory listing. */
    predicate ListedOnce()
    {
      NoDuplicates(listing)
    }
  }

  /** `p` lies directly in `d`, or anywhere beneath it when `recursive`. */
  predicate Under(p: Path, d: Path, recursive: bool)
  {
    var ds := Parts(d);
    if recursive then |ds| <= |p.dir| && p.dir[..|ds|] == ds else p.dir == ds
  }

  /** `d.glob("*")` (or every entry beneath `d` when `recursive`) and `d.iterdir()`: entries below `d`, in OS order. */
  function Below(listing: seq<Path>, d: Path, recursive: bool): (r: seq<Path>)
    ensures forall p :: p in r <==> p in listing && Under(p, d, recursive)
    ensures |r| <= |listing|
  {
    Filter(listing, p => Under(p, d, recursive))
  }

  /**
   * `merger.write(path)`: the path becomes a regular file, and a path not
   * listed before is enumerated after every existing entry. Opening a
   * directory for writing raises, so the path is not a directory.
   */
  function WriteFile(fs: FileSystem, p: Path, node: Node): (r: FileSystem)
    requires !fs.IsDir(p) && node.kind == RegularFile
    ensures r.nodes == fs.nodes[p := node] && r.IsFile(p)
    ensures forall q :: q in r.listing <==> q in fs.listing || q == p
    ensures fs.ListedOnce() ==> r.ListedOnce()
  {
    if p in fs.listing then FileSystem(fs.nodes[p := node], fs.listing)
    else FileSystem(fs.nodes[p := node], fs.listing + [p])
  }

  /** A file written outside `d` leaves the entries directly in `d` as they were. */
  lemma {:induction false} WriteElsewhereKeepsBelow(fs: FileSystem, p: Path, node: Node, d: Path)
    requires !fs.IsDir(p) && node.kind == RegularFile
    requires !Under(p, d, false)
    ensures Below(WriteFile(fs, p, node).listing, d, false) == Below(fs.listing, d, false)
  {
    if p !in fs.listing {
      FilterSnoc(fs.listing, p, q => Under(q, d, false));
    }
  }

  /** The text PyPDF2 extracts from one page, or the exception extraction raises. */
  datatype PageText = Extracted(text: string) | ExtractFails(error: Error)

  /** A PDF document: its pages and its document-information dictionary. */
  datatype Pdf = Pdf(pages: seq<PageText>, metadata: map<string, string>)

  /** What PyPDF2 finds when it opens a file: a document, or a `PdfReadError`. */
  datatype PdfFile = Parsed(pdf: Pdf) | Corrupt(reason: string)

  type PdfStore = map<Path, PdfFile>

  /** The message of the `FileNotFoundError` raised when opening or `stat`-ing a missing path. */
  function NoSuchFile(name: string): string
  {
    "[Errno 2] No such file or directory: '" + name + "'"
  }

  /** `PdfReader(path)`: a missing file raises `FileNotFoundError`, a damaged one `PdfReadError`. */
  function OpenPdf(store: PdfStore, p: Path): (r: Result<Pdf>)
    ensures r.Ok? <==> p in store && store[p].Parsed?
    ensures r.Ok? ==> r.value == store[p].pdf
    ensures r.Raised? ==> (r.error.kind == PdfRead <==> p in store)
    ensures r.Raised? ==> r.error.kind in {PdfRead, FileNotFound}
  {
    if p !in store then Raised(Builtin(FileNotFound, NoSuchFile(ToString(p))))
    else match store[p]
      case Parsed(pdf) => Ok(pdf)
      case Corrupt(reason) => Raised(Builtin(PdfRead, reason))
  }

  /** One run of an external program: the argument vector and the timeout in seconds, if any. */
  datatype Invocation = Invocation(cmd: seq<string>, timeout: Option<int>)

  /**
   * How a run ends: the exit status together with the files present
   * afterwards in the directory the program writes to (in `glob` order), a
   * timeout, or the program not being installed.
   */
  datatype ToolOutcome = Exited(code: int, present: seq<Path>) | TimedOut | NotInstalled

  /**
   * What a call into a Python library that writes a file (docx2pdf's
   * `convert(input, output)`) does: it returns, leaving the files then
   * present in the output directory; the library cannot be imported; or it raises.
   */
  datatype LibraryCall = Returned(present: seq<Path>) | NotImportable | Threw(error: Error)

  /** Everything a run depends on besides its arguments. */
  datatype Env = Env(
    fs: FileSystem,
    pdfs: PdfStore,
    tools: Invocation -> ToolOutcome,
    docx2pdf: (Path, Path) -> LibraryCall,
    system: string,
    onPath: set<string>,
    systemTemp: Path)
}
