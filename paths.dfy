/**
 * `pathlib` paths as the combiner uses them: a path is the list of its
 * parent's parts and a final component (`name`); `suffix` and `stem` follow
 * `PurePath`, and `d / name` builds a child path. An absolute path starts
 * with an empty part, so that joining the parts with "/" renders it.
 */
module Paths {
  import opened Strings
  import opened Order

  datatype Path = Path(dir: seq<string>, name: string)

  /** All parts of the path, the final component last. */
  function Parts(p: Path): seq<string>
  {
    p.dir + [p.name]
  }

  /** `d / name`. */
  function Child(d: Path, name: string): Path
  {
    Path(Parts(d), name)
  }

  /** `[p.name for p in paths]`. */
  function NamesOf(paths: seq<Path>): (names: seq<string>)
    ensures |names| == |paths|
    ensures forall i :: 0 <= i < |paths| ==> names[i] == paths[i].name
  {
    seq(|paths|, i requires 0 <= i < |paths| => paths[i].name)
  }

  /** `p.parent`; a relative path with one part has the parent ".". */
  function Parent(p: Path): Path
  {
    if |p.dir| == 0 then Path([], ".") else Path(p.dir[..|p.dir| - 1], p.dir[|p.dir| - 1])
  }

  /** `str(p)`. */
  function ToString(p: Path): string
  {
    Join("/", Parts(p))
  }

  /** `s.rfind('.')`: the position of the last dot, or -1. */
  function LastDot(s: string): (i: int)
    ensures -1 <= i < |s|
    ensures i >= 0 ==> s[i] == '.'
    ensures forall k :: i < k < |s| ==> s[k] != '.'
    decreases |s|
  {
    if s == [] then -1
    else if s[|s| - 1] == '.' then |s| - 1
    else LastDot(s[..|s| - 1])
  }

  /** `PurePath.suffix` of a name: from the last dot, unless that dot leads or ends the name. */
  function Suffix(name: string): string
  {
    var i := LastDot(name);
    if 0 < i < |name| - 1 then name[i..] else ""
  }

  /** `PurePath.stem` of a name: the name without its suffix. */
  function Stem(name: string): string
  {
    var i := LastDot(name);
    if 0 < i < |name| - 1 then name[..i] else name
  }

  /** A name is its stem followed by its suffix, and a suffix is empty or starts with a dot. */
  lemma {:induction false} StemThenSuffix(name: string)
    ensures Stem(name) + Suffix(name) == name
    ensures Suffix(name) == "" || (|Suffix(name)| >= 2 && Suffix(name)[0] == '.' && '.' !in Suffix(name)[1..])
  {
    var i := LastDot(name);
    if 0 < i < |name| - 1 {
      assert name[..i] + name[i..] == name;
      forall k | 0 <= k < |name[i..][1..]| ensures name[i..][1..][k] != '.' {
        assert name[i..][1..][k] == name[i + 1 + k];
      }
    }
  }

  /** Lower-casing moves no dot, so the last dot is found at the same place. */
  lemma {:induction false} LastDotLower(s: string)
    ensures LastDot(Lower(s)) == LastDot(s)
    decreases |s|
  {
    if s != [] {
      var l := Lower(s);
      assert l[|l| - 1] == LowerChar(s[|s| - 1]);
      if s[|s| - 1] != '.' {
        assert l[..|l| - 1] == Lower(s[..|s| - 1]);
        LastDotLower(s[..|s| - 1]);
      }
    }
  }

  /** Taking the suffix and lower-casing commute: `Path(n.lower()).suffix == Path(n).suffix.lower()`. */
  lemma {:induction false} SuffixLower(name: string)
    ensures Suffix(Lower(name)) == Lower(Suffix(name))
  {
    LastDotLower(name);
    var i := LastDot(name);
    if 0 < i < |name| - 1 {
      assert Lower(name)[i..] == Lower(name[i..]);
    }
  }

  /** A name built as `f"{stem}.pdf"` from a non-empty stem has the suffix ".pdf" and that stem. */
  lemma {:induction false} PdfNameParts(stem: string)
    requires stem != ""
    ensures Suffix(stem + ".pdf") == ".pdf"
    ensures Stem(stem + ".pdf") == stem
  {
    var n := stem + ".pdf";
    assert n[|n| - 1] != '.' && n[|n| - 2] != '.' && n[|n| - 3] != '.' && n[|n| - 4] == '.';
    assert n[..|n| - 1][..|n| - 2] == n[..|n| - 2];
    assert n[..|n| - 2][..|n| - 3] == n[..|n| - 3];
    assert LastDot(n) == LastDot(n[..|n| - 1]) == LastDot(n[..|n| - 2]) == LastDot(n[..|n| - 3]) == |stem|;
  }

  /** A stem is never empty when the name is not. */
  lemma {:induction false} StemNonEmpty(name: string)
    requires name != ""
    ensures Stem(name) != ""
  {
  }

  /** `a < b` on `pathlib` paths: their parts, compared as lists. */
  predicate PathLess(a: Path, b: Path)
  {
    PartsLess(Parts(a), Parts(b))
  }

  /** Different paths have different parts. */
  lemma {:induction false} PartsInjective(a: Path, b: Path)
    requires Parts(a) == Parts(b)
    ensures a == b
  {
    assert a.dir == Parts(a)[..|Parts(a)| - 1] && b.dir == Parts(b)[..|Parts(b)| - 1];
  }

  /** Every path paired with its parts as its sort key. */
  function PathKeys(ps: seq<Path>): (ks: seq<Keyed<Path>>)
    ensures |ks| == |ps|
    ensures forall i :: 0 <= i < |ps| ==> ks[i] == Keyed(PathKey(Parts(ps[i])), ps[i])
  {
    seq(|ps|, i requires 0 <= i < |ps| => Keyed(PathKey(Parts(ps[i])), ps[i]))
  }

  /** `sorted(paths)`: the same entries, as often as before, in ascending path order. */
  function SortPaths(ps: seq<Path>): (r: seq<Path>)
    ensures |r| == |ps|
    ensures multiset(r) == multiset(ps)
    ensures forall i, j :: 0 <= i < j < |r| ==> !PathLess(r[j], r[i])
  {
    SortPathsFacts(ps);
    Items(SortByKey(PathKeys(ps), false))
  }

  lemma {:induction false} SortPathsFacts(ps: seq<Path>)
    ensures var r := Items(SortByKey(PathKeys(ps), false));
      |r| == |ps| && multiset(r) == multiset(ps) &&
      forall i, j :: 0 <= i < j < |r| ==> !PathLess(r[j], r[i])
  {
    var ks := PathKeys(ps);
    var key := (p: Path) => PathKey(Parts(p));
    SortedItems(ks, key, false);
    assert Items(ks) == ps;
    var r := Items(SortByKey(ks, false));
    forall i, j | 0 <= i < j < |r| ensures !PathLess(r[j], r[i]) {
      assert !Less(key(r[j]), key(r[i]), false);
    }
  }
}
