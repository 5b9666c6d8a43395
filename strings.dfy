/**
 * The handful of Python `str` operations the combiner relies on, written out
 * over `seq<char>`: `strip`, `strip(chars)`, `lower`, `split(sep)`,
 * `sep.join(parts)`, `replace(old, new)`, the `in` substring test and
 * `str(int)`.
 */
module Strings {

  /** Characters for which Python's `str.isspace()` holds; `str.strip()` removes these. */
  const Whitespace: set<char> :=
    {'\t', '\n', '\U{0B}', '\U{0C}', '\r', '\U{1C}', '\U{1D}', '\U{1E}', '\U{1F}', ' ',
     '\U{85}', '\U{A0}', '\U{1680}',
     '\U{2000}', '\U{2001}', '\U{2002}', '\U{2003}', '\U{2004}', '\U{2005}',
     '\U{2006}', '\U{2007}', '\U{2008}', '\U{2009}', '\U{200A}',
     '\U{2028}', '\U{2029}', '\U{202F}', '\U{205F}', '\U{3000}'}

  /** `s.lstrip(chars)`: drops the longest prefix made of characters of `cs`. */
  function TrimLeft(s: string, cs: set<char>): (r: string)
    ensures |r| <= |s| && r == s[|s| - |r|..]
    ensures r == [] || r[0] !in cs
    ensures forall i :: 0 <= i < |s| - |r| ==> s[i] in cs
    decreases |s|
  {
    if s != [] && s[0] in cs then TrimLeft(s[1..], cs) else s
  }

  /** `s.rstrip(chars)`: drops the longest suffix made of characters of `cs`. */
  function TrimRight(s: string, cs: set<char>): (r: string)
    ensures |r| <= |s| && r == s[..|r|]
    ensures r == [] || r[|r| - 1] !in cs
    ensures forall i :: |r| <= i < |s| ==> s[i] in cs
    decreases |s|
  {
    if s != [] && s[|s| - 1] in cs then TrimRight(s[..|s| - 1], cs) else s
  }

  /** `s.strip(chars)` with the characters given as a set. */
  function StripChars(s: string, cs: set<char>): string
  {
    TrimRight(TrimLeft(s, cs), cs)
  }

  /** `s.strip()`. */
  function Strip(s: string): string
  {
    StripChars(s, Whitespace)
  }

  /** Every character is whitespace; `BlankIsStrippedEmpty` shows this is Python's `not s.strip()`. */
  predicate IsBlank(s: string)
  {
    forall i :: 0 <= i < |s| ==> s[i] in Whitespace
  }

  /** A character that a string lacks is lacking after stripping too. */
  lemma {:induction false} StripCharsKeepsOut(s: string, cs: set<char>, c: char)
    requires c !in s
    ensures c !in StripChars(s, cs)
  {
    var l := TrimLeft(s, cs);
    assert c !in l by {
      forall k | 0 <= k < |l| ensures l[k] != c {
        assert l[k] == s[|s| - |l| + k];
      }
    }
    var r := TrimRight(l, cs);
    forall k | 0 <= k < |r| ensures r[k] != c {
      assert r[k] == l[k];
    }
  }

  /** Stripping leaves a string alone whose two ends are already outside `cs`. */
  lemma {:induction false} StripCharsKeeps(s: string, cs: set<char>)
    requires s == [] || (s[0] !in cs && s[|s| - 1] !in cs)
    ensures StripChars(s, cs) == s
  {
  }

  /** Whatever `strip(chars)` returns begins and ends outside `cs`. */
  lemma {:induction false} StripCharsEnds(s: string, cs: set<char>)
    ensures var r := StripChars(s, cs); r == [] || (r[0] !in cs && r[|r| - 1] !in cs)
  {
    var l := TrimLeft(s, cs);
    var r := TrimRight(l, cs);
    if r != [] {
      assert r[0] == l[0];
    }
  }

  /** Stripping twice strips no more than stripping once. */
  lemma {:induction false} StripIdempotent(s: string)
    ensures Strip(Strip(s)) == Strip(s)
  {
    StripCharsEnds(s, Whitespace);
    StripCharsKeeps(Strip(s), Whitespace);
  }

  /** One leading character from `cs` disappears under stripping. */
  lemma {:induction false} StripCharsDropsLead(c: char, s: string, cs: set<char>)
    requires c in cs
    ensures StripChars([c] + s, cs) == StripChars(s, cs)
  {
    assert ([c] + s)[1..] == s;
  }

  /** Stripping leaves nothing exactly when the string is made only of whitespace. */
  lemma {:induction false} BlankIsStrippedEmpty(s: string)
    ensures Strip(s) == "" <==> IsBlank(s)
  {
    var l := TrimLeft(s, Whitespace);
    var r := TrimRight(l, Whitespace);
    if Strip(s) == "" {
      assert r == [];
      forall i | 0 <= i < |s| ensures s[i] in Whitespace {
        if i >= |s| - |l| {
          assert s[i] == l[i - (|s| - |l|)];
        }
      }
    }
    if IsBlank(s) {
      assert l == [];
    }
  }

  /** Python's `str.lower()` on ASCII letters; other characters are left as they are. */
  function LowerChar(c: char): char
  {
    if 'A' <= c <= 'Z' then (c as int + 32) as char else c
  }

  function Lower(s: string): (r: string)
    ensures |r| == |s|
    ensures forall i :: 0 <= i < |s| ==> r[i] == LowerChar(s[i])
  {
    seq(|s|, i requires 0 <= i < |s| => LowerChar(s[i]))
  }

  /** `s.split(sep)` for a one-character separator: `"".split(",") == [""]`. */
  function Split(s: string, sep: char): (r: seq<string>)
    ensures |r| >= 1
    decreases |s|
  {
    if s == [] then [[]]
    else
      var rest := Split(s[1..], sep);
      if s[0] == sep then [[]] + rest else [[s[0]] + rest[0]] + rest[1..]
  }

  /** A string without the separator splits into itself. */
  lemma {:induction false} SplitWithoutSep(s: string, sep: char)
    requires sep !in s
    ensures Split(s, sep) == [s]
    decreases |s|
  {
    if s != [] {
      SplitWithoutSep(s[1..], sep);
      assert [s[0]] + s[1..] == s;
    }
  }

  /** Splitting at the first separator: the piece before it comes out whole. */
  lemma {:induction false} SplitAtSep(a: string, sep: char, b: string)
    requires sep !in a
    ensures Split(a + [sep] + b, sep) == [a] + Split(b, sep)
    decreases |a|
  {
    if a == [] {
      assert a + [sep] + b == [sep] + b;
      assert ([sep] + b)[1..] == b;
    } else {
      var s := a + [sep] + b;
      assert s[0] == a[0] && s[1..] == a[1..] + [sep] + b;
      SplitAtSep(a[1..], sep, b);
      assert [a[0]] + a[1..] == a;
    }
  }

  /** No piece of a split contains the separator. */
  lemma {:induction false} SplitPiecesFree(s: string, sep: char)
    ensures forall i :: 0 <= i < |Split(s, sep)| ==> sep !in Split(s, sep)[i]
    decreases |s|
  {
    if s != [] {
      SplitPiecesFree(s[1..], sep);
      var rest := Split(s[1..], sep);
      var r := Split(s, sep);
      forall i | 0 <= i < |r| ensures sep !in r[i] {
        if s[0] == sep {
          if i > 0 {
            assert r[i] == rest[i - 1];
          }
        } else if i == 0 {
          assert r[0] == [s[0]] + rest[0];
        } else {
          assert r[i] == rest[i];
        }
      }
    }
  }

  /** Joining the pieces of a split with the separator gives back the string. */
  lemma {:induction false} JoinSplit(s: string, sep: char)
    ensures Join([sep], Split(s, sep)) == s
    decreases |s|
  {
    if s != [] {
      JoinSplit(s[1..], sep);
      var rest := Split(s[1..], sep);
      var r := Split(s, sep);
      if s[0] == sep {
        assert r[1..] == rest;
        assert s == [sep] + s[1..];
      } else {
        assert r[1..] == rest[1..];
        assert s == [s[0]] + s[1..];
        if |rest| > 1 {
          assert Join([sep], rest) == rest[0] + [sep] + Join([sep], rest[1..]);
        }
      }
    }
  }

  /** `sep.join(parts)`. */
  function Join(sep: string, parts: seq<string>): string
  {
    if |parts| == 0 then ""
    else if |parts| == 1 then parts[0]
    else parts[0] + sep + Join(sep, parts[1..])
  }

  /** `p` occurs in `s` starting at position `i`. */
  predicate OccursAt(s: string, p: string, i: int)
  {
    0 <= i <= |s| - |p| && s[i..i + |p|] == p
  }

  /** Python's `p in s` for strings: `p` occurs somewhere in `s`. */
  predicate Contains(s: string, p: string)
  {
    exists i :: 0 <= i <= |s| - |p| && OccursAt(s, p, i)
  }

  /** A witness position shows that `p` occurs in `s`. */
  lemma {:induction false} ContainsAt(s: string, p: string, i: int)
    requires OccursAt(s, p, i)
    ensures Contains(s, p)
  {
  }

  /** An occurrence in `a + [c] + b` of a pattern without `c` lies within `a` or within `b`. */
  lemma {:induction false} ContainsAcross(a: string, c: char, b: string, p: string)
    requires c !in p
    requires Contains(a + [c] + b, p)
    ensures Contains(a, p) || Contains(b, p)
  {
    var s := a + [c] + b;
    var i :| OccursAt(s, p, i);
    assert OccursAt(s, p, i);
    if i + |p| <= |a| {
      assert a[i..i + |p|] == s[i..i + |p|];
      ContainsAt(a, p, i);
    } else if i > |a| {
      assert b[i - |a| - 1..i - |a| - 1 + |p|] == s[i..i + |p|];
      ContainsAt(b, p, i - |a| - 1);
    } else {
      WindowChar(s, p, i, |a|);
      assert false;
    }
  }

  /** Every character inside an occurrence of `p` is a character of `p`. */
  lemma {:induction false} WindowChar(s: string, p: string, i: int, k: int)
    requires OccursAt(s, p, i) && i <= k < i + |p|
    ensures s[k] in p
  {
    assert s[k] == s[i..i + |p|][k - i];
  }

  /** An occurrence in `[c] + b` of a pattern that does not begin with `c` lies within `b`. */
  lemma {:induction false} ContainsAfterLead(c: char, b: string, p: string)
    requires |p| > 0 && p[0] != c
    requires Contains([c] + b, p)
    ensures Contains(b, p)
  {
    var s := [c] + b;
    var i :| OccursAt(s, p, i);
    assert OccursAt(s, p, i);
    assert i != 0;
    assert b[i - 1..i - 1 + |p|] == s[i..i + |p|];
    ContainsAt(b, p, i - 1);
  }

  /**
   * `s.replace(pat, rep)`: every non-overlapping occurrence of `pat`, scanning
   * from the left, is replaced by `rep`; an empty `pat` inserts `rep` around
   * every character.
   */
  function Replace(s: string, pat: string, rep: string): string
    decreases |s|
  {
    if |pat| == 0 then rep + (if s == [] then [] else [s[0]] + Replace(s[1..], pat, rep))
    else if |s| < |pat| then s
    else if s[..|pat|] == pat then rep + Replace(s[|pat|..], pat, rep)
    else [s[0]] + Replace(s[1..], pat, rep)
  }

  /** Replacing a non-empty pattern that does not occur changes nothing. */
  lemma {:induction false} ReplaceAbsent(s: string, pat: string, rep: string)
    requires |pat| > 0 && !Contains(s, pat)
    ensures Replace(s, pat, rep) == s
    decreases |s|
  {
    if |s| >= |pat| {
      if s[..|pat|] == pat {
        ContainsAt(s, pat, 0);
      }
      assert !Contains(s[1..], pat) by {
        if Contains(s[1..], pat) {
          var i :| OccursAt(s[1..], pat, i);
          assert OccursAt(s[1..], pat, i);
          assert s[i + 1..i + 1 + |pat|] == s[1..][i..i + |pat|];
          ContainsAt(s, pat, i + 1);
        }
      }
      ReplaceAbsent(s[1..], pat, rep);
      assert [s[0]] + s[1..] == s;
    }
  }

  /** A pattern at the front is replaced, and scanning resumes right after it. */
  lemma {:induction false} ReplaceAtFront(pat: string, rest: string, rep: string)
    requires |pat| > 0
    ensures Replace(pat + rest, pat, rep) == rep + Replace(rest, pat, rep)
  {
    var s := pat + rest;
    assert s[..|pat|] == pat;
    assert s[|pat|..] == rest;
  }

  /** Replacing one character by another is a character-by-character substitution. */
  lemma {:induction false} ReplaceOneChar(s: string, c: char, d: char)
    ensures |Replace(s, [c], [d])| == |s|
    ensures forall i :: 0 <= i < |s| ==> Replace(s, [c], [d])[i] == (if s[i] == c then d else s[i])
    decreases |s|
  {
    if s != [] {
      ReplaceOneChar(s[1..], c, d);
      var r := Replace(s, [c], [d]);
      var t := Replace(s[1..], [c], [d]);
      assert s[..1] == [s[0]];
      assert r == (if s[0] == c then [d] else [s[0]]) + t;
      forall i | 0 <= i < |s| ensures r[i] == (if s[i] == c then d else s[i]) {
        if i > 0 {
          assert r[i] == t[i - 1] && s[i] == s[1..][i - 1];
        }
      }
    }
  }

  function DigitChar(d: nat): char
    requires d < 10
  {
    ('0' as int + d) as char
  }

  /** `str(n)` for a natural number: decimal digits, most significant first. */
  function NatToString(n: nat): (r: string)
    ensures |r| >= 1
    ensures forall i :: 0 <= i < |r| ==> '0' <= r[i] <= '9'
  {
    if n < 10 then [DigitChar(n)] else NatToString(n / 10) + [DigitChar(n % 10)]
  }

  /** `str(i)` for any integer. */
  function IntToString(i: int): string
  {
    if i < 0 then "-" + NatToString(-i) else NatToString(i)
  }
}
