/**
 * The provenance record a merged PDF carries: the merger writes the names of
 * the files it combined into the document-information dictionary (ISO
 * 32000-1, section 14.3.3) as "Combined from: a.pdf, b.docx", and the
 * verifiers read them back by removing the sentinel, stripping, splitting on
 * ',' and stripping each piece.
 */
module Provenance {
  import opened Base
  import opened Strings

  /** The sentinel that marks a provenance value. */
  const Marker := "Combined from:"

  /** The entries of the information dictionary that the script verifiers search, in order. */
  const ScanFields: seq<string> := ["/Subject", "/Keywords", "/Producer"]

  /** `f'Combined from: {", ".join(names)}'`. */
  function SubjectFor(names: seq<string>): string
  {
    Marker + " " + Join(", ", names)
  }

  /** Every provenance value the writer produces carries the sentinel, so the readers recognise it. */
  lemma {:induction false} SubjectCarriesMarker(names: seq<string>)
    ensures Contains(SubjectFor(names), Marker)
  {
    assert SubjectFor(names)[0..|Marker|] == Marker;
    ContainsAt(SubjectFor(names), Marker, 0);
  }

  /** `[f.strip() for f in pieces]`. */
  function StripEach(pieces: seq<string>): (r: seq<string>)
    ensures |r| == |pieces|
    ensures forall i :: 0 <= i < |r| ==> r[i] == Strip(pieces[i])
  {
    seq(|pieces|, i requires 0 <= i < |pieces| => Strip(pieces[i]))
  }

  /**
   * `[f.strip() for f in value.replace('Combined from:', '').strip().split(',')]`:
   * at least one piece (the empty string splits into one), and every piece is
   * comma-free and already stripped.
   */
  function ParseNames(value: string): (r: seq<string>)
    ensures |r| >= 1
    ensures forall i :: 0 <= i < |r| ==> ',' !in r[i] && Strip(r[i]) == r[i]
  {
    var pieces := Split(Strip(Replace(value, Marker, "")), ',');
    SplitPiecesFree(Strip(Replace(value, Marker, "")), ',');
    var r := StripEach(pieces);
    assert forall i :: 0 <= i < |r| ==> ',' !in r[i] && Strip(r[i]) == r[i] by {
      forall i | 0 <= i < |r| ensures ',' !in r[i] && Strip(r[i]) == r[i] {
        StripIdempotent(pieces[i]);
        StripCharsKeepsOut(pieces[i], Whitespace, ',');
      }
    }
    r
  }

  /** The non-empty entries of `xs`, in order: the `if f.strip()` filter on stripped pieces. */
  function NonEmpty(xs: seq<string>): (r: seq<string>)
    ensures forall n :: n in r <==> n in xs && n != ""
    ensures |r| <= |xs|
  {
    if xs == [] then []
    else
      assert forall n :: n in xs <==> n == xs[0] || n in xs[1..];
      (if xs[0] != "" then [xs[0]] else []) + NonEmpty(xs[1..])
  }

  /** The reader of the enhanced script: `[f.strip() for f in ....split(',') if f.strip()]`. */
  function ParseNonBlankNames(value: string): (r: seq<string>)
    ensures forall n :: n in r <==> n in ParseNames(value) && n != ""
  {
    NonEmpty(ParseNames(value))
  }

  /** Stripping each piece commutes with putting one piece in front. */
  lemma {:induction false} StripEachCons(a: string, xs: seq<string>)
    ensures StripEach([a] + xs) == [Strip(a)] + StripEach(xs)
  {
    var l := StripEach([a] + xs);
    var r := [Strip(a)] + StripEach(xs);
    forall i | 0 <= i < |l| ensures l[i] == r[i] {
      if i > 0 {
        assert ([a] + xs)[i] == xs[i - 1];
      }
    }
  }

  /**
   * A file name that survives the round trip: non-empty, without a comma,
   * not beginning or ending with whitespace, and not containing the sentinel.
   */
  predicate Recoverable(name: string)
  {
    name != [] && ',' !in name && name[0] !in Whitespace && name[|name| - 1] !in Whitespace
    && !Contains(name, Marker)
  }

  predicate AllRecoverable(names: seq<string>)
  {
    forall i :: 0 <= i < |names| ==> Recoverable(names[i])
  }

  /** The first and the last character of a join of non-empty names. */
  lemma {:induction false} JoinEnds(names: seq<string>)
    requires |names| > 0 && AllRecoverable(names)
    ensures var j := Join(", ", names);
      |j| > 0 && j[0] == names[0][0] && j[|j| - 1] == names[|names| - 1][|names[|names| - 1]| - 1]
  {
    if |names| > 1 {
      var tail := names[1..];
      assert AllRecoverable(tail) by {
        forall i | 0 <= i < |tail| ensures Recoverable(tail[i]) {
          assert tail[i] == names[i + 1];
        }
      }
      JoinEnds(tail);
      assert tail[|tail| - 1] == names[|names| - 1];
    }
  }

  /** The marker cannot begin at the space that leads a recoverable name. */
  lemma {:induction false} MarkerNotAtLead(n: string)
    requires Recoverable(n)
    ensures !Contains(" " + n, Marker)
  {
    if Contains(" " + n, Marker) {
      assert Marker[0] == 'C';
      ContainsAfterLead(' ', n, Marker);
      assert false;
    }
  }

  /** The marker occurs nowhere after the one `SubjectFor` puts in front. */
  lemma {:induction false} NoMarkerAfterLead(names: seq<string>)
    requires |names| > 0 && AllRecoverable(names)
    ensures !Contains(" " + Join(", ", names), Marker)
  {
    assert Recoverable(names[0]);
    if |names| == 1 {
      MarkerNotAtLead(names[0]);
    } else {
      var tail := names[1..];
      assert AllRecoverable(tail) by {
        forall i | 0 <= i < |tail| ensures Recoverable(tail[i]) {
          assert tail[i] == names[i + 1];
        }
      }
      NoMarkerAfterLead(tail);
      MarkerNotAtLead(names[0]);
      var a := " " + names[0];
      var b := " " + Join(", ", tail);
      assert " " + Join(", ", names) == a + [','] + b;
      if Contains(a + [','] + b, Marker) {
        assert ',' !in Marker;
        ContainsAcross(a, ',', b, Marker);
        assert false;
      }
    }
  }

  /** A recoverable name, with or without the space the join puts before it, strips to itself. */
  lemma {:induction false} StripLead(lead: string, n: string)
    requires lead == "" || lead == " "
    requires Recoverable(n)
    ensures Strip(lead + n) == n
  {
    if lead == " " {
      StripCharsDropsLead(' ', n, Whitespace);
    } else {
      assert lead + n == n;
    }
    StripCharsKeeps(n, Whitespace);
  }

  /** A join of two or more names is the first name, the comma, and the spaced join of the rest. */
  lemma {:induction false} JoinCons(lead: string, names: seq<string>)
    requires |names| > 1
    ensures lead + Join(", ", names) == (lead + names[0]) + [','] + (" " + Join(", ", names[1..]))
  {
    assert Join(", ", names) == names[0] + ", " + Join(", ", names[1..]);
  }

  /** Splitting a join of recoverable names on ',' and stripping each piece gives the names back. */
  lemma {:induction false} SplitJoined(lead: string, names: seq<string>)
    requires lead == "" || lead == " "
    requires |names| > 0 && AllRecoverable(names)
    ensures StripEach(Split(lead + Join(", ", names), ',')) == names
    decreases |names|
  {
    assert Recoverable(names[0]);
    if |names| == 1 {
      SplitJoinedOne(lead, names[0]);
      assert names == [names[0]];
    } else {
      RecoverableTail(names);
      SplitJoined(" ", names[1..]);
      SplitJoinedCons(lead, names);
    }
  }

  /** The step of `SplitJoined`: one more recoverable name in front of a list that splits back. */
  lemma {:induction false} SplitJoinedCons(lead: string, names: seq<string>)
    requires lead == "" || lead == " "
    requires |names| > 1 && Recoverable(names[0])
    requires StripEach(Split(" " + Join(", ", names[1..]), ',')) == names[1..]
    ensures StripEach(Split(lead + Join(", ", names), ',')) == names
  {
    var tail := names[1..];
    var a := lead + names[0];
    var b := " " + Join(", ", tail);
    assert lead + Join(", ", names) == a + [','] + b by {
      JoinCons(lead, names);
    }
    assert StripEach(Split(a + [','] + b, ',')) == [names[0]] + tail by {
      assert ',' !in a;
      StripLead(lead, names[0]);
      SplitJoinedStep(a, b, names[0], tail);
    }
    ConsTail(names);
  }

  lemma {:induction false} SplitJoinedOne(lead: string, n: string)
    requires lead == "" || lead == " "
    requires Recoverable(n)
    ensures StripEach(Split(lead + Join(", ", [n]), ',')) == [n]
  {
    var a := lead + n;
    assert ',' !in a;
    SplitWithoutSep(a, ',');
    assert Join(", ", [n]) == n;
    StripLead(lead, n);
    assert StripEach([a]) == [Strip(a)];
  }

  lemma {:induction false} SplitJoinedStep(a: string, b: string, first: string, tail: seq<string>)
    requires ',' !in a
    requires StripEach(Split(b, ',')) == tail
    requires Strip(a) == first
    ensures StripEach(Split(a + [','] + b, ',')) == [first] + tail
  {
    SplitAtSep(a, ',', b);
    StripEachCons(a, Split(b, ','));
  }

  /** The names after the first of a recoverable list are recoverable. */
  lemma {:induction false} RecoverableTail(names: seq<string>)
    requires |names| > 0 && AllRecoverable(names)
    ensures AllRecoverable(names[1..])
  {
    forall i | 0 <= i < |names| - 1 ensures Recoverable(names[1..][i]) {
      assert names[1..][i] == names[i + 1];
    }
  }

  /** What the writer joins, the reader recovers, name for name and in order. */
  lemma {:induction false} ParseNamesRoundTrip(names: seq<string>)
    requires |names| > 0 && AllRecoverable(names)
    ensures ParseNames(SubjectFor(names)) == names
  {
    var j := Join(", ", names);
    assert SubjectFor(names) == Marker + (" " + j);
    ReplaceAtFront(Marker, " " + j, "");
    NoMarkerAfterLead(names);
    ReplaceAbsent(" " + j, Marker, "");
    assert Replace(SubjectFor(names), Marker, "") == " " + j;
    StripCharsDropsLead(' ', j, Whitespace);
    JoinEnds(names);
    assert Recoverable(names[0]) && Recoverable(names[|names| - 1]);
    StripCharsKeeps(j, Whitespace);
    assert Strip(" " + j) == j;
    SplitJoined("", names);
    assert "" + j == j;
  }

  /**
   * Conversely, a list with a name that has a comma or surrounding whitespace
   * is never read back as written.
   */
  lemma {:induction false} RoundTripNeedsCleanNames(names: seq<string>)
    requires ParseNames(SubjectFor(names)) == names
    ensures forall i :: 0 <= i < |names| ==> ',' !in names[i] && Strip(names[i]) == names[i]
  {
  }

  /** With no names, the writer leaves "Combined from: ", which reads back as one empty name. */
  lemma {:induction false} EmptySubjectReadsBlank()
    ensures ParseNames(SubjectFor([])) == [""]
    ensures ParseNonBlankNames(SubjectFor([])) == []
  {
    assert SubjectFor([]) == Marker + " ";
    ReplaceAtFront(Marker, " ", "");
    assert !Contains(" ", Marker);
    ReplaceAbsent(" ", Marker, "");
    assert Replace(SubjectFor([]), Marker, "") == " ";
    assert Strip(" ") == "";
    assert Split("", ',') == [""];
    assert Strip("") == "";
  }

  /** The enhanced reader recovers the same names as the plain one when none is blank. */
  lemma {:induction false} NonBlankRoundTrip(names: seq<string>)
    requires |names| > 0 && AllRecoverable(names)
    ensures forall n :: n in ParseNonBlankNames(SubjectFor(names)) <==> n in names
  {
    ParseNamesRoundTrip(names);
    forall n | n in names ensures n != "" {
      var i :| 0 <= i < |names| && names[i] == n;
      assert Recoverable(names[i]);
    }
  }

  /** The value of the first of `fields` that is present in `meta` and contains the sentinel. */
  function FindInFields(meta: map<string, string>, fields: seq<string>): (r: Option<string>)
    ensures r.Some? <==> exists i :: 0 <= i < |fields| && fields[i] in meta && Contains(meta[fields[i]], Marker)
    ensures r.Some? ==> exists i :: 0 <= i < |fields| && fields[i] in meta && r.value == meta[fields[i]] &&
                          Contains(r.value, Marker) &&
                          forall k :: 0 <= k < i ==> !(fields[k] in meta && Contains(meta[fields[k]], Marker))
  {
    if fields == [] then None
    else if fields[0] in meta && Contains(meta[fields[0]], Marker) then Some(meta[fields[0]])
    else
      var r := FindInFields(meta, fields[1..]);
      assert forall i :: 1 <= i < |fields| ==> fields[i] == fields[1..][i - 1];
      r
  }
}
