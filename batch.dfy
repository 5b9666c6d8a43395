/**
 * The shape shared by the batch OCR pass and the batch conversion pass:
 * documents are visited in order, those that need work are handed to a
 * per-document operation, each result is recorded under the document's
 * path, and the first operation that raises ends the pass.
 */
module Batch {
  import opened Base
  import opened Exceptions
  import opened Paths
  import opened Models

  /** Where a pass stopped: the position of the document and what its operation raised. */
  datatype Failure = Failure(index: nat, error: Error)

  /** The mapping a pass built and, when it stopped early, why. */
  datatype Pass = Pass(results: map<string, Path>, failure: Option<Failure>)

  /** The pass from position `i` on, starting from the mapping `results`. */
  function PassFrom(work: DocumentInfo -> bool, run: DocumentInfo -> Result<Path>, docs: seq<DocumentInfo>,
                    i: nat, results: map<string, Path>): Pass
    requires i <= |docs|
    decreases |docs| - i
  {
    if i == |docs| then Pass(results, None)
    else if !work(docs[i]) then PassFrom(work, run, docs, i + 1, results)
    else
      match run(docs[i])
      case Ok(p) => PassFrom(work, run, docs, i + 1, results[Key(docs[i]) := p])
      case Raised(e) => Pass(results, Some(Failure(i, e)))
  }

  /**
   * A pass stops exactly when some document it works on fails, and then at
   * the first such document, with that document's error.
   */
  lemma {:induction false} PassFailure(work: DocumentInfo -> bool, run: DocumentInfo -> Result<Path>, docs: seq<DocumentInfo>,
                                       i: nat, results: map<string, Path>)
    requires i <= |docs|
    ensures var pass := PassFrom(work, run, docs, i, results);
      pass.failure.None? <==> forall j :: i <= j < |docs| && work(docs[j]) ==> run(docs[j]).Ok?
    ensures var pass := PassFrom(work, run, docs, i, results);
      pass.failure.Some? ==> (var f := pass.failure.value;
        i <= f.index < |docs| && work(docs[f.index]) && run(docs[f.index]) == Raised(f.error) &&
        forall j :: i <= j < f.index && work(docs[j]) ==> run(docs[j]).Ok?)
    decreases |docs| - i
  {
    if i < |docs| {
      if !work(docs[i]) {
        PassFailure(work, run, docs, i + 1, results);
      } else if run(docs[i]).Ok? {
        PassFailure(work, run, docs, i + 1, results[Key(docs[i]) := run(docs[i]).value]);
      }
    }
  }

  /**
   * A pass that ran to the end has an entry for every document it worked
   * on and for every entry it started with, and no other; when no two
   * documents share a path, each worked-on document maps to its
   * operation's result and every other starting entry is kept.
   */
  lemma {:induction false} PassResults(work: DocumentInfo -> bool, run: DocumentInfo -> Result<Path>, docs: seq<DocumentInfo>,
                                       i: nat, results: map<string, Path>)
    requires i <= |docs|
    requires PassFrom(work, run, docs, i, results).failure.None?
    ensures var m := PassFrom(work, run, docs, i, results).results;
      forall k :: k in m <==> k in results || exists j :: i <= j < |docs| && work(docs[j]) && Key(docs[j]) == k
    ensures var m := PassFrom(work, run, docs, i, results).results;
      UniqueKeys(docs) ==> forall j :: i <= j < |docs| && work(docs[j]) ==> run(docs[j]) == Ok(m[Key(docs[j])])
    ensures var m := PassFrom(work, run, docs, i, results).results;
      forall k :: k in results && (forall j :: i <= j < |docs| && work(docs[j]) ==> Key(docs[j]) != k) ==> m[k] == results[k]
    decreases |docs| - i
  {
    PassKeys(work, run, docs, i, results);
    PassUnchanged(work, run, docs, i, results);
    PassValues(work, run, docs, i, results);
  }

  /** The mapping after one more document: its result is recorded when the pass works on it. */
  function Advance(work: DocumentInfo -> bool, run: DocumentInfo -> Result<Path>, d: DocumentInfo,
                   results: map<string, Path>): map<string, Path>
  {
    if work(d) && run(d).Ok? then results[Key(d) := run(d).value] else results
  }

  /** A pass that runs to the end from `i` does so from `i + 1` on the advanced mapping. */
  lemma {:induction false} PassNext(work: DocumentInfo -> bool, run: DocumentInfo -> Result<Path>, docs: seq<DocumentInfo>,
                                    i: nat, results: map<string, Path>)
    requires i < |docs|
    requires PassFrom(work, run, docs, i, results).failure.None?
    ensures work(docs[i]) ==> run(docs[i]).Ok?
    ensures PassFrom(work, run, docs, i, results) == PassFrom(work, run, docs, i + 1, Advance(work, run, docs[i], results))
  {
  }

  /** The keys of a completed pass: the starting ones and those of the documents worked on. */
  lemma {:induction false} PassKeys(work: DocumentInfo -> bool, run: DocumentInfo -> Result<Path>, docs: seq<DocumentInfo>,
                                    i: nat, results: map<string, Path>)
    requires i <= |docs|
    requires PassFrom(work, run, docs, i, results).failure.None?
    ensures var m := PassFrom(work, run, docs, i, results).results;
      forall k :: k in m <==> k in results || exists j :: i <= j < |docs| && work(docs[j]) && Key(docs[j]) == k
    decreases |docs| - i
  {
    if i < |docs| {
      var next := Advance(work, run, docs[i], results);
      PassNext(work, run, docs, i, results);
      PassKeys(work, run, docs, i + 1, next);
      var m := PassFrom(work, run, docs, i, results).results;
      forall k ensures k in m <==> k in results || exists j :: i <= j < |docs| && work(docs[j]) && Key(docs[j]) == k {
        if k in m && k !in results && !(exists j :: i + 1 <= j < |docs| && work(docs[j]) && Key(docs[j]) == k) {
          assert work(docs[i]) && Key(docs[i]) == k;
        }
        if exists j :: i <= j < |docs| && work(docs[j]) && Key(docs[j]) == k {
          var j :| i <= j < |docs| && work(docs[j]) && Key(docs[j]) == k;
          if j == i {
            assert k in next;
          }
        }
      }
    }
  }

  /** A starting entry no later document worked on shares is still there, unchanged. */
  lemma {:induction false} PassUnchanged(work: DocumentInfo -> bool, run: DocumentInfo -> Result<Path>, docs: seq<DocumentInfo>,
                                         i: nat, results: map<string, Path>)
    requires i <= |docs|
    requires PassFrom(work, run, docs, i, results).failure.None?
    ensures var m := PassFrom(work, run, docs, i, results).results;
      forall k :: k in results && (forall j :: i <= j < |docs| && work(docs[j]) ==> Key(docs[j]) != k) ==>
        k in m && m[k] == results[k]
    decreases |docs| - i
  {
    if i < |docs| {
      var next := Advance(work, run, docs[i], results);
      PassNext(work, run, docs, i, results);
      PassUnchanged(work, run, docs, i + 1, next);
    }
  }

  /** With keys unique, each document the pass worked on maps to its operation's result. */
  lemma {:induction false} PassValues(work: DocumentInfo -> bool, run: DocumentInfo -> Result<Path>, docs: seq<DocumentInfo>,
                                      i: nat, results: map<string, Path>)
    requires i <= |docs|
    requires PassFrom(work, run, docs, i, results).failure.None?
    ensures var m := PassFrom(work, run, docs, i, results).results;
      UniqueKeys(docs) ==> forall j :: i <= j < |docs| && work(docs[j]) ==> Key(docs[j]) in m && run(docs[j]) == Ok(m[Key(docs[j])])
    decreases |docs| - i
  {
    if i < |docs| && UniqueKeys(docs) {
      var next := Advance(work, run, docs[i], results);
      PassNext(work, run, docs, i, results);
      PassValues(work, run, docs, i + 1, next);
      if work(docs[i]) {
        PassUnchanged(work, run, docs, i + 1, next);
        assert forall j :: i + 1 <= j < |docs| ==> Key(docs[i]) != Key(docs[j]);
      }
    }
  }

  /** The mapping with each of the first `n` documents that `keep` selects mapped to its own path. */
  function AddSelf(keep: DocumentInfo -> bool, docs: seq<DocumentInfo>, n: nat, results: map<string, Path>): (m: map<string, Path>)
    requires n <= |docs|
  {
    if n == 0 then results
    else
      var m := AddSelf(keep, docs, n - 1, results);
      if keep(docs[n - 1]) then m[Key(docs[n - 1]) := docs[n - 1].path] else m
  }

  /**
   * After `AddSelf` the mapping holds the starting entries and one per
   * selected document; when no two documents share a path, each selected
   * document maps to itself and every other starting entry is kept.
   */
  lemma {:induction false} AddSelfFacts(keep: DocumentInfo -> bool, docs: seq<DocumentInfo>, n: nat, results: map<string, Path>)
    requires n <= |docs|
    ensures var m := AddSelf(keep, docs, n, results);
      forall k :: k in m <==> k in results || exists i :: 0 <= i < n && keep(docs[i]) && Key(docs[i]) == k
    ensures var m := AddSelf(keep, docs, n, results);
      UniqueKeys(docs) ==> forall i :: 0 <= i < n && keep(docs[i]) ==> m[Key(docs[i])] == docs[i].path
    ensures var m := AddSelf(keep, docs, n, results);
      forall k :: k in results && (forall i :: 0 <= i < n && keep(docs[i]) ==> Key(docs[i]) != k) ==> m[k] == results[k]
  {
    if n > 0 {
      AddSelfFacts(keep, docs, n - 1, results);
    }
  }

  /** A document the pass worked on has an entry: its operation's result when no two documents share a path. */
  lemma {:induction false} PassAt(work: DocumentInfo -> bool, run: DocumentInfo -> Result<Path>, docs: seq<DocumentInfo>,
               results: map<string, Path>, i: nat)
    requires PassFrom(work, run, docs, 0, results).failure.None?
    requires i < |docs| && work(docs[i])
    ensures Key(docs[i]) in PassFrom(work, run, docs, 0, results).results
    ensures UniqueKeys(docs) ==> run(docs[i]) == Ok(PassFrom(work, run, docs, 0, results).results[Key(docs[i])])
  {
    PassResults(work, run, docs, 0, results);
  }

  /** A starting entry survives the pass, unchanged when no document the pass worked on has its key. */
  lemma {:induction false} PassKept(work: DocumentInfo -> bool, run: DocumentInfo -> Result<Path>, docs: seq<DocumentInfo>,
                 results: map<string, Path>, k: string)
    requires PassFrom(work, run, docs, 0, results).failure.None?
    requires k in results
    ensures k in PassFrom(work, run, docs, 0, results).results
    ensures (forall j :: 0 <= j < |docs| && work(docs[j]) ==> Key(docs[j]) != k) ==>
      PassFrom(work, run, docs, 0, results).results[k] == results[k]
  {
    PassResults(work, run, docs, 0, results);
  }

  /** An entry the pass added belongs to a document it worked on. */
  lemma {:induction false} PassOrigin(work: DocumentInfo -> bool, run: DocumentInfo -> Result<Path>, docs: seq<DocumentInfo>,
                   results: map<string, Path>, k: string) returns (i: nat)
    requires PassFrom(work, run, docs, 0, results).failure.None?
    requires k in PassFrom(work, run, docs, 0, results).results && k !in results
    ensures i < |docs| && work(docs[i]) && Key(docs[i]) == k
  {
    PassResults(work, run, docs, 0, results);
    i :| 0 <= i < |docs| && work(docs[i]) && Key(docs[i]) == k;
  }

  /** A document `AddSelf` selects has an entry: its own path when no two documents share a path. */
  lemma {:induction false} AddSelfAt(keep: DocumentInfo -> bool, docs: seq<DocumentInfo>, n: nat, results: map<string, Path>, i: nat)
    requires n <= |docs| && i < n && keep(docs[i])
    ensures Key(docs[i]) in AddSelf(keep, docs, n, results)
    ensures UniqueKeys(docs) ==> AddSelf(keep, docs, n, results)[Key(docs[i])] == docs[i].path
  {
    AddSelfFacts(keep, docs, n, results);
  }

  /** A starting entry survives `AddSelf`, unchanged when no selected document has its key. */
  lemma {:induction false} AddSelfKept(keep: DocumentInfo -> bool, docs: seq<DocumentInfo>, n: nat, results: map<string, Path>, k: string)
    requires n <= |docs| && k in results
    ensures k in AddSelf(keep, docs, n, results)
    ensures (forall i :: 0 <= i < n && keep(docs[i]) ==> Key(docs[i]) != k) ==> AddSelf(keep, docs, n, results)[k] == results[k]
  {
    AddSelfFacts(keep, docs, n, results);
  }

  /** An entry `AddSelf` added belongs to a selected document. */
  lemma {:induction false} AddSelfOrigin(keep: DocumentInfo -> bool, docs: seq<DocumentInfo>, n: nat, results: map<string, Path>, k: string)
    returns (i: nat)
    requires n <= |docs| && k in AddSelf(keep, docs, n, results) && k !in results
    ensures i < n && keep(docs[i]) && Key(docs[i]) == k
  {
    AddSelfFacts(keep, docs, n, results);
    i :| 0 <= i < n && keep(docs[i]) && Key(docs[i]) == k;
  }

  /** A test on records that looks only at the path. */
  ghost predicate PathOnly(f: DocumentInfo -> bool)
  {
    forall a: DocumentInfo, b: DocumentInfo :: a.path == b.path ==> f(a) == f(b)
  }

  /** Two lists of records with the same paths, position by position. */
  predicate SamePaths(a: seq<DocumentInfo>, b: seq<DocumentInfo>)
  {
    |a| == |b| && forall i :: 0 <= i < |a| ==> a[i].path == b[i].path
  }

  /** Records with the same paths have the same keys, so no two share one in either list or in both. */
  lemma {:induction false} SamePathsUnique(a: seq<DocumentInfo>, b: seq<DocumentInfo>)
    requires SamePaths(a, b) && UniqueKeys(a)
    ensures UniqueKeys(b)
  {
    forall i, j | 0 <= i < j < |b| ensures Key(b[i]) != Key(b[j]) {
      assert Key(b[i]) == Key(a[i]) && Key(b[j]) == Key(a[j]);
    }
  }

  /**
   * The mapping of three passes over the same documents: those `skips`
   * selects map to themselves, then those `work` selects (in the records
   * `worked`) map to their operation's result, then those `others` selects
   * (in the records `finished`) map to themselves.
   */
  function ThreePass(skips: DocumentInfo -> bool, work: DocumentInfo -> bool, others: DocumentInfo -> bool,
                     run: DocumentInfo -> Result<Path>, docs: seq<DocumentInfo>, worked: seq<DocumentInfo>,
                     finished: seq<DocumentInfo>): map<string, Path>
    requires |finished| == |docs|
  {
    AddSelf(others, finished, |docs|, PassFrom(work, run, worked, 0, AddSelf(skips, docs, |docs|, map[])).results)
  }

  /**
   * When the three passes between them select every document and the middle
   * pass ran to the end, every document has an entry and every key is a
   * document's.
   */
  lemma {:induction false} ThreePassKeys(skips: DocumentInfo -> bool, work: DocumentInfo -> bool, others: DocumentInfo -> bool,
                      run: DocumentInfo -> Result<Path>, docs: seq<DocumentInfo>, worked: seq<DocumentInfo>,
                      finished: seq<DocumentInfo>)
    requires SamePaths(docs, worked) && SamePaths(docs, finished)
    requires PassFrom(work, run, worked, 0, AddSelf(skips, docs, |docs|, map[])).failure.None?
    requires forall i :: 0 <= i < |docs| ==> skips(docs[i]) || work(worked[i]) || others(finished[i])
    ensures var m := ThreePass(skips, work, others, run, docs, worked, finished);
      (forall i :: 0 <= i < |docs| ==> Key(docs[i]) in m) &&
      (forall k :: k in m ==> exists i :: 0 <= i < |docs| && Key(docs[i]) == k)
  {
    var skipped := AddSelf(skips, docs, |docs|, map[]);
    var results := PassFrom(work, run, worked, 0, skipped).results;
    var m := ThreePass(skips, work, others, run, docs, worked, finished);
    forall i | 0 <= i < |docs| ensures Key(docs[i]) in m {
      assert Key(worked[i]) == Key(docs[i]) == Key(finished[i]);
      if others(finished[i]) {
        AddSelfAt(others, finished, |docs|, results, i);
      } else {
        if work(worked[i]) {
          PassAt(work, run, worked, skipped, i);
        } else {
          AddSelfAt(skips, docs, |docs|, map[], i);
          PassKept(work, run, worked, skipped, Key(docs[i]));
        }
        AddSelfKept(others, finished, |docs|, results, Key(docs[i]));
      }
    }
    forall k | k in m ensures exists i :: 0 <= i < |docs| && Key(docs[i]) == k {
      if k !in results {
        var i := AddSelfOrigin(others, finished, |docs|, results, k);
        assert Key(docs[i]) == Key(finished[i]);
      } else if k !in skipped {
        var i := PassOrigin(work, run, worked, skipped, k);
        assert Key(docs[i]) == Key(worked[i]);
      } else {
        var i := AddSelfOrigin(skips, docs, |docs|, map[], k);
      }
    }
  }

  /**
   * When every document is selected by exactly one of the three passes, no
   * two documents share a path and the middle pass ran to the end, each
   * document maps to itself or, when the middle pass worked on it, to its
   * operation's result.
   */
  lemma {:induction false} ThreePassValues(skips: DocumentInfo -> bool, work: DocumentInfo -> bool, others: DocumentInfo -> bool,
                        run: DocumentInfo -> Result<Path>, docs: seq<DocumentInfo>, worked: seq<DocumentInfo>,
                        finished: seq<DocumentInfo>)
    requires SamePaths(docs, worked) && SamePaths(docs, finished) && UniqueKeys(docs)
    requires PassFrom(work, run, worked, 0, AddSelf(skips, docs, |docs|, map[])).failure.None?
    requires forall i :: 0 <= i < |docs| ==>
      (skips(docs[i]) && !work(worked[i]) && !others(finished[i])) ||
      (!skips(docs[i]) && work(worked[i]) && !others(finished[i])) ||
      (!skips(docs[i]) && !work(worked[i]) && others(finished[i]))
    ensures var m := ThreePass(skips, work, others, run, docs, worked, finished);
      forall i :: 0 <= i < |docs| ==> (Key(docs[i]) in m &&
        if work(worked[i]) then run(worked[i]) == Ok(m[Key(docs[i])]) else m[Key(docs[i])] == docs[i].path)
  {
    var skipped := AddSelf(skips, docs, |docs|, map[]);
    var results := PassFrom(work, run, worked, 0, skipped).results;
    var m := ThreePass(skips, work, others, run, docs, worked, finished);
    SamePathsUnique(docs, worked);
    SamePathsUnique(docs, finished);
    forall i | 0 <= i < |docs|
      ensures Key(docs[i]) in m &&
        if work(worked[i]) then run(worked[i]) == Ok(m[Key(docs[i])]) else m[Key(docs[i])] == docs[i].path
    {
      var k := Key(docs[i]);
      assert Key(worked[i]) == k == Key(finished[i]);
      if others(finished[i]) {
        AddSelfAt(others, finished, |docs|, results, i);
      } else {
        assert forall j :: 0 <= j < |docs| && others(finished[j]) ==> Key(finished[j]) != k;
        if work(worked[i]) {
          PassAt(work, run, worked, skipped, i);
        } else {
          AddSelfAt(skips, docs, |docs|, map[], i);
          assert forall j :: 0 <= j < |worked| && work(worked[j]) ==> Key(worked[j]) != k;
          PassKept(work, run, worked, skipped, k);
        }
        AddSelfKept(others, finished, |docs|, results, k);
      }
    }
  }
}
