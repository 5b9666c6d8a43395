/**
 * Lists of names treated as sets, as the combiner does with `set(...)`, set
 * difference and `sorted(...)` on the result.
 */
module Collections {
  import opened Order

  /** The elements of a list, as a set (`set(xs)`). */
  function Elements<T>(xs: seq<T>): set<T>
  {
    set x | x in xs
  }

  predicate NoDuplicates<T(==)>(xs: seq<T>)
  {
    forall i, j :: 0 <= i < j < |xs| ==> xs[i] != xs[j]
  }

  /** A list has at most as many distinct elements as entries, and exactly as many when none repeats. */
  lemma {:induction false} ElementsBound<T>(xs: seq<T>)
    ensures |Elements(xs)| <= |xs|
    ensures NoDuplicates(xs) <==> |Elements(xs)| == |xs|
  {
    if xs != [] {
      ElementsBound(xs[1..]);
      assert Elements(xs) == {xs[0]} + Elements(xs[1..]);
      if NoDuplicates(xs) {
        forall k | 0 <= k < |xs[1..]| ensures xs[1..][k] != xs[0] {
          assert xs[1..][k] == xs[k + 1];
        }
        assert xs[0] !in Elements(xs[1..]);
        assert NoDuplicates(xs[1..]) by {
          forall i, j | 0 <= i < j < |xs[1..]| ensures xs[1..][i] != xs[1..][j] {
            assert xs[1..][i] == xs[i + 1] && xs[1..][j] == xs[j + 1];
          }
        }
      }
      if |Elements(xs)| == |xs| {
        assert xs[0] !in Elements(xs[1..]);
        assert |Elements(xs[1..])| == |xs[1..]|;
        forall i, j | 0 <= i < j < |xs| ensures xs[i] != xs[j] {
          if i == 0 {
            assert xs[j] == xs[1..][j - 1];
          } else {
            assert xs[i] == xs[1..][i - 1] && xs[j] == xs[1..][j - 1];
          }
        }
      }
    }
  }

  /** A subset is no larger than its superset, and equally large only when they are equal. */
  lemma {:induction false} SubsetSize<T>(a: set<T>, b: set<T>)
    requires a <= b
    ensures |a| <= |b|
    ensures |a| == |b| ==> a == b
  {
    assert b == a + (b - a);
    assert a * (b - a) == {};
    assert |b| == |a| + |b - a|;
    if |a| == |b| {
      assert |b - a| == 0;
      assert b - a == {};
    }
  }

  /** A difference is empty exactly when the first set lies within the second. */
  lemma {:induction false} DifferenceEmpty<T>(a: set<T>, b: set<T>)
    ensures a - b == {} <==> a <= b
  {
    if a - b == {} {
      forall x | x in a ensures x in b {
        assert x !in a - b;
      }
    }
  }

  /** `[x for x in xs if keep(x)]`. */
  function Filter<T(!new)>(xs: seq<T>, keep: T -> bool): (r: seq<T>)
    ensures |r| <= |xs|
    ensures forall x :: x in r <==> x in xs && keep(x)
  {
    if xs == [] then []
    else
      assert forall x :: x in xs <==> x == xs[0] || x in xs[1..];
      (if keep(xs[0]) then [xs[0]] else []) + Filter(xs[1..], keep)
  }

  /** Filtering keeps the relative order: a relation between every earlier and later entry survives it. */
  lemma {:induction false} FilterKeepsOrder<T(!new)>(xs: seq<T>, keep: T -> bool, before: (T, T) -> bool)
    requires forall i, j :: 0 <= i < j < |xs| ==> before(xs[i], xs[j])
    ensures forall i, j :: 0 <= i < j < |Filter(xs, keep)| ==> before(Filter(xs, keep)[i], Filter(xs, keep)[j])
  {
    if xs != [] {
      var tail := xs[1..];
      assert forall i, j :: 0 <= i < j < |tail| ==> before(tail[i], tail[j]) by {
        forall i, j | 0 <= i < j < |tail| ensures before(tail[i], tail[j]) {
          assert tail[i] == xs[i + 1] && tail[j] == xs[j + 1];
        }
      }
      FilterKeepsOrder(tail, keep, before);
      var rest := Filter(tail, keep);
      var r := Filter(xs, keep);
      forall i, j | 0 <= i < j < |r| ensures before(r[i], r[j]) {
        if keep(xs[0]) {
          assert r == [xs[0]] + rest;
          if i == 0 {
            assert r[j] == rest[j - 1] && r[j] in tail;
            var k :| 0 <= k < |tail| && tail[k] == r[j];
            assert xs[k + 1] == r[j];
            assert before(xs[0], xs[k + 1]);
          } else {
            assert r[i] == rest[i - 1] && r[j] == rest[j - 1];
            assert before(rest[i - 1], rest[j - 1]);
          }
        } else {
          assert r == rest;
          assert before(rest[i], rest[j]);
        }
      }
    }
  }

  /** Filtering a list without repeats gives a list without repeats. */
  lemma {:induction false} FilterNoDuplicates<T(!new)>(xs: seq<T>, keep: T -> bool)
    requires NoDuplicates(xs)
    ensures NoDuplicates(Filter(xs, keep))
  {
    FilterKeepsOrder(xs, keep, (a: T, b: T) => a != b);
  }

  /** A filter that keeps every entry returns the list unchanged. */
  lemma {:induction false} FilterAll<T(!new)>(xs: seq<T>, keep: T -> bool)
    requires forall x :: x in xs ==> keep(x)
    ensures Filter(xs, keep) == xs
  {
    if xs != [] {
      FilterAll(xs[1..], keep);
    }
  }

  /** Two filters that agree on every entry keep the same list. */
  lemma {:induction false} FilterAgrees<T(!new)>(xs: seq<T>, a: T -> bool, b: T -> bool)
    requires forall x :: x in xs ==> (a(x) <==> b(x))
    ensures Filter(xs, a) == Filter(xs, b)
  {
    if xs != [] {
      FilterAgrees(xs[1..], a, b);
    }
  }

  /** Concatenation is associative. */
  lemma AppendAssociative<T>(a: seq<T>, b: seq<T>, c: seq<T>)
    ensures a + (b + c) == (a + b) + c
  {
  }

  /** Filtering a list with one more entry at the end. */
  lemma {:induction false} FilterSnoc<T(!new)>(xs: seq<T>, x: T, keep: T -> bool)
    ensures Filter(xs + [x], keep) == Filter(xs, keep) + (if keep(x) then [x] else [])
  {
    if xs == [] {
      assert xs + [x] == [x];
    } else {
      var ys := xs + [x];
      var head := if keep(xs[0]) then [xs[0]] else [];
      var last := if keep(x) then [x] else [];
      assert ys[0] == xs[0] && ys[1..] == xs[1..] + [x];
      FilterSnoc(xs[1..], x, keep);
      assert Filter(ys, keep) == head + (Filter(xs[1..], keep) + last);
      assert Filter(xs, keep) == head + Filter(xs[1..], keep);
      AppendAssociative(head, Filter(xs[1..], keep), last);
    }
  }

  /** One more entry of a prefix: `Filter` of the longer prefix keeps it or not. */
  lemma {:induction false} FilterPrefixStep<T(!new)>(xs: seq<T>, i: nat, keep: T -> bool)
    requires i < |xs|
    ensures keep(xs[i]) ==> Filter(xs[..i + 1], keep) == Filter(xs[..i], keep) + [xs[i]]
    ensures !keep(xs[i]) ==> Filter(xs[..i + 1], keep) == Filter(xs[..i], keep)
  {
    assert xs[..i + 1] == xs[..i] + [xs[i]];
    FilterSnoc(xs[..i], xs[i], keep);
    assert Filter(xs[..i], keep) + [] == Filter(xs[..i], keep);
  }

  /** The first entry a filter keeps is the first entry of the list that passes it. */
  lemma {:induction false} FilterFirst<T(!new)>(xs: seq<T>, keep: T -> bool)
    requires Filter(xs, keep) != []
    ensures exists i :: (0 <= i < |xs| && keep(xs[i]) && Filter(xs, keep)[0] == xs[i] &&
      forall k :: 0 <= k < i ==> !keep(xs[k]))
  {
    if keep(xs[0]) {
      assert Filter(xs, keep)[0] == xs[0];
    } else {
      FilterFirst(xs[1..], keep);
      var i :| 0 <= i < |xs[1..]| && keep(xs[1..][i]) && Filter(xs[1..], keep)[0] == xs[1..][i] &&
        forall k :: 0 <= k < i ==> !keep(xs[1..][k]);
      assert xs[i + 1] == xs[1..][i];
      forall k | 0 <= k < i + 1 ensures !keep(xs[k]) {
        if k > 0 {
          assert xs[k] == xs[1..][k - 1];
        }
      }
    }
  }

  /** A rearrangement of a list without repeats has none either. */
  lemma {:induction false} PermutationNoDuplicates<T>(a: seq<T>, b: seq<T>)
    requires multiset(a) == multiset(b)
    requires NoDuplicates(a)
    ensures NoDuplicates(b)
  {
    ElementsBound(a);
    ElementsBound(b);
    assert |a| == |multiset(a)| == |multiset(b)| == |b|;
    assert Elements(a) == Elements(b) by {
      assert forall x :: x in a <==> x in multiset(a);
      assert forall x :: x in b <==> x in multiset(b);
    }
  }

  /** The entries of `xs` that are not in `drop`, in order. */
  function Without<T>(xs: seq<T>, drop: set<T>): (r: seq<T>)
    ensures Elements(r) == Elements(xs) - drop
  {
    if xs == [] then []
    else
      var rest := Without(xs[1..], drop);
      assert Elements(xs) == {xs[0]} + Elements(xs[1..]);
      var r := (if xs[0] in drop then [] else [xs[0]]) + rest;
      assert Elements(r) == (if xs[0] in drop then {} else {xs[0]}) + Elements(rest);
      r
  }

  /** The list with every repeat of an earlier entry removed. */
  function Distinct<T(==)>(xs: seq<T>): (r: seq<T>)
    ensures Elements(r) == Elements(xs)
    ensures NoDuplicates(r)
    decreases |xs|
  {
    if xs == [] then []
    else
      var last := xs[|xs| - 1];
      var init := Distinct(xs[..|xs| - 1]);
      assert Elements(xs) == Elements(xs[..|xs| - 1]) + {last} by {
        assert xs == xs[..|xs| - 1] + [last];
      }
      if last in init then init
      else
        assert NoDuplicates(init + [last]) by {
          forall i, j | 0 <= i < j < |init| + 1 ensures (init + [last])[i] != (init + [last])[j] {
            if j == |init| {
              assert (init + [last])[i] == init[i];
            }
          }
        }
        init + [last]
  }

  /** Every entry paired with itself as a string key. */
  function TextKeys(xs: seq<string>): (ks: seq<Keyed<string>>)
    ensures |ks| == |xs|
    ensures forall i :: 0 <= i < |xs| ==> ks[i] == Keyed(Text(xs[i]), xs[i])
  {
    seq(|xs|, i requires 0 <= i < |xs| => Keyed(Text(xs[i]), xs[i]))
  }

  /** `sorted(xs)` for strings: the same entries, in ascending order. */
  function SortStrings(xs: seq<string>): (r: seq<string>)
    ensures |r| == |xs|
    ensures Elements(r) == Elements(xs)
    ensures forall i, j :: 0 <= i < j < |r| ==> !StrLess(r[j], r[i])
  {
    SortStringsFacts(xs);
    Items(SortByKey(TextKeys(xs), false))
  }

  lemma {:induction false} SortStringsFacts(xs: seq<string>)
    ensures var r := Items(SortByKey(TextKeys(xs), false));
      |r| == |xs| && Elements(r) == Elements(xs) &&
      forall i, j :: 0 <= i < j < |r| ==> !StrLess(r[j], r[i])
  {
    var ts := TextKeys(xs);
    var ks := SortByKey(ts, false);
    SortByKeySorted(ts, false);
    assert |ks| == |multiset(ks)| == |multiset(ts)| == |xs|;
    var r := Items(ks);
    forall i | 0 <= i < |ks| ensures ks[i].key == Text(r[i])
    {
      assert ks[i] in multiset(ts);
      var j :| 0 <= j < |ts| && ts[j] == ks[i];
    }
    forall i, j | 0 <= i < j < |r| ensures !StrLess(r[j], r[i]) {
      assert !Less(ks[j].key, ks[i].key, false);
    }
    forall x | x in Elements(r) ensures x in Elements(xs) {
      var i :| 0 <= i < |r| && r[i] == x;
      assert ks[i] in multiset(ts);
      var j :| 0 <= j < |ts| && ts[j] == ks[i];
    }
    forall x | x in Elements(xs) ensures x in Elements(r) {
      var j :| 0 <= j < |xs| && xs[j] == x;
      assert ts[j] in multiset(ks);
      var i :| 0 <= i < |ks| && ks[i] == ts[j];
      assert r[i] == x;
    }
  }

  /** Every entry sorts strictly before every later one. */
  predicate StrictlyAscending(xs: seq<string>)
  {
    forall i, j :: 0 <= i < j < |xs| ==> StrLess(xs[i], xs[j])
  }

  /** `sorted(set(xs))`: each element once, in ascending order. */
  function SortedSet(xs: seq<string>): (r: seq<string>)
    ensures Elements(r) == Elements(xs)
    ensures StrictlyAscending(r)
  {
    var d := Distinct(xs);
    var r := SortStrings(d);
    ElementsBound(d);
    ElementsBound(r);
    assert StrictlyAscending(r) by {
      forall i, j | 0 <= i < j < |r| ensures StrLess(r[i], r[j]) {
        StrLessTotal(r[i], r[j]);
      }
    }
    r
  }

  /** `sorted(set(a) - set(b))`. */
  function SortedDifference(a: seq<string>, b: seq<string>): (r: seq<string>)
    ensures Elements(r) == Elements(a) - Elements(b)
    ensures StrictlyAscending(r)
    ensures r == [] <==> Elements(a) <= Elements(b)
  {
    var r := SortedSet(Without(a, Elements(b)));
    DifferenceEmpty(Elements(a), Elements(b));
    assert r == [] <==> Elements(r) == {} by {
      if r != [] {
        assert r[0] in Elements(r);
      }
    }
    r
  }

  /** Every entry paired with its key. */
  function KeyedBy<T>(xs: seq<T>, key: T -> Key): (ks: seq<Keyed<T>>)
    ensures |ks| == |xs|
    ensures forall i :: 0 <= i < |xs| ==> ks[i] == Keyed(key(xs[i]), xs[i])
  {
    seq(|xs|, i requires 0 <= i < |xs| => Keyed(key(xs[i]), xs[i]))
  }

  /** `xs.sort(key=key, reverse=descending)` on a list: Python's stable sort by key. */
  function SortBy<T>(xs: seq<T>, key: T -> Key, descending: bool): seq<T>
  {
    Items(SortByKey(KeyedBy(xs, key), descending))
  }

  /** The sort looks at the key only on the entries it sorts. */
  lemma {:induction false} SortByAgrees<T>(xs: seq<T>, key1: T -> Key, key2: T -> Key, descending: bool)
    requires forall x :: x in xs ==> key1(x) == key2(x)
    ensures SortBy(xs, key1, descending) == SortBy(xs, key2, descending)
  {
    assert KeyedBy(xs, key1) == KeyedBy(xs, key2);
  }

  /** The sort by key gives the same entries, as often as before, none after one it sorts strictly before. */
  lemma {:induction false} SortByFacts<T>(xs: seq<T>, key: T -> Key, descending: bool)
    ensures var r := SortBy(xs, key, descending);
      |r| == |xs| && multiset(r) == multiset(xs) &&
      forall i, j :: 0 <= i < j < |r| ==> !Less(key(r[j]), key(r[i]), descending)
  {
    var ks := KeyedBy(xs, key);
    SortedItems(ks, key, descending);
    assert Items(ks) == xs;
  }

  /** Two lists with the same entries, as often each, have the same members; so does every index of one. */
  lemma {:induction false} PermutedMembers<T>(a: seq<T>, b: seq<T>)
    requires multiset(a) == multiset(b)
    ensures forall x :: x in a <==> x in b
    ensures forall i :: 0 <= i < |a| ==> a[i] in b
  {
    assert forall x :: x in a <==> x in multiset(a);
    assert forall x :: x in b <==> x in multiset(b);
  }

  /** Two lists that strictly ascend by `rank` and hold the same entries are the same list. */
  lemma {:induction false} StrictlyRankedEqual<T>(a: seq<T>, b: seq<T>, rank: T -> int)
    requires forall i, j :: 0 <= i < j < |a| ==> rank(a[i]) < rank(a[j])
    requires forall i, j :: 0 <= i < j < |b| ==> rank(b[i]) < rank(b[j])
    requires Elements(a) == Elements(b)
    ensures a == b
    decreases |a|
  {
    if a == [] {
      assert forall i :: 0 <= i < |b| ==> b[i] in Elements(b);
    } else {
      RankedSameHead(a, b, rank);
      RankedTailSubset(a, b, rank);
      RankedTailSubset(b, a, rank);
      StrictlyRankedEqual(a[1..], b[1..], rank);
      assert a == [a[0]] + a[1..] && b == [b[0]] + b[1..];
    }
  }

  /** Of two such lists with the same members, the first entries agree: each has the least rank. */
  lemma {:induction false} RankedSameHead<T>(a: seq<T>, b: seq<T>, rank: T -> int)
    requires a != []
    requires forall i, j :: 0 <= i < j < |a| ==> rank(a[i]) < rank(a[j])
    requires forall i, j :: 0 <= i < j < |b| ==> rank(b[i]) < rank(b[j])
    requires Elements(a) == Elements(b)
    ensures b != [] && b[0] == a[0]
  {
    assert a[0] in Elements(b);
    var k :| 0 <= k < |b| && b[k] == a[0];
    assert b[0] in Elements(a);
    var m :| 0 <= m < |a| && a[m] == b[0];
    assert rank(a[0]) <= rank(a[m]);
    assert rank(b[0]) <= rank(b[k]);
    assert k == 0;
  }

  /** Past a shared first entry, every later entry of `a` is a later entry of `b`. */
  lemma {:induction false} RankedTailSubset<T>(a: seq<T>, b: seq<T>, rank: T -> int)
    requires a != [] && b != [] && a[0] == b[0]
    requires forall i, j :: 0 <= i < j < |a| ==> rank(a[i]) < rank(a[j])
    requires Elements(a) <= Elements(b)
    ensures Elements(a[1..]) <= Elements(b[1..])
  {
    forall x | x in Elements(a[1..]) ensures x in Elements(b[1..]) {
      var i :| 0 <= i < |a[1..]| && a[1..][i] == x;
      assert a[i + 1] == x && rank(a[0]) < rank(x);
      assert x in Elements(a);
      var j :| 0 <= j < |b| && b[j] == x;
      assert j > 0 && b[1..][j - 1] == x;
    }
  }

  /** The entries whose key is `k`. */
  function KeyIs<T(!new)>(key: T -> Key, k: Key): (keep: T -> bool)
    ensures forall x :: keep(x) <==> key(x) == k
  {
    (x: T) => key(x) == k
  }

  /** Stability: the entries that share a key keep their relative order. */
  lemma {:induction false} SortByStable<T(!new)>(xs: seq<T>, key: T -> Key, descending: bool, k: Key)
    ensures Filter(SortBy(xs, key, descending), KeyIs(key, k)) == Filter(xs, KeyIs(key, k))
  {
    var ks := KeyedBy(xs, key);
    var sorted := SortByKey(ks, descending);
    SortByKeySorted(ks, descending);
    forall i | 0 <= i < |sorted| ensures sorted[i].key == key(sorted[i].item) {
      assert sorted[i] in multiset(ks);
    }
    SortByKeyStable(ks, k, descending);
    WithKeyItems(sorted, key, k);
    WithKeyItems(ks, key, k);
    assert Items(ks) == xs;
  }

  /** The entries with key `k` are the entries the filter on that key keeps. */
  lemma {:induction false} WithKeyItems<T(!new)>(ks: seq<Keyed<T>>, key: T -> Key, k: Key)
    requires forall i :: 0 <= i < |ks| ==> ks[i].key == key(ks[i].item)
    ensures Items(WithKey(ks, k)) == Filter(Items(ks), KeyIs(key, k))
  {
    if ks != [] {
      var tail := ks[1..];
      var items := Items(ks);
      WithKeyItems(tail, key, k);
      assert items[0] == ks[0].item && items[1..] == Items(tail);
      assert Filter(items, KeyIs(key, k)) ==
        (if ks[0].key == k then [ks[0].item] else []) + Filter(Items(tail), KeyIs(key, k));
      if ks[0].key == k {
        ItemsCons(ks[0], WithKey(tail, k));
      }
    }
  }

}
