/**
 * The orderings Python's `sorted` and `list.sort` use in the combiner:
 * `str` comparison (lexicographic by code point), the order of `pathlib`
 * paths (lexicographic on their parts), and numbers; and a stable sort by
 * key, with or without `reverse=True`.
 */
module Order {

  /** Python's `a < b` on `str`. */
  predicate StrLess(a: string, b: string)
    decreases |a|
  {
    if a == [] then b != []
    else if b == [] then false
    else if a[0] != b[0] then a[0] < b[0]
    else StrLess(a[1..], b[1..])
  }

  lemma {:induction false} StrLessIrreflexive(a: string)
    ensures !StrLess(a, a)
    decreases |a|
  {
    if a != [] {
      StrLessIrreflexive(a[1..]);
    }
  }

  lemma {:induction false} StrLessTransitive(a: string, b: string, c: string)
    requires StrLess(a, b) && StrLess(b, c)
    ensures StrLess(a, c)
    decreases |a|
  {
    if a != [] && a[0] == b[0] && b[0] == c[0] {
      StrLessTransitive(a[1..], b[1..], c[1..]);
    }
  }

  lemma {:induction false} StrLessTotal(a: string, b: string)
    ensures a == b || StrLess(a, b) || StrLess(b, a)
    decreases |a|
  {
    if a != [] && b != [] && a[0] == b[0] {
      StrLessTotal(a[1..], b[1..]);
      if a[1..] == b[1..] {
        assert a == [a[0]] + a[1..] && b == [b[0]] + b[1..];
      }
    }
  }

  /** The order of two `pathlib` paths: lexicographic on the list of their parts. */
  predicate PartsLess(a: seq<string>, b: seq<string>)
    decreases |a|
  {
    if a == [] then b != []
    else if b == [] then false
    else if a[0] != b[0] then StrLess(a[0], b[0])
    else PartsLess(a[1..], b[1..])
  }

  lemma {:induction false} PartsLessIrreflexive(a: seq<string>)
    ensures !PartsLess(a, a)
    decreases |a|
  {
    if a != [] {
      PartsLessIrreflexive(a[1..]);
    }
  }

  lemma {:induction false} PartsLessTransitive(a: seq<string>, b: seq<string>, c: seq<string>)
    requires PartsLess(a, b) && PartsLess(b, c)
    ensures PartsLess(a, c)
    decreases |a|
  {
    if a != [] && b != [] && c != [] {
      if a[0] == b[0] && b[0] == c[0] {
        PartsLessTransitive(a[1..], b[1..], c[1..]);
      } else if a[0] != b[0] && b[0] != c[0] {
        StrLessTransitive(a[0], b[0], c[0]);
        if a[0] == c[0] {
          StrLessIrreflexive(a[0]);
          StrLessTransitive(a[0], b[0], a[0]);
        }
      }
    }
  }

  lemma {:induction false} PartsLessTotal(a: seq<string>, b: seq<string>)
    ensures a == b || PartsLess(a, b) || PartsLess(b, a)
    decreases |a|
  {
    if a != [] && b != [] {
      if a[0] == b[0] {
        PartsLessTotal(a[1..], b[1..]);
        if a[1..] == b[1..] {
          assert a == [a[0]] + a[1..] && b == [b[0]] + b[1..];
        }
      } else {
        StrLessTotal(a[0], b[0]);
      }
    }
  }

  /** A sort key: a number (an index, a size, a time), a string, or a path's parts. */
  datatype Key = Number(n: int) | Text(s: string) | PathKey(ps: seq<string>)

  function KindRank(k: Key): int
  {
    match k
    case Number(_) => 0
    case Text(_) => 1
    case PathKey(_) => 2
  }

  /** A strict total order on keys; within one kind it is Python's `<`. */
  predicate KeyLess(a: Key, b: Key)
  {
    if KindRank(a) != KindRank(b) then KindRank(a) < KindRank(b)
    else match a
      case Number(x) => x < b.n
      case Text(x) => StrLess(x, b.s)
      case PathKey(x) => PartsLess(x, b.ps)
  }

  /** The comparison a sort uses: ascending, or descending for `reverse=True`. */
  predicate Less(a: Key, b: Key, descending: bool)
  {
    if descending then KeyLess(b, a) else KeyLess(a, b)
  }

  lemma {:induction false} LessIrreflexive(a: Key, descending: bool)
    ensures !Less(a, a, descending)
  {
    match a
    case Number(_) =>
    case Text(x) => StrLessIrreflexive(x);
    case PathKey(x) => PartsLessIrreflexive(x);
  }

  lemma {:induction false} KeyLessTransitive(a: Key, b: Key, c: Key)
    requires KeyLess(a, b) && KeyLess(b, c)
    ensures KeyLess(a, c)
  {
    if KindRank(a) == KindRank(b) == KindRank(c) {
      match a
      case Number(_) =>
      case Text(x) => StrLessTransitive(x, b.s, c.s);
      case PathKey(x) => PartsLessTransitive(x, b.ps, c.ps);
    }
  }

  lemma {:induction false} LessTransitive(a: Key, b: Key, c: Key, descending: bool)
    requires Less(a, b, descending) && Less(b, c, descending)
    ensures Less(a, c, descending)
  {
    if descending {
      KeyLessTransitive(c, b, a);
    } else {
      KeyLessTransitive(a, b, c);
    }
  }

  lemma {:induction false} LessTotal(a: Key, b: Key, descending: bool)
    ensures a == b || Less(a, b, descending) || Less(b, a, descending)
  {
    if KindRank(a) == KindRank(b) {
      match a
      case Number(_) =>
      case Text(x) => StrLessTotal(x, b.s);
      case PathKey(x) => PartsLessTotal(x, b.ps);
    }
  }

  /** An element paired with the key it is sorted by. */
  datatype Keyed<T> = Keyed(key: Key, item: T)

  /** The elements, without their keys. */
  function Items<T>(ks: seq<Keyed<T>>): (xs: seq<T>)
    ensures |xs| == |ks|
    ensures forall i :: 0 <= i < |ks| ==> xs[i] == ks[i].item
  {
    seq(|ks|, i requires 0 <= i < |ks| => ks[i].item)
  }

  /** Keys computed from the entries: equal multisets of keyed pairs give equal multisets of entries. */
  lemma {:induction false} ItemsMultisetBy<T>(ks: seq<Keyed<T>>, key: T -> Key)
    requires forall i :: 0 <= i < |ks| ==> ks[i].key == key(ks[i].item)
    ensures forall x :: multiset(Items(ks))[x] == multiset(ks)[Keyed(key(x), x)]
  {
    if ks != [] {
      var tail := ks[1..];
      ItemsMultisetBy(tail, key);
      ItemsMultisetStep(ks[0], tail, key);
      assert ks == [ks[0]] + tail;
    }
  }

  /** One entry in front of a list whose counts already agree. */
  lemma {:induction false} ItemsMultisetStep<T>(h: Keyed<T>, tail: seq<Keyed<T>>, key: T -> Key)
    requires h.key == key(h.item)
    requires forall x :: multiset(Items(tail))[x] == multiset(tail)[Keyed(key(x), x)]
    ensures forall x :: multiset(Items([h] + tail))[x] == multiset([h] + tail)[Keyed(key(x), x)]
  {
    ItemsCons(h, tail);
    assert multiset(Items([h] + tail)) == multiset{h.item} + multiset(Items(tail));
    assert multiset([h] + tail) == multiset{h} + multiset(tail);
    forall x ensures multiset(Items([h] + tail))[x] == multiset([h] + tail)[Keyed(key(x), x)] {
      assert x == h.item <==> Keyed(key(x), x) == h;
    }
  }

  /** The items of a list with one more entry in front. */
  lemma {:induction false} ItemsCons<T>(x: Keyed<T>, ks: seq<Keyed<T>>)
    ensures Items([x] + ks) == [x.item] + Items(ks)
  {
    var xs := [x] + ks;
    var l := Items(xs);
    var r := [x.item] + Items(ks);
    forall i | 0 <= i < |l| ensures l[i] == r[i] {
      if i > 0 {
        assert xs[i] == ks[i - 1];
      }
    }
    assert l == r;
  }

  /**
   * Inserting `x` in front of the first element that does not sort strictly
   * before it: `x` goes ahead of every element with an equal key.
   */
  function Insert<T>(x: Keyed<T>, ys: seq<Keyed<T>>, descending: bool): seq<Keyed<T>>
  {
    if ys == [] || !Less(ys[0].key, x.key, descending) then [x] + ys
    else [ys[0]] + Insert(x, ys[1..], descending)
  }

  /** `sorted(xs, key=..., reverse=descending)`: Python's sort is stable in both directions. */
  function SortByKey<T>(xs: seq<Keyed<T>>, descending: bool): seq<Keyed<T>>
  {
    if xs == [] then [] else Insert(xs[0], SortByKey(xs[1..], descending), descending)
  }

  /** No element sorts strictly before an element ahead of it. */
  predicate Sorted<T>(xs: seq<Keyed<T>>, descending: bool)
  {
    forall i, j :: 0 <= i < j < |xs| ==> !Less(xs[j].key, xs[i].key, descending)
  }

  /** The elements of `xs` whose key is `k`, in their order in `xs`. */
  function WithKey<T>(xs: seq<Keyed<T>>, k: Key): (r: seq<Keyed<T>>)
  {
    if xs == [] then []
    else if xs[0].key == k then [xs[0]] + WithKey(xs[1..], k)
    else WithKey(xs[1..], k)
  }

  lemma {:induction false} InsertPermutes<T>(x: Keyed<T>, ys: seq<Keyed<T>>, descending: bool)
    ensures multiset(Insert(x, ys, descending)) == multiset{x} + multiset(ys)
    decreases |ys|
  {
    if ys != [] && Less(ys[0].key, x.key, descending) {
      InsertPermutes(x, ys[1..], descending);
      assert ys == [ys[0]] + ys[1..];
    }
  }

  lemma {:induction false} InsertSorted<T>(x: Keyed<T>, ys: seq<Keyed<T>>, descending: bool)
    requires Sorted(ys, descending)
    ensures Sorted(Insert(x, ys, descending), descending)
    decreases |ys|
  {
    var r := Insert(x, ys, descending);
    if ys == [] || !Less(ys[0].key, x.key, descending) {
      forall j | 1 <= j < |r| ensures !Less(r[j].key, x.key, descending) {
        var y := ys[j - 1];
        assert r[j] == y;
        if Less(y.key, x.key, descending) {
          if j - 1 > 0 {
            assert !Less(y.key, ys[0].key, descending);
            LessTotal(y.key, ys[0].key, descending);
            if y.key != ys[0].key {
              LessTransitive(ys[0].key, y.key, x.key, descending);
            }
          }
        }
      }
    } else {
      var tail := Insert(x, ys[1..], descending);
      InsertSorted(x, ys[1..], descending);
      InsertPermutes(x, ys[1..], descending);
      forall j | 1 <= j < |r| ensures !Less(r[j].key, ys[0].key, descending) {
        assert r[j] == tail[j - 1];
        assert r[j] in multiset(tail);
        if r[j] == x {
          LessIrreflexive(ys[0].key, descending);
          if Less(x.key, ys[0].key, descending) {
            LessTransitive(x.key, ys[0].key, x.key, descending);
            LessIrreflexive(x.key, descending);
          }
        } else {
          assert r[j] in multiset(ys[1..]);
          var k :| 0 <= k < |ys[1..]| && ys[1..][k] == r[j];
          assert ys[k + 1] == r[j];
        }
      }
    }
  }

  /** Inserting `x` puts it ahead of all elements with its key and leaves the others in order. */
  lemma {:induction false} InsertWithKey<T>(x: Keyed<T>, ys: seq<Keyed<T>>, k: Key, descending: bool)
    ensures WithKey(Insert(x, ys, descending), k) == (if x.key == k then [x] else []) + WithKey(ys, k)
    decreases |ys|
  {
    if ys != [] && Less(ys[0].key, x.key, descending) {
      InsertWithKey(x, ys[1..], k, descending);
      var r := Insert(x, ys, descending);
      assert r[0] == ys[0] && r[1..] == Insert(x, ys[1..], descending);
      if ys[0].key == k && x.key == k {
        LessIrreflexive(k, descending);
      }
    } else {
      var r := [x] + ys;
      assert r[1..] == ys;
    }
  }

  /** The stable sort yields a sorted permutation of its input. */
  lemma {:induction false} SortByKeySorted<T>(xs: seq<Keyed<T>>, descending: bool)
    ensures Sorted(SortByKey(xs, descending), descending)
    ensures multiset(SortByKey(xs, descending)) == multiset(xs)
    decreases |xs|
  {
    if xs != [] {
      SortByKeySorted(xs[1..], descending);
      InsertSorted(xs[0], SortByKey(xs[1..], descending), descending);
      InsertPermutes(xs[0], SortByKey(xs[1..], descending), descending);
      assert xs == [xs[0]] + xs[1..];
    }
  }

  /**
   * Sorting pairs whose keys are computed from their entries: the entries
   * come out as often as before and in key order.
   */
  lemma {:induction false} SortedItems<T>(ks: seq<Keyed<T>>, key: T -> Key, descending: bool)
    requires forall i :: 0 <= i < |ks| ==> ks[i].key == key(ks[i].item)
    ensures var r := Items(SortByKey(ks, descending));
      |r| == |ks| && multiset(r) == multiset(Items(ks)) &&
      forall i, j :: 0 <= i < j < |r| ==> !Less(key(r[j]), key(r[i]), descending)
  {
    var sorted := SortByKey(ks, descending);
    SortByKeySorted(ks, descending);
    assert |sorted| == |multiset(sorted)| == |multiset(ks)| == |ks|;
    SortedKeysFromItems(ks, sorted, key);
    var r := Items(sorted);
    forall i, j | 0 <= i < j < |r| ensures !Less(key(r[j]), key(r[i]), descending) {
      assert !Less(sorted[j].key, sorted[i].key, descending);
    }
    ItemsMultisetEqual(ks, sorted, key);
  }

  /** A permutation of pairs whose keys come from their entries has the same property. */
  lemma {:induction false} SortedKeysFromItems<T>(ks: seq<Keyed<T>>, sorted: seq<Keyed<T>>, key: T -> Key)
    requires forall i :: 0 <= i < |ks| ==> ks[i].key == key(ks[i].item)
    requires multiset(sorted) == multiset(ks)
    ensures forall i :: 0 <= i < |sorted| ==> sorted[i].key == key(sorted[i].item)
  {
    forall i | 0 <= i < |sorted| ensures sorted[i].key == key(sorted[i].item) {
      assert sorted[i] in multiset(ks);
      var j :| 0 <= j < |ks| && ks[j] == sorted[i];
    }
  }

  /** Permuted pairs, with keys computed from the entries, carry permuted entries. */
  lemma {:induction false} ItemsMultisetEqual<T>(a: seq<Keyed<T>>, b: seq<Keyed<T>>, key: T -> Key)
    requires forall i :: 0 <= i < |a| ==> a[i].key == key(a[i].item)
    requires forall i :: 0 <= i < |b| ==> b[i].key == key(b[i].item)
    requires multiset(a) == multiset(b)
    ensures multiset(Items(a)) == multiset(Items(b))
  {
    ItemsMultisetBy(a, key);
    ItemsMultisetBy(b, key);
    assert forall x :: multiset(Items(a))[x] == multiset(Items(b))[x];
  }

  /** Stability: the elements that share a key keep their relative order. */
  lemma {:induction false} SortByKeyStable<T>(xs: seq<Keyed<T>>, k: Key, descending: bool)
    ensures WithKey(SortByKey(xs, descending), k) == WithKey(xs, k)
    decreases |xs|
  {
    if xs != [] {
      SortByKeyStable(xs[1..], k, descending);
      InsertWithKey(xs[0], SortByKey(xs[1..], descending), k, descending);
    }
  }
}
