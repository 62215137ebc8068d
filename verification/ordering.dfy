/** `sortedWith(compareBy({ first }, { second }))` over two string selectors:
    the order compares the first keys with `String.compareTo` and breaks ties with
    the second. Kotlin's `sortedWith` is stable, and so is the insertion sort here. */
module Ordering {

  import opened Text

  /** The two selector values of one element. */
  datatype SortKey = SortKey(primary: string, secondary: string)

  /** `compareBy(...)` says `a` does not come after `b`. */
  predicate KeyLe(a: SortKey, b: SortKey) {
    || (LexLe(a.primary, b.primary) && a.primary != b.primary)
    || (a.primary == b.primary && LexLe(a.secondary, b.secondary))
  }

  lemma KeyLeRefl(a: SortKey)
    ensures KeyLe(a, a)
  {
    LexLeRefl(a.secondary);
  }

  lemma KeyLeTotal(a: SortKey, b: SortKey)
    ensures KeyLe(a, b) || KeyLe(b, a)
  {
    LexLeTotal(a.primary, b.primary);
    LexLeTotal(a.secondary, b.secondary);
  }

  lemma KeyLeTrans(a: SortKey, b: SortKey, c: SortKey)
    requires KeyLe(a, b) && KeyLe(b, c)
    ensures KeyLe(a, c)
  {
    if a.primary != b.primary && b.primary != c.primary {
      LexLeTrans(a.primary, b.primary, c.primary);
      if a.primary == c.primary {
        LexLeAntisym(a.primary, b.primary);
      }
    } else if a.primary == b.primary && b.primary == c.primary {
      LexLeTrans(a.secondary, b.secondary, c.secondary);
    }
  }

  /** Every pair of elements is in order. */
  ghost predicate Sorted<T>(s: seq<T>, key: T -> SortKey) {
    forall i, j :: 0 <= i < j < |s| ==> KeyLe(key(s[i]), key(s[j]))
  }

  /** The elements whose key is `k`, in their order in `s`. */
  function WithKey<T>(s: seq<T>, key: T -> SortKey, k: SortKey): seq<T>
  {
    if |s| == 0 then []
    else WithKey(s[..|s| - 1], key, k) + (if key(s[|s| - 1]) == k then [s[|s| - 1]] else [])
  }

  lemma WithKeySnoc<T>(s: seq<T>, x: T, key: T -> SortKey, k: SortKey)
    ensures WithKey(s + [x], key, k) == WithKey(s, key, k) + (if key(x) == k then [x] else [])
  {
    assert (s + [x])[..|s|] == s;
  }

  /** Appending an element not smaller than everything keeps a sequence sorted. */
  lemma SortedSnoc<T>(s: seq<T>, y: T, key: T -> SortKey)
    requires Sorted(s, key)
    requires forall i :: 0 <= i < |s| ==> KeyLe(key(s[i]), key(y))
    ensures Sorted(s + [y], key)
  {
  }

  /** The recursive case of `Insert`: `x` went into `r'`, a sorted permutation of
      `init + [x]`, and `last` (greater than `x`) is appended after it. */
  lemma InsertStepSorted<T>(x: T, init: seq<T>, last: T, r': seq<T>, key: T -> SortKey)
    requires Sorted(init + [last], key)
    requires Sorted(r', key)
    requires multiset(r') == multiset(init) + multiset{x}
    requires KeyLe(key(x), key(last))
    ensures Sorted(r' + [last], key)
  {
    forall i | 0 <= i < |r'| ensures KeyLe(key(r'[i]), key(last)) {
      assert r'[i] in multiset(init) + multiset{x};
      if r'[i] != x {
        var j :| 0 <= j < |init| && init[j] == r'[i];
        assert (init + [last])[j] == r'[i] && (init + [last])[|init|] == last;
      }
    }
    SortedSnoc(r', last, key);
  }

  /** The recursive case of `Insert` keeps each key's elements in order: `last`
      and `x` have different keys, so their relative order is invisible per key. */
  lemma InsertStepStable<T>(x: T, init: seq<T>, last: T, r': seq<T>, key: T -> SortKey, k: SortKey)
    requires key(x) != key(last)
    requires WithKey(r', key, k) == WithKey(init + [x], key, k)
    ensures WithKey(r' + [last], key, k) == WithKey(init + [last] + [x], key, k)
  {
    WithKeySnoc(r', last, key, k);
    WithKeySnoc(init, x, key, k);
    WithKeySnoc(init, last, key, k);
    WithKeySnoc(init + [last], x, key, k);
  }

  /** An element not smaller than the last of a sorted sequence can follow it. */
  lemma AppendAfterLast<T>(s: seq<T>, x: T, key: T -> SortKey)
    requires |s| > 0 && Sorted(s, key)
    requires KeyLe(key(s[|s| - 1]), key(x))
    ensures Sorted(s + [x], key)
  {
    forall i | 0 <= i < |s| ensures KeyLe(key(s[i]), key(x)) {
      if i < |s| - 1 {
        KeyLeTrans(key(s[i]), key(s[|s| - 1]), key(x));
      }
    }
    SortedSnoc(s, x, key);
  }

  lemma SortedPrefix<T>(init: seq<T>, last: T, key: T -> SortKey)
    requires Sorted(init + [last], key)
    ensures Sorted(init, key)
  {
    assert forall i :: 0 <= i < |init| ==> (init + [last])[i] == init[i];
  }

  /** Inserts `x` after every element whose key is not greater than its own, so the
      elements already present keep their relative order and `x` follows its equals. */
  function Insert<T>(x: T, s: seq<T>, key: T -> SortKey): (r: seq<T>)
    ensures |r| == |s| + 1
    ensures multiset(r) == multiset(s) + multiset{x}
    ensures Sorted(s, key) ==> Sorted(r, key)
    ensures forall k :: WithKey(r, key, k) == WithKey(s + [x], key, k)
  {
    if |s| == 0 then [x]
    else
      var last := s[|s| - 1];
      var init := s[..|s| - 1];
      assert s == init + [last];
      if KeyLe(key(last), key(x)) then
        assert Sorted(s, key) ==> Sorted(s + [x], key) by {
          if Sorted(s, key) {
            AppendAfterLast(s, x, key);
          }
        }
        s + [x]
      else
        var r' := Insert(x, init, key);
        KeyLeTotal(key(last), key(x));
        KeyLeRefl(key(x));
        assert Sorted(s, key) ==> Sorted(r' + [last], key) by {
          if Sorted(s, key) {
            SortedPrefix(init, last, key);
            InsertStepSorted(x, init, last, r', key);
          }
        }
        assert forall k :: WithKey(r' + [last], key, k) == WithKey(s + [x], key, k) by {
          forall k ensures WithKey(r' + [last], key, k) == WithKey(s + [x], key, k) {
            InsertStepStable(x, init, last, r', key, k);
          }
        }
        r' + [last]
  }

  /** Stable sort: the result is ordered, is a permutation of `s`, and the elements
      sharing any one key appear in the same order as in `s`. These three facts
      determine the result. */
  function SortBy<T>(s: seq<T>, key: T -> SortKey): (r: seq<T>)
    ensures |r| == |s|
    ensures multiset(r) == multiset(s)
    ensures Sorted(r, key)
    ensures forall k :: WithKey(r, key, k) == WithKey(s, key, k)
  {
    if |s| == 0 then []
    else
      var init := s[..|s| - 1];
      var last := s[|s| - 1];
      assert s == init + [last];
      var r := Insert(last, SortBy(init, key), key);
      assert forall k :: WithKey(r, key, k) == WithKey(s, key, k) by {
        forall k ensures WithKey(r, key, k) == WithKey(s, key, k) {
          WithKeySnoc(SortBy(init, key), last, key, k);
          WithKeySnoc(init, last, key, k);
        }
      }
      r
  }
}
