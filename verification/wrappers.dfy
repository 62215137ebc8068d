/** Value-typed stand-ins for Kotlin's nullable references and `kotlin.Result`. */
module Wrappers {

  /** A nullable value: `None` plays the role of Kotlin's `null`. */
  datatype Option<+T> = None | Some(value: T)

  /** Kotlin's `Result<T>`: a failure carries the caught exception's `message`,
      which is itself nullable. */
  datatype Result<+T> = Success(value: T) | Failure(message: Option<string>)

  /** `listOfNotNull(xs)`: the present values, in order. */
  function NotNulls<T>(xs: seq<Option<T>>): (r: seq<T>)
    ensures |r| <= |xs|
    ensures forall i :: 0 <= i < |r| ==> Some(r[i]) in xs
    ensures forall i :: 0 <= i < |xs| && xs[i].Some? ==> xs[i].value in r
  {
    if |xs| == 0 then []
    else
      var rest := NotNulls(xs[1..]);
      match xs[0]
      case Some(v) => [v] + rest
      case None => rest
  }

  /** `xs.filter(p)`: the elements satisfying `p`, in order. */
  function Filter<T>(xs: seq<T>, p: T -> bool): (r: seq<T>)
    ensures |r| <= |xs|
    ensures forall i :: 0 <= i < |r| ==> r[i] in xs && p(r[i])
    ensures forall i :: 0 <= i < |xs| && p(xs[i]) ==> xs[i] in r
  {
    if |xs| == 0 then []
    else
      var rest := Filter(xs[1..], p);
      assert forall i :: 1 <= i < |xs| ==> xs[i] == xs[1..][i - 1];
      if p(xs[0]) then [xs[0]] + rest else rest
  }

  /** `listOfNotNull` of one value: the value when present, nothing when null. */
  lemma NotNullsSingle<T>(x: Option<T>)
    ensures x.Some? ==> NotNulls([x]) == [x.value]
    ensures x.None? ==> NotNulls([x]) == []
  {
    assert [x][1..] == [];
  }

  /** `listOfNotNull` works piece by piece, keeping the order of the pieces; with
      `NotNullsSingle` this fixes the result of every list. */
  lemma {:induction false} NotNullsConcat<T>(a: seq<Option<T>>, b: seq<Option<T>>)
    ensures NotNulls(a + b) == NotNulls(a) + NotNulls(b)
  {
    if |a| > 0 {
      assert (a + b)[0] == a[0];
      assert (a + b)[1..] == a[1..] + b;
      NotNullsConcat(a[1..], b);
    } else {
      assert a + b == b;
    }
  }

  /** `filter` of one element: the element when it satisfies `p`, else nothing. */
  lemma FilterSingle<T>(x: T, p: T -> bool)
    ensures p(x) ==> Filter([x], p) == [x]
    ensures !p(x) ==> Filter([x], p) == []
  {
    assert [x][1..] == [];
  }

  /** `filter` works piece by piece, keeping the order of the pieces; with
      `FilterSingle` this fixes the result of every list. */
  lemma {:induction false} FilterConcat<T>(a: seq<T>, b: seq<T>, p: T -> bool)
    ensures Filter(a + b, p) == Filter(a, p) + Filter(b, p)
  {
    if |a| > 0 {
      assert (a + b)[0] == a[0];
      assert (a + b)[1..] == a[1..] + b;
      FilterConcat(a[1..], b, p);
    } else {
      assert a + b == b;
    }
  }

  /** Position of the first present value at or after `from`. */
  function FirstSome<T>(xs: seq<Option<T>>, from: nat): (r: Option<nat>)
    ensures r.Some? ==> from <= r.value < |xs| && xs[r.value].Some?
    ensures r.Some? ==> forall j :: from <= j < r.value ==> xs[j].None?
    ensures r.None? ==> forall j :: from <= j < |xs| ==> xs[j].None?
    decreases |xs| - from
  {
    if from >= |xs| then None
    else if xs[from].Some? then Some(from)
    else FirstSome(xs, from + 1)
  }

  /** `xs.flatMap(f)`: the lists `f(x)` of every element, concatenated in order. */
  function FlatMap<T, U>(xs: seq<T>, f: T -> seq<U>): seq<U>
  {
    if |xs| == 0 then [] else FlatMap(xs[..|xs| - 1], f) + f(xs[|xs| - 1])
  }

  lemma FlatMapSingle<T, U>(x: T, f: T -> seq<U>)
    ensures FlatMap([x], f) == f(x)
  {
    assert [x][..0] == [];
  }

  /** Mapping a concatenation concatenates the results. */
  lemma {:induction false} FlatMapConcat<T, U>(a: seq<T>, b: seq<T>, f: T -> seq<U>)
    ensures FlatMap(a + b, f) == FlatMap(a, f) + FlatMap(b, f)
  {
    if |b| > 0 {
      assert (a + b)[..|a + b| - 1] == a + b[..|b| - 1];
      FlatMapConcat(a, b[..|b| - 1], f);
    } else {
      assert a + b == a;
    }
  }
}
