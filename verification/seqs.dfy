/** The array primitives the data service is written with: `findIndex` /
    `find` (first match) and `filter` (keep matching elements, in order).
 */
module Seqs {
  import opened Types

  /** `i` is the position of the first element of `s` that satisfies `p`. */
  predicate IsFirst<T>(s: seq<T>, i: int, p: T -> bool) {
    && 0 <= i < |s|
    && p(s[i])
    && forall j :: 0 <= j < i ==> !p(s[j])
  }

  /** No element of `s` satisfies `p`. */
  predicate NoneMatch<T>(s: seq<T>, p: T -> bool) {
    forall j :: 0 <= j < |s| ==> !p(s[j])
  }

  /** `Array.prototype.findIndex`, with `None` in place of -1. */
  function FindIndex<T>(s: seq<T>, p: T -> bool): (r: Option<nat>)
    ensures r.None? <==> NoneMatch(s, p)
    ensures r.Some? ==> IsFirst(s, r.value, p)
  {
    if |s| == 0 then None
    else if p(s[0]) then Some(0)
    else match FindIndex(s[1..], p)
      case None => None
      case Some(i) => Some(i + 1)
  }

  /** `Array.prototype.find`, with `None` in place of `undefined`. */
  function Find<T>(s: seq<T>, p: T -> bool): (r: Option<T>)
    ensures r.None? <==> NoneMatch(s, p)
    ensures r.Some? ==> exists i :: IsFirst(s, i, p) && s[i] == r.value
  {
    match FindIndex(s, p)
    case None => None
    case Some(i) => Some(s[i])
  }

  /** `Array.prototype.filter`: the elements satisfying `p`, in their order. */
  function Filter<T(!new)>(s: seq<T>, p: T -> bool): (r: seq<T>)
    ensures |r| <= |s|
    ensures forall x :: x in r <==> x in s && p(x)
  {
    if |s| == 0 then []
    else (if p(s[0]) then [s[0]] else []) + Filter(s[1..], p)
  }

  /** Filtering a concatenation filters each part and keeps them in order;
      together with the one-element case this fixes the order of the result. */
  lemma {:induction false} FilterAppend<T(!new)>(a: seq<T>, b: seq<T>, p: T -> bool)
    ensures Filter(a + b, p) == Filter(a, p) + Filter(b, p)
    decreases |a|
  {
    if |a| == 0 {
      assert a + b == b;
    } else {
      assert (a + b)[1..] == a[1..] + b;
      FilterAppend(a[1..], b, p);
    }
  }

  /** When every element is kept, filtering changes nothing. */
  lemma {:induction false} FilterKeepsAll<T(!new)>(s: seq<T>, p: T -> bool)
    requires forall i :: 0 <= i < |s| ==> p(s[i])
    ensures Filter(s, p) == s
    decreases |s|
  {
    if |s| != 0 {
      FilterKeepsAll(s[1..], p);
      assert [s[0]] + s[1..] == s;
    }
  }

  /** Filtering out at least one element shortens the list. */
  lemma {:induction false} FilterShrinks<T(!new)>(s: seq<T>, p: T -> bool)
    requires exists x :: x in s && !p(x)
    ensures |Filter(s, p)| < |s|
    decreases |s|
  {
    if p(s[0]) {
      var x :| x in s && !p(x);
      assert x in s[1..];
      FilterShrinks(s[1..], p);
    }
  }
}
