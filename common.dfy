/** The array helpers `filterSome` and `equals` of src/core/util/Common.ts.

    Both are installed on `Array.prototype`; the model's `JsArray` is an
    array object whose elements `filterSome` splices in place. */
module Common {

  /** The elements that `filterSome` leaves when it scans `a` from the top
      with `budget` removals left; a negative budget never runs out. The
      callback sees each element with its index, which splicing above it
      does not change. */
  function TopFiltered<T>(a: seq<T>, keep: (T, int) -> bool, budget: int): seq<T>
    decreases |a|
  {
    if a == [] || budget == 0 then a
    else
      var j := |a| - 1;
      if keep(a[j], j) then TopFiltered(a[..j], keep, budget) + [a[j]]
      else TopFiltered(a[..j], keep, budget - 1)
  }

  /** How many elements of `a[lo..hi]` fail the callback. */
  function Failing<T>(a: seq<T>, keep: (T, int) -> bool, lo: nat, hi: nat): nat
    requires lo <= hi <= |a|
    decreases hi - lo
  {
    if lo == hi then 0 else Failing(a, keep, lo, hi - 1) + if keep(a[hi - 1], hi - 1) then 0 else 1
  }

  /** The elements of `a[lo..hi]` that pass the callback, in order. */
  function Passing<T>(a: seq<T>, keep: (T, int) -> bool, lo: nat, hi: nat): seq<T>
    requires lo <= hi <= |a|
    decreases hi - lo
  {
    if lo == hi then [] else Passing(a, keep, lo, hi - 1) + if keep(a[hi - 1], hi - 1) then [a[hi - 1]] else []
  }

  /** `filterSome` keeps a prefix `a[..s]` untouched and, above it, drops
      exactly the failing elements, keeping the passing ones in order. It
      drops `removeMax` of them when `0 <= removeMax` and there are that
      many, and every failing element otherwise. */
  lemma {:induction false} TopFilteredShape<T>(a: seq<T>, keep: (T, int) -> bool, removeMax: int)
    ensures exists s :: (0 <= s <= |a| &&
      TopFiltered(a, keep, removeMax) == a[..s] + Passing(a, keep, s, |a|) &&
      Failing(a, keep, s, |a|) == (if 0 <= removeMax <= Failing(a, keep, 0, |a|) then removeMax else Failing(a, keep, 0, |a|)))
    decreases |a|
  {
    var s := Stop(a, keep, removeMax);
    assert a[..s] + Passing(a, keep, s, |a|) == TopFiltered(a, keep, removeMax);
  }

  /** The index below which `filterSome` leaves the array alone, with the
      facts that make it so. */
  function Stop<T>(a: seq<T>, keep: (T, int) -> bool, budget: int): (s: nat)
    ensures s <= |a|
    ensures TopFiltered(a, keep, budget) == a[..s] + Passing(a, keep, s, |a|)
    ensures Failing(a, keep, s, |a|) == if 0 <= budget <= Failing(a, keep, 0, |a|) then budget else Failing(a, keep, 0, |a|)
    decreases |a|
  {
    if a == [] then 0
    else if budget == 0 then
      assert a[..|a|] == a;
      |a|
    else
      var j := |a| - 1;
      var init := a[..j];
      var s := Stop(init, keep, if keep(a[j], j) then budget else budget - 1);
      PrefixFacts(a, keep, s);
      assert init[..s] == a[..s];
      s
  }

  /** `Failing` and `Passing` on a prefix of `a` agree with `a` itself. */
  lemma {:induction false} PrefixFacts<T>(a: seq<T>, keep: (T, int) -> bool, lo: nat)
    requires a != [] && lo <= |a| - 1
    ensures Failing(a[..|a| - 1], keep, lo, |a| - 1) == Failing(a, keep, lo, |a| - 1)
    ensures Passing(a[..|a| - 1], keep, lo, |a| - 1) == Passing(a, keep, lo, |a| - 1)
    ensures Failing(a[..|a| - 1], keep, 0, |a| - 1) == Failing(a, keep, 0, |a| - 1)
  {
    PrefixAgrees(a, a[..|a| - 1], keep, lo, |a| - 1);
    PrefixAgrees(a, a[..|a| - 1], keep, 0, |a| - 1);
  }

  lemma {:induction false} PrefixAgrees<T>(a: seq<T>, b: seq<T>, keep: (T, int) -> bool, lo: nat, hi: nat)
    requires lo <= hi <= |a| && hi <= |b| && a[..hi] == b[..hi]
    ensures Failing(a, keep, lo, hi) == Failing(b, keep, lo, hi)
    ensures Passing(a, keep, lo, hi) == Passing(b, keep, lo, hi)
    decreases hi - lo
  {
    if lo < hi {
      assert a[hi - 1] == a[..hi][hi - 1] == b[..hi][hi - 1] == b[hi - 1];
      assert a[..hi - 1] == a[..hi][..hi - 1];
      assert b[..hi - 1] == b[..hi][..hi - 1];
      PrefixAgrees(a, b, keep, lo, hi - 1);
    }
  }

  /** Every element `filterSome` removes failed the callback: the result
      still holds every element that passed. */
  lemma PassingKept<T>(a: seq<T>, keep: (T, int) -> bool, removeMax: int, j: nat)
    requires j < |a| && keep(a[j], j)
    ensures a[j] in TopFiltered(a, keep, removeMax)
  {
    var s := Stop(a, keep, removeMax);
    if j < s {
      assert a[..s][j] == a[j];
    } else {
      PassingHas(a, keep, s, |a|, j);
    }
  }

  lemma {:induction false} PassingHas<T>(a: seq<T>, keep: (T, int) -> bool, lo: nat, hi: nat, j: nat)
    requires lo <= j < hi <= |a| && keep(a[j], j)
    ensures a[j] in Passing(a, keep, lo, hi)
    decreases hi - lo
  {
    if j < hi - 1 {
      PassingHas(a, keep, lo, hi - 1, j);
    }
  }

  /** An array object. */
  class JsArray<T> {
    var elems: seq<T>

    constructor (elems: seq<T>)
      ensures this.elems == elems
    {
      this.elems := elems;
    }

    /** `filterSome`: count down from the top, stop once `removeMax`
        elements are gone, and splice out each element the callback
        rejects. The array itself is returned. */
    method FilterSome(keep: (T, int) -> bool, removeMax: int) returns (r: JsArray<T>)
      modifies this
      ensures r == this
      ensures elems == TopFiltered(old(elems), keep, removeMax)
    {
      ghost var a := elems;
      ghost var tail: seq<T> := [];
      var discarded := 0;
      var i := |elems|;
      assert a[..i] == a;
      while i > 0
        invariant 0 <= i <= |a|
        invariant elems == a[..i] + tail
        invariant TopFiltered(a, keep, removeMax) == TopFiltered(a[..i], keep, removeMax - discarded) + tail
        decreases i
      {
        i := i - 1;
        assert a[..i + 1][..i] == a[..i];
        assert elems[i] == a[i];
        if discarded == removeMax {
          i := i + 1;
          break;
        }
        if keep(elems[i], i) {
          tail := [elems[i]] + tail;
          assert elems == a[..i] + tail;
          continue;
        }
        elems := elems[..i] + elems[i + 1..];
        discarded := discarded + 1;
      }
      r := this;
    }
  }

  /** The element loop of `equals`: no mismatch from index `i` on. */
  function SameFrom<T(==)>(a: seq<T>, b: seq<T>, i: nat): bool
    requires |a| == |b| && i <= |a|
    decreases |a| - i
  {
    i == |a| || (a[i] == b[i] && SameFrom(a, b, i + 1))
  }

  /** `equals`: the same array object, or arrays of equal length with
      pairwise identical elements. */
  lemma {:induction false} SameFromIff<T>(a: seq<T>, b: seq<T>, i: nat)
    requires |a| == |b| && i <= |a|
    ensures SameFrom(a, b, i) <==> a[i..] == b[i..]
    decreases |a| - i
  {
    if i < |a| {
      SameFromIff(a, b, i + 1);
      assert a[i..] == [a[i]] + a[i + 1..];
      assert b[i..] == [b[i]] + b[i + 1..];
    }
  }

  /** `equals` holds exactly for a non-null array with the same elements. */
  function Equals<T(==)>(a: JsArray<T>, that: JsArray?<T>): (r: bool)
    reads a, that
    ensures r <==> that != null && a.elems == that.elems
  {
    if a == that then true
    else if that == null then false
    else if |a.elems| != |that.elems| then false
    else SameFromIff(a.elems, that.elems, 0); SameFrom(a.elems, that.elems, 0)
  }

  /** `equals` is reflexive and symmetric. */
  lemma EqualsReflexiveSymmetric<T>(a: JsArray<T>, b: JsArray<T>)
    ensures Equals(a, a)
    ensures Equals(a, b) == Equals(b, a)
  {
  }
}
