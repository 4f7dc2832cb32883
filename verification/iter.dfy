/**
 The cursor over a view: a logical position and the view's two parts. Each
 step yields the element at the position and advances it by one, first
 through the first part and then through the second; once the position has
 reached the length every further step yields nothing and changes nothing.

 Rust's `next(&mut self)` is modelled as a pure step that returns the yielded
 item together with the advanced cursor.
 */
module Iteration {
  import opened UVector

  datatype Option<T> = None | Some(value: T)

  /** A cursor: the next logical position to yield, and the two parts. */
  datatype Iter<T> = Iter(pos: nat, first: seq<T>, second: seq<T>)

  /** The view a cursor walks over. */
  function View<T>(it: Iter<T>): UVec<T>
  {
    UVec(it.first, it.second)
  }

  /** The elements a cursor has still to yield, in order. */
  function Remaining<T>(it: Iter<T>): seq<T>
  {
    if it.pos <= Len(View(it)) then Elems(View(it))[it.pos..] else []
  }

  /** True once a cursor has nothing left to yield. */
  predicate Exhausted<T>(it: Iter<T>)
  {
    it.pos >= Len(View(it))
  }

  /* ---------------------------------------------------------------------
     Creating a cursor
     --------------------------------------------------------------------- */

  /** `iter()`: a fresh cursor at position 0 over the view's parts. */
  function IterOf<T>(v: UVec<T>): (it: Iter<T>)
    ensures it.pos == 0 && View(it) == v
    ensures Remaining(it) == Elems(v)
  {
    Iter(0, v.first, v.second)
  }

  /** `into_iter` on a view taken by value: builds the cursor directly. */
  function IntoIter<T>(v: UVec<T>): (it: Iter<T>)
    ensures it.pos == 0 && View(it) == v
    ensures Remaining(it) == Elems(v)
  {
    Iter(0, v.first, v.second)
  }

  /** `into_iter` on a borrowed view: delegates to `iter()`. */
  function IntoIterRef<T>(v: UVec<T>): (it: Iter<T>)
    ensures it.pos == 0 && View(it) == v
    ensures Remaining(it) == Elems(v)
  {
    IterOf(v)
  }

  /** The consuming and the borrowing traversal start in the very same state. */
  lemma TraversalsAgree<T>(v: UVec<T>)
    ensures IntoIter(v) == IterOf(v) == IntoIterRef(v)
    ensures Collect(IntoIter(v)) == Collect(IntoIterRef(v)) == Elems(v)
  {
  }

  /* ---------------------------------------------------------------------
     Stepping
     --------------------------------------------------------------------- */

  /**
   One step: below the length, yields the element at the position and
   advances the position by exactly one; at or past it, yields nothing and
   leaves the cursor as it was.
   */
  function Next<T>(it: Iter<T>): (r: (Option<T>, Iter<T>))
    ensures !Exhausted(it) ==> r.0 == Some(Elems(View(it))[it.pos])
    ensures !Exhausted(it) ==> r.1 == it.(pos := it.pos + 1)
    ensures Exhausted(it) ==> r == (None, it)
  {
    var len1 := |it.first|;
    var pos := it.pos;
    if pos < len1 then
      (Some(it.first[pos]), it.(pos := pos + 1))
    else
      var len2 := |it.second|;
      if pos < len1 + len2 then
        (Some(it.second[pos - len1]), it.(pos := pos + 1))
      else
        (None, it)
  }

  /** A step hands out the head of what remains and keeps the rest for later. */
  lemma NextConsumesRemaining<T>(it: Iter<T>)
    ensures Next(it).0.None? <==> Remaining(it) == []
    ensures Next(it).0.Some? ==>
              Remaining(it) == [Next(it).0.value] + Remaining(Next(it).1)
  {
  }

  /** The cursor after `n` steps. */
  function Steps<T>(it: Iter<T>, n: nat): Iter<T>
    decreases n
  {
    if n == 0 then it else Steps(Next(it).1, n - 1)
  }

  /**
   Steps only ever move the position forward by one at a time, and stop at
   the length: after `n` steps a cursor that started at or below the length
   is at `min(pos + n, len)`; the parts never change.
   */
  lemma {:induction false} StepsPosition<T>(it: Iter<T>, n: nat)
    requires it.pos <= Len(View(it))
    ensures View(Steps(it, n)) == View(it)
    ensures Steps(it, n).pos == Min(it.pos + n, Len(View(it)))
    decreases n
  {
    if n > 0 {
      StepsPosition(Next(it).1, n - 1);
    }
  }

  /** An exhausted cursor stays exhausted: any number of steps change nothing. */
  lemma {:induction false} ExhaustionIsFinal<T>(it: Iter<T>, n: nat)
    requires Exhausted(it)
    ensures Steps(it, n) == it
    ensures Next(Steps(it, n)).0 == None
    decreases n
  {
    if n > 0 {
      ExhaustionIsFinal(Next(it).1, n - 1);
    }
  }

  /**
   The `k`-th item a fresh cursor yields is the view's element at index `k`:
   iteration and indexing agree.
   */
  lemma YieldMatchesIndex<T>(v: UVec<T>, k: nat)
    requires k < Len(v)
    ensures Next(Steps(IterOf(v), k)).0 == Some(At(v, k))
  {
    StepsPosition(IterOf(v), k);
  }

  /** A fresh cursor is exhausted after exactly `len` steps and not before. */
  lemma ExhaustedAfterLen<T>(v: UVec<T>, n: nat)
    ensures Exhausted(Steps(IterOf(v), n)) <==> n >= Len(v)
  {
    StepsPosition(IterOf(v), n);
  }

  /* ---------------------------------------------------------------------
     Full traversal
     --------------------------------------------------------------------- */

  /** Everything a cursor yields until it reports exhaustion. */
  function Collect<T>(it: Iter<T>): (xs: seq<T>)
    ensures xs == Remaining(it)
    decreases Len(View(it)) - it.pos
  {
    match Next(it)
    case (None, _) => []
    case (Some(x), it') =>
      NextConsumesRemaining(it);
      [x] + Collect(it')
  }

  /**
   A `for` loop over a cursor: steps until exhaustion, gathering the items.
   Returns them together with the exhausted cursor.
   */
  method Drain<T>(it: Iter<T>) returns (xs: seq<T>, last: Iter<T>)
    ensures xs == Remaining(it)
    ensures Exhausted(last) && View(last) == View(it)
  {
    xs := [];
    last := it;
    var done := false;
    while !done
      invariant View(last) == View(it)
      invariant xs + Remaining(last) == Remaining(it)
      invariant done ==> Exhausted(last)
      decreases Len(View(it)) - last.pos, !done
    {
      NextConsumesRemaining(last);
      var step := Next(last);
      if step.0.None? {
        done := true;
      } else {
        assert (xs + [step.0.value]) + Remaining(step.1)
               == xs + ([step.0.value] + Remaining(step.1));
        xs := xs + [step.0.value];
        last := step.1;
      }
    }
  }

  /** Iterating a fresh cursor yields exactly the view's elements, in order. */
  lemma IterYieldsElems<T>(v: UVec<T>)
    ensures Collect(IterOf(v)) == Elems(v)
    ensures |Collect(IterOf(v))| == Len(v)
    ensures forall j :: 0 <= j < Len(v) ==> Collect(IterOf(v))[j] == At(v, j)
  {
  }

  /** The sum of a sequence of integers, the fold the examples perform. */
  function Sum(xs: seq<int>): int
  {
    if xs == [] then 0 else Sum(xs[..|xs| - 1]) + xs[|xs| - 1]
  }

  /** Summing over a concatenation sums each piece. */
  lemma {:induction false} SumConcat(xs: seq<int>, ys: seq<int>)
    ensures Sum(xs + ys) == Sum(xs) + Sum(ys)
  {
    if ys == [] {
      assert xs + ys == xs;
    } else {
      SumConcat(xs, ys[..|ys| - 1]);
      assert (xs + ys)[..|xs + ys| - 1] == xs + ys[..|ys| - 1];
    }
  }

  /**
   What iterating a view sums to depends only on its logical contents, not on
   where the seam lies.
   */
  lemma IterSumIgnoresSeam(a: seq<int>, b: seq<int>)
    ensures Sum(Collect(IterOf(New(a, b)))) == Sum(a) + Sum(b)
  {
    SumConcat(a, b);
  }
}
