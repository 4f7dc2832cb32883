/**
 A read-only view that presents two sequences, the first part and the second
 part, as one logically continuous sequence: their concatenation. The view
 never copies anything; a sub-range of a view is again a view over narrower
 pieces of the same two parts.

 Rust's `usize` is modelled as `nat`. Every panic of the original (an
 out-of-range index, an invalid range) becomes a `requires`, and the exact
 condition under which the underlying slice operations would panic is stated
 separately (`IndexInBounds`, `SlicesInBounds`) and proved equivalent to it.
 */
module UVector {

  /** A view over two parts; its logical contents are `first + second`. */
  datatype UVec<T> = UVec(first: seq<T>, second: seq<T>)

  /** The abstraction of a view: the first part followed by the second. */
  function Elems<T>(v: UVec<T>): seq<T>
  {
    v.first + v.second
  }

  /* ---------------------------------------------------------------------
     Construction and length
     --------------------------------------------------------------------- */

  /** Builds a view from two parts; any lengths, including zero, are legal. */
  function New<T>(first: seq<T>, second: seq<T>): (v: UVec<T>)
    ensures Elems(v) == first + second
    ensures Len(v) == |first| + |second|
  {
    UVec(first, second)
  }

  /** The view with both parts empty. */
  function Empty<T>(): (v: UVec<T>)
    ensures Len(v) == 0
    ensures Elems(v) == []
  {
    UVec([], [])
  }

  /** The length of a view: the sum of the lengths of its parts. */
  function Len<T>(v: UVec<T>): (n: nat)
    ensures n == |Elems(v)|
  {
    |v.first| + |v.second|
  }

  /* ---------------------------------------------------------------------
     Indexed access
     --------------------------------------------------------------------- */

  /**
   True when the slice access performed by indexing does not panic: the index
   either falls inside the first part, or its offset past the first part falls
   inside the second part.
   */
  predicate IndexInBounds<T>(v: UVec<T>, i: nat)
  {
    if i < |v.first| then true else i - |v.first| < |v.second|
  }

  /** Indexing panics exactly when the index is not below the length. */
  lemma IndexPanicsExactlyOutOfRange<T>(v: UVec<T>, i: nat)
    ensures IndexInBounds(v, i) <==> i < Len(v)
  {
  }

  /** The element at logical position `i`, translated into the right part. */
  function At<T>(v: UVec<T>, i: nat): (x: T)
    requires i < Len(v)
    ensures x == Elems(v)[i]
  {
    var len := |v.first|;
    if i < len then v.first[i] else v.second[i - len]
  }

  /** Indexing reads the first part below the seam and the second part from it on. */
  lemma AtTranslatesToParts<T>(v: UVec<T>, i: nat)
    requires i < Len(v)
    ensures i < |v.first| ==> At(v, i) == v.first[i]
    ensures |v.first| <= i ==> At(v, i) == v.second[i - |v.first|]
  {
  }

  /* ---------------------------------------------------------------------
     Sub-range derivation
     --------------------------------------------------------------------- */

  /** The four slice bounds `range` computes: a slice of each part. */
  datatype Offsets = Offsets(start1: nat, end1: nat, start2: nat, end2: nat)

  function Min(x: nat, y: nat): nat
  {
    if x < y then x else y
  }

  /**
   Splits the logical bounds `start` and `end` at the seam `len1`: the part-1
   bound is the logical bound clamped to `len1`, the part-2 bound is whatever
   lies beyond the seam. The two halves of each bound add up to the bound, and
   a part-2 bound is non-zero only once the part-1 bound has reached the seam.
   */
  function RangeOffsets(len1: nat, start: nat, end: nat): (o: Offsets)
    ensures o.start1 + o.start2 == start && o.end1 + o.end2 == end
    ensures o.start1 <= len1 && o.end1 <= len1
    ensures o.start2 > 0 ==> o.start1 == len1
    ensures o.end2 > 0 ==> o.end1 == len1
  {
    var start1 := if start < len1 then start else len1;
    var end1 := if end < len1 then end else len1;
    var start2 := if start < len1 then 0 else start - len1;
    var end2 := if end < len1 then 0 else end - len1;
    Offsets(start1, end1, start2, end2)
  }

  /** True when both slices `range` takes are valid, so neither panics. */
  predicate SlicesInBounds<T>(v: UVec<T>, o: Offsets)
  {
    o.start1 <= o.end1 <= |v.first| && o.start2 <= o.end2 <= |v.second|
  }

  /**
   The slices taken by `range` are all valid exactly when
   `start <= end <= len`: that precondition is both sufficient and necessary.
   */
  lemma RangePanicsExactlyWhenInvalid<T>(v: UVec<T>, start: nat, end: nat)
    ensures SlicesInBounds(v, RangeOffsets(|v.first|, start, end))
            <==> start <= end <= Len(v)
  {
  }

  /**
   The view of the logical elements in `[start, end)`, re-expressed as a
   slice of each part.
   */
  function Range<T>(v: UVec<T>, start: nat, end: nat): (r: UVec<T>)
    requires start <= end <= Len(v)
    ensures Elems(r) == Elems(v)[start..end]
    ensures Len(r) == end - start
    ensures |r.first| <= |v.first| && |r.second| <= |v.second|
  {
    var o := RangeOffsets(|v.first|, start, end);
    RangePanicsExactlyWhenInvalid(v, start, end);
    var r := UVec(v.first[o.start1..o.end1], v.second[o.start2..o.end2]);
    RangeSlicesConcat(v, start, end, o);
    r
  }

  /** The two slices `range` takes, put together, are the logical slice. */
  lemma RangeSlicesConcat<T>(v: UVec<T>, start: nat, end: nat, o: Offsets)
    requires start <= end <= Len(v)
    requires o == RangeOffsets(|v.first|, start, end)
    ensures SlicesInBounds(v, o)
    ensures v.first[o.start1..o.end1] + v.second[o.start2..o.end2]
            == Elems(v)[start..end]
  {
  }

  /** Element `k` of a sub-range is element `start + k` of the original view. */
  lemma RangeAt<T>(v: UVec<T>, start: nat, end: nat, k: nat)
    requires start <= end <= Len(v)
    requires k < end - start
    ensures At(Range(v, start, end), k) == At(v, start + k)
  {
  }

  /** A zero-length range is a view with both parts empty, wherever it starts. */
  lemma RangeEmpty<T>(v: UVec<T>, k: nat)
    requires k <= Len(v)
    ensures Range(v, k, k) == Empty()
  {
  }

  /** The full range gives back the original view, part for part. */
  lemma RangeFull<T>(v: UVec<T>)
    ensures Range(v, 0, Len(v)) == v
  {
  }

  /** A range that ends at or before the seam lies wholly in the first part. */
  lemma RangeInFirst<T>(v: UVec<T>, start: nat, end: nat)
    requires start <= end <= |v.first|
    ensures Range(v, start, end) == UVec(v.first[start..end], [])
  {
  }

  /** A range that starts at or after the seam lies wholly in the second part. */
  lemma RangeInSecond<T>(v: UVec<T>, start: nat, end: nat)
    requires |v.first| <= start <= end <= Len(v)
    ensures Range(v, start, end)
            == UVec([], v.second[start - |v.first|..end - |v.first|])
  {
  }

  /** A range that straddles the seam takes a suffix of part 1 and a prefix of part 2. */
  lemma RangeStraddles<T>(v: UVec<T>, start: nat, end: nat)
    requires start < |v.first| < end <= Len(v)
    ensures Range(v, start, end)
            == UVec(v.first[start..], v.second[..end - |v.first|])
  {
  }

  /** A range of a range is, element for element, a range of the original. */
  lemma RangeOfRange<T>(v: UVec<T>, start: nat, end: nat, start': nat, end': nat)
    requires start <= end <= Len(v)
    requires start' <= end' <= end - start
    ensures Elems(Range(Range(v, start, end), start', end'))
            == Elems(Range(v, start + start', start + end'))
  {
  }
}
