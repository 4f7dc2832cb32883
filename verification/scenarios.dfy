/**
 The concrete examples of the library's tests and documentation, stated over
 the model. The ring-buffer examples take the buffer's two slices as ANY
 split of its contents, since where the buffer wraps is not modelled.
 */
module Scenarios {
  import opened UVector
  import opened Iteration

  /** Indexing across the seam, and with an empty first part. */
  lemma IndexExamples()
    ensures Len(New([5, 10, 15], [20, 25])) == 5
    ensures At(New([5, 10, 15], [20, 25]), 0) == 5
    ensures At(New([5, 10, 15], [20, 25]), 2) == 15
    ensures At(New([5, 10, 15], [20, 25]), 3) == 20
    ensures Len(New([], [20, 25])) == 2
    ensures At(New([], [20, 25]), 0) == 20
    ensures At(New([], [20, 25]), 1) == 25
    ensures At(New([1, 2, 3], [4, 5, 6]), 3) == 4
  {
  }

  /** Index 2 of a two-element view is out of range: the access would panic. */
  lemma IndexOutOfRangeExample()
    ensures !IndexInBounds(New([1, 2], []), 2)
    ensures !(2 < Len(New([1, 2], [])))
    ensures !IndexInBounds(New([1, 2, 3], [4, 5, 6]), 9)
  {
  }

  /** Sub-ranges straddling the seam, inside each part, and empty at the seam. */
  lemma RangeExamples()
    ensures Elems(Range(New([1, 2, 3], [4, 5, 6]), 1, 5)) == [2, 3, 4, 5]
    ensures Elems(Range(New([1, 2, 3], [4, 5, 6]), 0, 2)) == [1, 2]
    ensures Elems(Range(New([1, 2, 3], [4, 5, 6]), 3, 4)) == [4]
    ensures Len(Range(New([1, 2, 3], [4, 5, 6]), 4, 4)) == 0
    ensures Elems(Range(New([1, 2, 3], [4, 5, 6]), 2, 4)) == [3, 4]
  {
    var v := New([1, 2, 3], [4, 5, 6]);
    assert Elems(v) == [1, 2, 3, 4, 5, 6];
  }

  /** Sums of the literal sequences the examples fold over. */
  lemma {:induction false} LiteralSums()
    ensures Sum([1, 2, 3]) == 6 && Sum([4, 5, 6]) == 15
    ensures Sum([1, 2, 3, 4, 5, 6]) == 21 && Sum([2, 3, 4, 5]) == 14
    ensures Sum([4, 5, 6, 7]) == 22
  {
    assert [1, 2, 3][..2] == [1, 2] && [1, 2][..1] == [1] && [1][..0] == [];
    assert [4, 5, 6][..2] == [4, 5] && [4, 5][..1] == [4] && [4][..0] == [];
    assert [2, 3][..1] == [2] && [2][..0] == [];
    assert [4, 5, 6, 7][..3] == [4, 5, 6];
    SumConcat([1, 2, 3], [4, 5, 6]);
    SumConcat([2, 3], [4, 5]);
    assert [1, 2, 3] + [4, 5, 6] == [1, 2, 3, 4, 5, 6];
    assert [2, 3] + [4, 5] == [2, 3, 4, 5];
  }

  /** Iterating the whole view sums to 21, iterating range(1, 5) to 14. */
  lemma IterSumExamples()
    ensures Sum(Collect(IterOf(New([1, 2, 3], [4, 5, 6])))) == 21
    ensures Sum(Collect(IntoIter(Range(New([1, 2, 3], [4, 5, 6]), 1, 5)))) == 14
    ensures Collect(IterOf(Range(New([1, 2, 3], [4, 5, 6]), 2, 4))) == [3, 4]
  {
    var v := New([1, 2, 3], [4, 5, 6]);
    assert Elems(v) == [1, 2, 3, 4, 5, 6];
    assert Elems(v)[1..5] == [2, 3, 4, 5];
    assert Elems(v)[2..4] == [3, 4];
    LiteralSums();
  }

  /**
   The head-three sum of a ring buffer holding 1..5 is 6, wherever the buffer
   happens to split its contents into two slices.
   */
  lemma HeadSumExample(a: seq<int>, b: seq<int>)
    requires a + b == [1, 2, 3, 4, 5]
    ensures Sum(Collect(IterOf(Range(New(a, b), 0, 3)))) == 6
  {
    assert (a + b)[0..3] == [1, 2, 3];
    LiteralSums();
  }

  /**
   A ring buffer holding 4, 5, 6 (and then 4, 5, 6, 7) sums to 15 (and 22)
   however its contents are split into two slices.
   */
  lemma RingBufferSumExample(a: seq<int>, b: seq<int>)
    ensures a + b == [4, 5, 6] ==> Sum(Collect(IterOf(New(a, b)))) == 15
    ensures a + b == [4, 5, 6, 7] ==> Sum(Collect(IterOf(New(a, b)))) == 22
  {
    LiteralSums();
  }
}
