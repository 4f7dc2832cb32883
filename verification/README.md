# uvector in Dafny

A model of the `uvector` crate. `UVec` is a read-only view over two slices
that behaves as one vector: their concatenation `first ++ second`. It comes
with the cursor `Iter`, which walks the first slice and then the second.

The model has three modules:

- `UVector` (`uvec.dfy`) holds the view `UVec(first, second)` and its
  abstraction `Elems(v) == first + second`. It also holds construction
  (`New`, `Empty`), `Len`, indexing (`At`) and sub-range derivation
  (`Range`). `Range` is modelled through the four clamped offsets
  `RangeOffsets` computes.
- `Iteration` (`iter.dfy`) holds the cursor `Iter(pos, first, second)`, the
  step `Next` and the three ways of making a cursor: `iter()`, `into_iter` on
  a value and `into_iter` on a reference. It also holds full traversal, once
  as a recursive function (`Collect`) and once as a loop (`Drain`).
- `Scenarios` (`scenarios.dfy`) states the concrete examples of the crate's
  tests and documentation over the model.

Rust's `usize` is modelled as `nat`. A Rust panic becomes a `requires`:
`At` requires `i < Len(v)`, and `Range` requires `start <= end <= Len(v)`.
The exact condition under which the underlying slice operations would panic
is written down separately, as `IndexInBounds` and `SlicesInBounds`. Lemmas
prove that each condition is equivalent to the matching `requires`. So the
preconditions are exactly the panic-free inputs, neither stronger nor
weaker. Rust's `next(&mut self)` becomes a pure step that returns the
yielded item together with the advanced cursor.

## Model

| member | source | states |
|---|---|---|
| UVector.New | src/lib.rs:86-89 | the view built from two slices has the concatenation of the two as its contents, and their summed length as its length |
| UVector.Empty | src/lib.rs:90-99 | the empty view has length 0 and no elements |
| UVector.Len | src/lib.rs:100-104 | the length of a view is the number of its logical elements, i.e. the length of `first + second` |
| UVector.At | src/lib.rs:124-133 | for `i < len`, indexing returns element `i` of the concatenation `first + second` |
| UVector.AtTranslatesToParts | src/lib.rs:126-133 | an index below the seam reads `first[i]`; an index at or past the seam reads `second[i - len(first)]` |
| UVector.IndexPanicsExactlyOutOfRange | src/lib.rs:126-133 | the slice access made by indexing is in bounds if and only if `i < len`, so indexing panics exactly for `i >= len` |
| UVector.RangeOffsets | src/lib.rs:114-119 | each bound is split at the seam: its part-1 offset is clamped to `len(first)`, the two offsets add up to the bound, and a part-2 offset is non-zero only once the part-1 offset has reached the seam |
| UVector.RangePanicsExactlyWhenInvalid | src/lib.rs:109-120 | both slices taken by `range` are in bounds (`start1 <= end1 <= len(first)`, `start2 <= end2 <= len(second)`) if and only if `start <= end <= len` |
| UVector.Range | src/lib.rs:109-121 | for `start <= end <= len`, the sub-view has exactly the logical elements `[start, end)` and length `end - start`, and each of its parts is no longer than the original part |
| UVector.RangeSlicesConcat | src/lib.rs:114-120 | the slice of part 1 followed by the slice of part 2 is the logical slice `[start, end)` of the view |
| UVector.RangeAt | src/lib.rs:58-63 | element `k` of `range(start, end)` is element `start + k` of the original view |
| UVector.RangeEmpty | src/lib.rs:114-121 | `range(k, k)` for any `k <= len`, the seam included, is the view with both parts empty |
| UVector.RangeFull | src/lib.rs:114-121 | `range(0, len)` gives back the original view, part for part |
| UVector.RangeInFirst | src/lib.rs:114-120 | a range ending at or before the seam takes only a slice of part 1 and an empty slice of part 2 |
| UVector.RangeInSecond | src/lib.rs:114-120 | a range starting at or after the seam takes an empty slice of part 1 and the offset-shifted slice of part 2 |
| UVector.RangeStraddles | src/lib.rs:114-120 | a range straddling the seam takes a suffix of part 1 and a prefix of part 2 |
| UVector.RangeOfRange | src/lib.rs:109-121 | a range of a range has the same elements as the composed range of the original view |
| Iteration.IterOf | src/lib.rs:105-108 | `iter()` starts at position 0 over the same parts, so it has exactly the view's elements left to yield |
| Iteration.IntoIter | src/lib.rs:162-168 | consuming `into_iter` starts at position 0 over the same parts, so it has exactly the view's elements left to yield |
| Iteration.IntoIterRef | src/lib.rs:170-176 | borrowing `into_iter` starts at position 0 over the same parts, so it has exactly the view's elements left to yield |
| Iteration.TraversalsAgree | src/lib.rs:162-176 | the consuming and the borrowing traversal start in the same state as `iter()` and yield the same sequence, the view's elements |
| Iteration.Next | src/lib.rs:142-160 | below the length, a step yields the element at `pos` of `first + second` and advances `pos` by exactly one; at or past the length, it yields `None` and leaves the cursor unchanged |
| Iteration.NextConsumesRemaining | src/lib.rs:144-159 | a step yields `None` exactly when nothing remains; otherwise what remains is the yielded item followed by what remains after the step |
| Iteration.StepsPosition | src/lib.rs:144-159 | after `n` steps from a position at or below the length, the position is `min(pos + n, len)` and the parts are unchanged |
| Iteration.ExhaustionIsFinal | src/lib.rs:155-157 | once exhausted, any number of further steps leave the cursor unchanged, and every step yields `None` |
| Iteration.YieldMatchesIndex | src/lib.rs:144-159 | the `k`-th item a fresh cursor yields is the view's element at index `k` |
| Iteration.ExhaustedAfterLen | src/lib.rs:144-159 | a fresh cursor is exhausted after `n` steps if and only if `n >= len` |
| Iteration.Collect | src/lib.rs:142-160 | stepping until `None` yields exactly the elements from `pos` to the end of `first + second`, in order |
| Iteration.Drain | src/lib.rs:228-237 | a `for` loop over a cursor gathers exactly the elements that remain, and it leaves the cursor exhausted over the same parts |
| Iteration.IterYieldsElems | src/lib.rs:221-232 | a fresh cursor yields `len` items, exactly the view's elements in order, each equal to indexing at its position |
| Iteration.IterSumIgnoresSeam | tests/vecdeque.rs:6-10 | the sum over an iterated view is the sum of part 1 plus the sum of part 2, wherever the seam lies |
| Scenarios.IndexExamples | src/lib.rs:182-195 | concrete indexing across the seam and with an empty first part |
| Scenarios.IndexOutOfRangeExample | src/lib.rs:197-202 | index 2 of `([1,2], [])` is out of bounds for the slice access, so the access panics |
| Scenarios.RangeExamples | src/lib.rs:204-219 | the concrete sub-ranges `(1,5)`, `(0,2)`, `(3,4)`, `(4,4)` and `(2,4)` of `([1,2,3], [4,5,6])` |
| Scenarios.IterSumExamples | src/lib.rs:221-238 | iterating `([1,2,3], [4,5,6])` sums to 21, iterating `range(1, 5)` sums to 14, and `range(2, 4)` yields `[3, 4]` |
| Scenarios.HeadSumExample | src/lib.rs:18-31 | the first three elements of a ring buffer holding 1..5 sum to 6, for every split into two slices |
| Scenarios.RingBufferSumExample | tests/vecdeque.rs:12-26 | a ring buffer holding 4, 5, 6 (then 4, 5, 6, 7) sums to 15 (then 22), for every split into two slices |

## Left out

- Lifetimes and borrowing: the parts are immutable `seq` values, so a view
  cannot outlive or observe a change to its data.
- `#[derive(Debug)]` on `UVec` and the trait plumbing (`Index`, `Iterator`,
  `IntoIterator` as traits): only the functions behind them are modelled.
- Items are yielded as values rather than as references `&T`. Dafny has no
  counterpart to a reference into a slice, and no behaviour depends on it.
- UVector.Len: does not model `usize` overflow of `len(first) + len(second)`.
  The sum is taken as an unbounded `nat`. Overflow can only happen for
  zero-sized element types, whose slices may each be `usize::MAX` long.
- Panics are not modelled as a runtime failure. Each panic is a
  precondition, and the exact panic condition is a predicate proved
  equivalent to it.
- `VecDeque::as_slices` (std) is not part of this model. The ring-buffer
  examples take its two slices as any split of the buffer's contents.
- The `i32` sums of the tests and examples are taken over `int`, without
  wrap-around. No example comes near the `i32` range.
