# Zip view, range `back`, fold guard and `empty_base` from Boost.MPL, in Dafny

Boost.MPL is a compile-time metaprogramming library. Its algorithms run while
the program is translated and compute types from types. This project models
four of its headers as ordinary values and functions:

- `zip_view<Sequences>` and its `zip_iterator`. The view's iterator holds one
  component iterator per input sequence. Dereferencing it gives the tuple of
  the current elements. `next` advances every component in lockstep.
- The `back` rule for half-open integral ranges (`range_c`). It returns
  `prior<finish>`, and it does not check that the range is non-empty.
- `aux::fold_pred<Last>`, the loop guard of `fold`. It holds while the current
  iterator is not `Last`, and it ignores the fold state.
- `empty_base` and the trait `is_empty_base`. The trait is true only for
  `empty_base`. The file also specialises `is_empty<empty_base>` to true.

A type is a Dafny value, and "is the identical type" is value equality. An
iterator into a sequence is `SeqIter(s, pos)`. Its end is `pos == |s|`. The
modules are:

- `Protocol` (`protocol.dfy`): tags, iterator categories, and the sequence
  protocol operations the headers call but do not define. These are `begin`,
  `end`, `next`, `apply0` (dereference), `prior` on an integral constant, and
  `transform`. Each gets its conventional meaning.
- `ZipView` (`zip_view.dfy`).
- `RangeBack` (`range_back.dfy`). Its helper `Elements` lists the constants a
  `range_c` covers. It is used to say that `back` is the last element.
- `FoldPred` (`fold_pred.dfy`). Its `FoldPredApply` models `fold_pred<Last>::apply<State, It>`: it is true unless `It` is `Last`, and it never reads `State`.
- `EmptyBase` (`empty_base.dfy`).

The zip header has no check that its inputs have equal lengths. Advancing an
exhausted component is ill-formed, but that rule belongs to `next` on the
component iterators, which is defined elsewhere; here it is assumed as the
precondition of `Protocol.Next`. The model follows it: `ZipNext` requires every component to have an element left, and `Advance(z, k)`
requires every component to have `k` elements left. The lemmas show that `end` is reachable from `begin` only when all
inputs have the same length.

## Model

| member | source | states |
|---|---|---|
| `Protocol.Transform` | boost/mpl/zip_view.hpp:30-39 | the element-wise map used by the iterator: same length, and element i is the operation applied to input i |
| `ZipView.ZipDeref` | boost/mpl/zip_view.hpp:30-33 | the dereferenced zip iterator has one element per component, in component order, and element j is what component j points at |
| `ZipView.ZipNext` | boost/mpl/zip_view.hpp:35-40 | `next` needs every component to point at an element; it keeps the number and order of components and moves each one exactly one position along its own sequence |
| `ZipView.ZipBegin` | boost/mpl/zip_view.hpp:49-54 | `begin` has one component per input sequence, and component j is at position 0 of input j |
| `ZipView.ZipEnd` | boost/mpl/zip_view.hpp:50-55 | `end` has one component per input sequence, and component j is at the end of input j |
| `ZipView.Advance` | boost/mpl/zip_view.hpp:35-40 | k well-formed `next` steps: every component moves exactly k positions on its own sequence |
| `ZipView.ZipIterIsSinglePass` | boost/mpl/zip_view.hpp:29-53 | records the declared category (single-pass input, a category that has no `prior`) and the declared nested begin/end tag; it follows from the two declarations and proves nothing further |
| `ZipView.AdvanceFromBegin` | boost/mpl/zip_view.hpp:35-54 | after k steps from `begin`, component j is at position k of input j; when no input is exhausted, the dereferenced tuple holds the k-th element of every input |
| `ZipView.IsEndIff` | boost/mpl/zip_view.hpp:50-55 | an iterator over the view's inputs equals `end` if and only if every component is at its own end |
| `ZipView.ReachesEndIff` | boost/mpl/zip_view.hpp:35-55 | k well-formed steps from `begin` reach `end` if and only if every input has length k |
| `ZipView.EqualLengthsReachEnd` | boost/mpl/zip_view.hpp:35-55 | inputs that all have length n reach `end` after exactly n steps; with at least one input, no earlier step is `end` |
| `ZipView.UnequalLengthsMissEnd` | boost/mpl/zip_view.hpp:35-55 | with two inputs of different lengths, no well-formed number of steps reaches `end`, and once the shortest input is used up a further `next` is ill-formed |
| `RangeBack.Elements` | boost/mpl/aux_/range_c/back.hpp:26-28 | reference definition of what a range holds: `finish - start` constants, element i being `start + i`; used to show that `back` is the last element |
| `RangeBack.Back` | boost/mpl/aux_/range_c/back.hpp:26-28 | `back` plus one is `finish`; on a non-empty range `back` lies in `[start, finish)`; on an empty range it lies below `start`, because there is no emptiness check (see also BackIsLastElement, EmptyRangeBackOutside) |
| `RangeBack.BackTraits` | boost/mpl/aux_/range_c/back.hpp:23-29 | this `back` rule answers exactly for the half-open range tag, and its answer is one less than `finish` |
| `RangeBack.RangeUsesBackTraits` | boost/mpl/aux_/range_c/back.hpp:23-28 | `back` of a range, which carries the half-open range tag, is answered by this specialisation with `Back` |
| `RangeBack.BackIgnoresStart` | boost/mpl/aux_/range_c/back.hpp:26-28 | two ranges with the same `finish` have the same `back`, whatever their `start` |
| `RangeBack.BackIsLastElement` | boost/mpl/aux_/range_c/back.hpp:28 | on a non-empty range, `back` lies in `[start, finish)`, is the range's last element and is not less than any element |
| `RangeBack.EmptyRangeBackOutside` | boost/mpl/aux_/range_c/back.hpp:26-28 | with no emptiness check, `back` of an empty range is `start - 1`, which is not an element of the range |
| `RangeBack.ZeroToFive` | boost/mpl/aux_/range_c/back.hpp:28 | the range `[0, 5)` holds 0, 1, 2, 3, 4 in order, and its `back` is 4 |
| `FoldPred.FoldPredFalseAtLast` | boost/mpl/aux_/fold_pred.hpp:31 | `apply<State, Last>` is false for every state, which is where the fold loop stops |
| `FoldPred.FoldPredIgnoresState` | boost/mpl/aux_/fold_pred.hpp:26-31 | any two states give the same answer for the same iterator |
| `FoldPred.FoldPredAlongSequence` | boost/mpl/aux_/fold_pred.hpp:23-31 | walking one sequence with `Last` set to its end, the guard holds at exactly the positions before the end |
| `FoldPred.FoldPredOverZipView` | boost/mpl/aux_/fold_pred.hpp:23-31 | over a zip view whose inputs all have length n, the guard after k steps from `begin` holds exactly while k < n; with no inputs it fails at `begin` |
| `EmptyBase.IsEmptyBase` | boost/mpl/empty_base.hpp:31-47 | `is_empty_base<empty_base>` is true (lines 40-42) and `is_empty_base<T>` is false for every other type (lines 31-33), so the trait is an equality test against `empty_base` (see also IsEmptyBaseIsEquality) |
| `EmptyBase.IsEmptySpecialisation` | boost/mpl/empty_base.hpp:51 | `is_empty` is specialised for `empty_base` alone, and the specialised value is true |
| `EmptyBase.IsEmptyBaseIsEquality` | boost/mpl/empty_base.hpp:31-47 | no two distinct types satisfy the trait |

## Left out

- `transform`, `begin`, `end`, `next`, `apply0` and `prior` are defined in headers that are not part of this model. They get their conventional meaning in `Protocol`, and nothing about them is proved beyond that meaning.
- `not_same_as` is also defined in a header that is not part of this model. `FoldPred.FoldPredApply` uses it directly, reading "not the identical type" as value inequality.
- A sequence's kind (`list`, `vector`, and so on) is not part of iterator identity. Iterators into two different kinds of sequence with equal contents and equal positions are equal in the model, even though they are different types in the library.
- The type of sequence that `transform` builds is not modelled. Two zip iterators count as the same type when their component iterators agree, one for one.
- `RangeBack.Back`: constants are unbounded integers. The model does not capture wrap-around of `prior` at the minimum of the range's integral type (for example `finish == 0` with an unsigned type).
- The general `is_empty` trait, which relies on the compiler, is not part of this model. Only its specialisation for `empty_base` is. The claim that `empty_base` has no members, and that inheriting from it through `inherit` is a no-op, is documentation only.
- `fold` itself is not shown. Only its guard `fold_pred` is modelled.
- `BOOST_MPL_AUX_VOID_SPEC`, lambda support, the MSVC workarounds and the `BOOST_TT_AUX_BOOL_TRAIT_SPEC1` machinery are preprocessor and compiler plumbing. Only their outcomes are recorded.
- `push_front.hpp` only forwards to an implementation that is not part of this model. The test drivers `typeof.cpp` and `test_vm_has_template_cp.cpp` exercise mechanisms that are not part of this model either.
