/**
 * `back` of a half-open range of integral constants `[start, finish)`, the
 * `back_traits<half_open_range_tag>` specialisation: `prior<finish>`.
 */
module RangeBack {
  import opened Protocol

  /** A `range_c<T, Start, Finish>`: only its bounds are stored. */
  datatype HalfOpenRange = HalfOpenRange(start: int, finish: int)

  /** Every range carries the half-open range tag. */
  const RangeTag: SeqTag := HalfOpenRangeTag

  predicate IsEmpty(r: HalfOpenRange) {
    r.start == r.finish
  }

  /** The constants the range enumerates, from `start` up to but excluding `finish`. */
  function Elements(r: HalfOpenRange): (e: seq<int>)
    requires r.start <= r.finish
    ensures |e| == r.finish - r.start
    ensures forall i :: 0 <= i < |e| ==> e[i] == r.start + i
    decreases r.finish - r.start
  {
    if r.start == r.finish then [] else [r.start] + Elements(HalfOpenRange(r.start + 1, r.finish))
  }

  /** `back_traits<half_open_range_tag>::algorithm<Range>::type`; there is no emptiness check. */
  function Back(r: HalfOpenRange): (b: int)
    ensures b + 1 == r.finish
    ensures r.start < r.finish ==> r.start <= b < r.finish
    ensures r.start == r.finish ==> b < r.start
  {
    Prior(r.finish)
  }

  /**
   * `back<Seq>` dispatches on the sequence's tag; this specialisation answers
   * only for `half_open_range_tag`. `None` stands for "some other `back_traits`
   * specialisation", none of which is part of this model.
   */
  function BackTraits(tag: SeqTag, r: HalfOpenRange): (b: Option<int>)
    ensures b.Some? <==> tag == HalfOpenRangeTag
    ensures b.Some? ==> b.value + 1 == r.finish
  {
    if tag == HalfOpenRangeTag then Some(Back(r)) else None
  }

  /** `back` of a `range_c`, whose tag is the half-open range tag, reaches this specialisation. */
  lemma RangeUsesBackTraits(r: HalfOpenRange)
    ensures BackTraits(RangeTag, r) == Some(Back(r))
  {
  }

  /** `back` depends only on `finish`. */
  lemma BackIgnoresStart(r1: HalfOpenRange, r2: HalfOpenRange)
    requires r1.finish == r2.finish
    ensures Back(r1) == Back(r2)
  {
  }

  /** On a non-empty range, `back` is in the range and is its last element. */
  lemma BackIsLastElement(r: HalfOpenRange)
    requires r.start < r.finish
    ensures r.start <= Back(r) < r.finish
    ensures Back(r) == Elements(r)[|Elements(r)| - 1]
    ensures Back(r) in Elements(r)
    ensures forall x :: x in Elements(r) ==> x <= Back(r)
  {
  }

  /** On an empty range `back` is still `finish - 1`, which lies outside the range. */
  lemma EmptyRangeBackOutside(r: HalfOpenRange)
    requires IsEmpty(r)
    ensures Back(r) == r.start - 1
    ensures Elements(r) == [] && Back(r) !in Elements(r)
  {
  }

  /** The range `[0, 5)`: five constants, the first `0` and the back `4`. */
  lemma ZeroToFive()
    ensures Elements(HalfOpenRange(0, 5)) == [0, 1, 2, 3, 4]
    ensures Back(HalfOpenRange(0, 5)) == 4
  {
  }
}
