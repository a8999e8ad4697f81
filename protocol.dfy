/**
 * The iterator and sequence protocol that the modelled headers build on.
 *
 * `begin`, `end`, `next`, `prior`, `apply0` (dereference) and `transform` are
 * defined in headers that are not part of this model; they are given here their
 * conventional meaning: first position, one-past-last position, successor
 * position, predecessor of an integral constant, the element at a position, and
 * the element-wise map of a sequence.
 *
 * A compile-time type is modelled as a value, and "is the identical type" as
 * value equality: an iterator is the pair of the sequence it walks and its
 * position, so two iterators are the same type exactly when both agree.
 */
module Protocol {

  datatype Option<+T> = None | Some(value: T)

  /** Dispatch tags that select a sequence operation's implementation. */
  datatype SeqTag = HalfOpenRangeTag | NestedBeginEndTag | OtherTag(name: string)

  /** Iterator categories, weakest first. */
  datatype Category = InputIter | ForwardIter | BidirectionalIter | RandomAccessIter

  /** `prior` is defined only on bidirectional and random-access iterators. */
  predicate SupportsPrior(c: Category) {
    c == BidirectionalIter || c == RandomAccessIter
  }

  /** A position `pos` in the sequence `s`; `pos == |s|` is the end position. */
  datatype SeqIter<T> = SeqIter(s: seq<T>, pos: nat) {
    predicate AtEnd() { pos == |s| }
    /** The iterator points at an element, so it may be dereferenced and advanced. */
    predicate HasCurrent() { pos < |s| }
  }

  /** `begin<S>::type` */
  function Begin<T>(s: seq<T>): SeqIter<T> {
    SeqIter(s, 0)
  }

  /** `end<S>::type` */
  function End<T>(s: seq<T>): SeqIter<T> {
    SeqIter(s, |s|)
  }

  /** `next<It>::type`; advancing an iterator at its end is ill-formed. */
  function Next<T>(it: SeqIter<T>): SeqIter<T>
    requires it.HasCurrent()
  {
    SeqIter(it.s, it.pos + 1)
  }

  /** `apply0<It>::type`, the element the iterator points at. */
  function Deref<T>(it: SeqIter<T>): T
    requires it.HasCurrent()
  {
    it.s[it.pos]
  }

  /** `prior<integral_c<T, N>>::type`, the integral constant `N - 1`. */
  function Prior(n: int): int {
    n - 1
  }

  /**
   * `transform<Seq, Op>::type`: the sequence of `op` applied to every element,
   * in order. Only the length and the order of the result are assumed.
   */
  function Transform<A, B>(xs: seq<A>, op: A --> B): (ys: seq<B>)
    requires forall i :: 0 <= i < |xs| ==> op.requires(xs[i])
    ensures |ys| == |xs|
    ensures forall i :: 0 <= i < |xs| ==> ys[i] == op(xs[i])
  {
    if xs == [] then [] else [op(xs[0])] + Transform(xs[1..], op)
  }
}
