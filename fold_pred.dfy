/**
 * `aux::fold_pred<Last>`, the loop guard of `fold`: a binary predicate on the
 * fold's state and its current iterator that holds while the iterator is not
 * the captured `Last`.
 */
module FoldPred {
  import opened Protocol
  import opened ZipView

  /**
   * `fold_pred<Last>::apply<State, It>`, which is `not_same_as<Last>::apply<It>`:
   * true unless `It` is the very type `Last`.
   */
  function FoldPredApply<S, I(==)>(last: I, state: S, it: I): bool {
    it != last
  }

  /** `apply<State, Last>` is false: the loop stops at `Last`. */
  lemma FoldPredFalseAtLast<S, I>(last: I, state: S)
    ensures !FoldPredApply(last, state, last)
  {
  }

  /** The state never affects the answer. */
  lemma FoldPredIgnoresState<S, I>(last: I, s1: S, s2: S, it: I)
    ensures FoldPredApply(last, s1, it) == FoldPredApply(last, s2, it)
  {
  }

  /** Walking one sequence, with `Last` its end, the guard holds before the end and fails at it. */
  lemma FoldPredAlongSequence<S, T>(s: seq<T>, state: S, i: nat)
    requires i <= |s|
    ensures FoldPredApply(End(s), state, SeqIter(s, i)) <==> i < |s|
  {
  }

  /**
   * Folding over a zip view of inputs that all have length `n`: after `k`
   * steps from begin the guard holds exactly while `k < n` (on a view with
   * no inputs, begin is already end and the guard fails at once).
   */
  lemma FoldPredOverZipView<S, T>(v: Zip<T>, state: S, n: nat, k: nat)
    requires forall j :: 0 <= j < |v.sequences| ==> |v.sequences[j]| == n
    requires k <= n
    ensures |v.sequences| > 0 ==> (FoldPredApply(ZipEnd(v), state, Advance(ZipBegin(v), k)) <==> k < n)
    ensures |v.sequences| == 0 ==> !FoldPredApply(ZipEnd(v), state, ZipBegin(v))
  {
    ReachesEndIff(v, k);
    if |v.sequences| > 0 && k < n {
      assert |v.sequences[0]| != k;
    }
    if |v.sequences| == 0 {
      ReachesEndIff(v, 0);
    }
  }
}
