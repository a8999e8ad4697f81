/**
 * `zip_view<Sequences>` and `zip_iterator<IteratorSeq>`: a view over a sequence
 * of sequences whose iterator is the tuple of one iterator per input, advanced
 * in lockstep and dereferenced to the tuple of the current elements.
 */
module ZipView {
  import opened Protocol

  /** `zip_iterator<IteratorSeq>`: one component iterator per input sequence. */
  datatype ZipIter<T> = ZipIter(comps: seq<SeqIter<T>>) {
    /** Every component points at an element (none is exhausted). */
    predicate HasCurrent() {
      forall j :: 0 <= j < |comps| ==> comps[j].HasCurrent()
    }
  }

  /** `zip_iterator::category`: a single-pass iterator. */
  const ZipIterCategory: Category := InputIter

  /** `zip_view::tag`: size and the other sequence operations go through begin/end. */
  const ZipViewTag: SeqTag := NestedBeginEndTag

  /** `zip_view<Sequences>`, which stores only its input sequences. */
  datatype Zip<T> = Zip(sequences: seq<seq<T>>)

  /** The iterator walks the view's inputs, component for component. */
  predicate Walks<T(==)>(z: ZipIter<T>, v: Zip<T>) {
    |z.comps| == |v.sequences| && forall j :: 0 <= j < |z.comps| ==> z.comps[j].s == v.sequences[j]
  }

  /** Every input has at least `k` elements, so `k` lockstep steps from begin are well-formed. */
  predicate AllAtLeast<T>(v: Zip<T>, k: nat) {
    forall j :: 0 <= j < |v.sequences| ==> k <= |v.sequences[j]|
  }

  /** `zip_iterator<...>::type`: the tuple of the elements the components point at. */
  function ZipDeref<T(==)>(z: ZipIter<T>): (r: seq<T>)
    requires z.HasCurrent()
    ensures |r| == |z.comps|
    ensures forall j :: 0 <= j < |z.comps| ==> r[j] == z.comps[j].s[z.comps[j].pos]
  {
    Transform(z.comps, Deref)
  }

  /** `zip_iterator<...>::next`: every component advanced by one position. */
  function ZipNext<T(==)>(z: ZipIter<T>): (r: ZipIter<T>)
    requires z.HasCurrent()
    ensures |r.comps| == |z.comps|
    ensures forall j :: 0 <= j < |z.comps| ==>
              r.comps[j].s == z.comps[j].s && r.comps[j].pos == z.comps[j].pos + 1
  {
    ZipIter(Transform(z.comps, Next))
  }

  /** `zip_view<...>::begin`: the zip iterator of every input's begin. */
  function ZipBegin<T(==)>(v: Zip<T>): (z: ZipIter<T>)
    ensures Walks(z, v)
    ensures forall j :: 0 <= j < |z.comps| ==> z.comps[j].pos == 0
  {
    ZipIter(Transform(v.sequences, Begin))
  }

  /** `zip_view<...>::end`: the zip iterator of every input's end. */
  function ZipEnd<T(==)>(v: Zip<T>): (z: ZipIter<T>)
    ensures Walks(z, v)
    ensures forall j :: 0 <= j < |z.comps| ==> z.comps[j].AtEnd()
  {
    ZipIter(Transform(v.sequences, End))
  }

  /** `k` applications of `next`, each of which must be well-formed. */
  function Advance<T(==)>(z: ZipIter<T>, k: nat): (r: ZipIter<T>)
    requires forall j :: 0 <= j < |z.comps| ==> z.comps[j].pos + k <= |z.comps[j].s|
    ensures |r.comps| == |z.comps|
    ensures forall j :: 0 <= j < |z.comps| ==>
              r.comps[j].s == z.comps[j].s && r.comps[j].pos == z.comps[j].pos + k
    decreases k
  {
    if k == 0 then z else Advance(ZipNext(z), k - 1)
  }

  /** The zip iterator is single-pass and defines no `prior`. */
  lemma ZipIterIsSinglePass()
    ensures ZipIterCategory == InputIter && !SupportsPrior(ZipIterCategory)
    ensures ZipViewTag == NestedBeginEndTag
  {
  }

  /**
   * After `k` steps from begin, component `j` is at position `k` of input `j`,
   * and, while no input is exhausted, the dereferenced tuple holds the `k`-th
   * element of every input.
   */
  lemma AdvanceFromBegin<T>(v: Zip<T>, k: nat)
    requires AllAtLeast(v, k)
    ensures Walks(Advance(ZipBegin(v), k), v)
    ensures forall j :: 0 <= j < |v.sequences| ==> Advance(ZipBegin(v), k).comps[j] == SeqIter(v.sequences[j], k)
    ensures (forall j :: 0 <= j < |v.sequences| ==> k < |v.sequences[j]|) ==>
              Advance(ZipBegin(v), k).HasCurrent() &&
              forall j :: 0 <= j < |v.sequences| ==> ZipDeref(Advance(ZipBegin(v), k))[j] == v.sequences[j][k]
  {
  }

  /** An iterator over the view's inputs is `end` exactly when every component is at its own end. */
  lemma IsEndIff<T>(v: Zip<T>, z: ZipIter<T>)
    requires Walks(z, v)
    ensures z == ZipEnd(v) <==> forall j :: 0 <= j < |z.comps| ==> z.comps[j].AtEnd()
  {
  }

  /**
   * `k` well-formed steps from begin reach `end` exactly when every input has
   * length `k`.
   */
  lemma ReachesEndIff<T>(v: Zip<T>, k: nat)
    requires AllAtLeast(v, k)
    ensures Advance(ZipBegin(v), k) == ZipEnd(v) <==> forall j :: 0 <= j < |v.sequences| ==> |v.sequences[j]| == k
  {
  }

  /** Inputs that all have length `n` reach `end` after exactly `n` steps and not before. */
  lemma EqualLengthsReachEnd<T>(v: Zip<T>, n: nat)
    requires forall j :: 0 <= j < |v.sequences| ==> |v.sequences[j]| == n
    ensures Advance(ZipBegin(v), n) == ZipEnd(v)
    ensures |v.sequences| > 0 ==> forall k :: 0 <= k < n ==> Advance(ZipBegin(v), k) != ZipEnd(v)
  {
  }

  /**
   * With two inputs of different lengths no well-formed number of steps from
   * begin reaches `end`, and once the shortest input is exhausted the next
   * step is ill-formed.
   */
  lemma UnequalLengthsMissEnd<T>(v: Zip<T>, i: nat, j: nat, k: nat)
    requires i < |v.sequences| && j < |v.sequences|
    requires |v.sequences[i]| != |v.sequences[j]|
    requires AllAtLeast(v, k)
    ensures Advance(ZipBegin(v), k) != ZipEnd(v)
    ensures k == |v.sequences[i]| ==> !Advance(ZipBegin(v), k).HasCurrent()
  {
  }
}
