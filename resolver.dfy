/** `make_step_iterator` and `iterator_add_deref` on iterator chains:
    building a strided iterator out of any iterator without stacking stride
    layers, and pushing a dereference adaptor beneath a stride. */
module Resolver {
  import opened Cursors

  /** How many step-iterator layers a chain has. */
  function StrideDepth(c: Cursor): nat
  {
    match c
    case Raw(_, _) => 0
    case Strided(b, _) => 1 + StrideDepth(b)
    case Adapted(b, _) => StrideDepth(b)
  }

  /** The chain without the stride that governs its traversal: the first
      step-iterator layer reached through the other adaptors is removed, and
      everything else is kept. */
  function Unstrided(c: Cursor): Cursor
  {
    match c
    case Raw(_, _) => c
    case Strided(b, _) => b
    case Adapted(b, f) => Adapted(Unstrided(b), f)
  }

  /** How many adaptors of other kinds sit above the first step-iterator
      layer (all of them when the chain has no stride). */
  function Above(c: Cursor): nat
  {
    match c
    case Raw(_, _) => 0
    case Strided(_, _) => 0
    case Adapted(b, _) => 1 + Above(b)
  }

  /** `make_step_iterator(it, step)`.  A plain iterator is wrapped in a step
      iterator; a step iterator is replaced by one over the same base with
      the new step (the old step is dropped, not multiplied in); any other
      adaptor keeps its layer and has the stride put into its base. */
  function MakeStepIterator(it: Cursor, step: int): (r: Cursor)
    ensures Addr(r) == Addr(it)
    ensures ByteStep(r) == step
    ensures Unstrided(r) == Unstrided(it)
    ensures StrideDepth(r) == if StrideDepth(it) == 0 then 1 else StrideDepth(it)
    ensures Above(r) == Above(it)
    ensures it.Adapted? ==> r.Adapted? && r.deref == it.deref
  {
    match it
    case Raw(_, _) => Strided(it, step)
    case Strided(b, _) => Strided(b, step)
    case Adapted(b, f) => Adapted(MakeStepIterator(b, step), f)
  }

  /** The contract of MakeStepIterator leaves no freedom: any chain with the
      same address, the requested step, the same layers apart from the
      governing stride, the same stride count and the stride at the same depth
      is the result. */
  lemma {:induction false} MakeStepIteratorUnique(it: Cursor, step: int, r: Cursor)
    requires Addr(r) == Addr(it)
    requires ByteStep(r) == step
    requires Unstrided(r) == Unstrided(it)
    requires StrideDepth(r) == if StrideDepth(it) == 0 then 1 else StrideDepth(it)
    requires Above(r) == Above(it)
    ensures r == MakeStepIterator(it, step)
  {
    match it
    case Raw(_, _) =>
    case Strided(_, _) =>
    case Adapted(b, _) =>
      MakeStepIteratorUnique(b, step, r.base);
  }

  /** Re-striding a strided chain replaces its step: the result is the same
      as striding the original chain once with the last step, so repeated
      re-striding never deepens the chain. */
  lemma {:induction false} RestrideReplaces(it: Cursor, s1: int, s2: int)
    ensures MakeStepIterator(MakeStepIterator(it, s1), s2) == MakeStepIterator(it, s2)
  {
    match it
    case Raw(_, _) =>
    case Strided(_, _) =>
    case Adapted(b, _) => RestrideReplaces(b, s1, s2);
  }

  /** Re-striding a chain that already has a stride, with the step it already
      has, gives back the very same chain. */
  lemma {:induction false} RestrideWithOwnStep(it: Cursor)
    requires StrideDepth(it) > 0
    ensures MakeStepIterator(it, ByteStep(it)) == it
  {
    match it
    case Strided(_, _) =>
    case Adapted(b, _) => RestrideWithOwnStep(b);
  }

  /** The steps of the step-iterator layers at the top of a chain, outside in. */
  function LeadingStrides(c: Cursor): seq<int>
  {
    match c
    case Strided(b, s) => [s] + LeadingStrides(b)
    case _ => []
  }

  /** The chain beneath its top step-iterator layers. */
  function BelowStrides(c: Cursor): Cursor
  {
    match c
    case Strided(b, _) => BelowStrides(b)
    case _ => c
  }

  /** `iterator_add_deref<It, Deref>::make(it, d)`.  Over a step iterator the
      dereference adaptor goes beneath the stride and the step is kept; any
      other iterator is wrapped in the adaptor. */
  function AddDeref(it: Cursor, d: nat): (r: Cursor)
    ensures Addr(r) == Addr(it)
    ensures ByteStep(r) == ByteStep(it)
    ensures StrideDepth(r) == StrideDepth(it)
    ensures it.Strided? ==> r.Strided? && r.step == it.step
    ensures LeadingStrides(r) == LeadingStrides(it)
    ensures BelowStrides(r) == Adapted(BelowStrides(it), d)
  {
    match it
    case Strided(b, s) => Strided(AddDeref(b, d), s)
    case _ => Adapted(it, d)
  }

  /** The contract of AddDeref determines its result: the same top strides
      over the old chain wrapped in the new adaptor. */
  lemma {:induction false} AddDerefUnique(it: Cursor, d: nat, r: Cursor)
    requires LeadingStrides(r) == LeadingStrides(it)
    requires BelowStrides(r) == Adapted(BelowStrides(it), d)
    ensures r == AddDeref(it, d)
  {
    match it
    case Strided(b, _) =>
      assert LeadingStrides(r) == [it.step] + LeadingStrides(b);
      assert r.Strided?;
      assert LeadingStrides(r)[1..] == LeadingStrides(r.base);
      assert LeadingStrides(r)[1..] == LeadingStrides(b);
      AddDerefUnique(b, d, r.base);
    case _ =>
  }

  /** Adding a dereference adaptor and striding commute as far as traversal
      is concerned: either order starts at the same byte and steps by `step`. */
  lemma AddDerefThenStride(it: Cursor, d: nat, step: int)
    ensures Addr(MakeStepIterator(AddDeref(it, d), step)) == Addr(AddDeref(MakeStepIterator(it, step), d))
    ensures ByteStep(MakeStepIterator(AddDeref(it, d), step)) == ByteStep(AddDeref(MakeStepIterator(it, step), d)) == step
  {
  }
}
