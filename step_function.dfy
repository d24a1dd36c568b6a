/** `byte_step_fn`: the policy object a byte-addressable step iterator
    delegates its movement and distance to.  It holds one signed byte step. */
module StepFunction {
  import opened CppInt
  import opened Cursors

  datatype ByteStepFn = ByteStepFn(step: int) {

    /** How many whole steps lie from it1 to it2: their byte distance divided
        by the step with C++ truncating division.  A step of zero is a caller
        error (the division is undefined), hence the precondition. */
    function Difference(it1: Cursor, it2: Cursor): (n: int)
      requires step != 0
      ensures Abs(ByteDistance(it1, it2) - n * step) < Abs(step)
      ensures Abs(n * step) <= Abs(ByteDistance(it1, it2))
    {
      Quot(ByteDistance(it1, it2), step)
    }

    /** The position `advance(it, d)` leaves `it` at: d steps of `step` bytes
        further, with the layers of `it` unchanged. */
    function Advanced(it: Cursor, d: int): (r: Cursor)
      ensures ByteDistance(it, r) == d * step
      ensures Shape(r) == Shape(it)
    {
      ByteAdvanced(it, d * step)
    }
  }

  /** The step function a default-constructed one holds: the natural byte
      size of one element of the base iterator type (`byte_step(Iterator())`),
      i.e. no striding at all. */
  function DefaultStepFn(proto: Cursor): (f: ByteStepFn)
    ensures forall it :: f.Advanced(it, 1) == ByteAdvanced(it, ByteStep(proto))
  {
    ByteStepFn(ByteStep(proto))
  }

  /** Advancing by m steps and then by n steps is advancing by m + n steps. */
  lemma AdvanceAdditive(f: ByteStepFn, it: Cursor, m: int, n: int)
    ensures f.Advanced(f.Advanced(it, m), n) == f.Advanced(it, m + n)
  {
    SubMul(m + n, n, f.step);
    ByteAdvancedAdditive(it, m * f.step, n * f.step);
  }

  /** Advancing by n steps and then by -n steps restores the original
      position, for every step including negative ones. */
  lemma AdvanceRoundTrip(f: ByteStepFn, it: Cursor, n: int)
    ensures f.Advanced(f.Advanced(it, n), -n) == it
  {
    AdvanceAdditive(f, it, n, -n);
    ByteAdvancedZero(it);
  }

  /** The distance from `it` to `it` advanced by n steps is n, whatever the
      sign of the (nonzero) step. */
  lemma DifferenceOfAdvanced(f: ByteStepFn, it: Cursor, n: int)
    requires f.step != 0
    ensures f.Difference(it, f.Advanced(it, n)) == n
  {
    QuotExact(n, f.step);
  }

  /** Swapping the two positions negates the distance, even when the byte
      distance is not a whole number of steps. */
  lemma DifferenceAntisymmetric(f: ByteStepFn, it1: Cursor, it2: Cursor)
    requires f.step != 0
    ensures f.Difference(it2, it1) == -f.Difference(it1, it2)
  {
    QuotNegate(ByteDistance(it1, it2), f.step);
  }
}
