/** `byte_addressable_step_iterator` together with the `step_iterator_adaptor`
    it refines: an iterator over a base position whose unit of movement is a
    runtime byte step.  Movement and distance go through its `byte_step_fn`;
    the relational operators look at the base positions, in traversal order. */
module StepIterator {
  import opened CppInt
  import opened Cursors
  import opened StepFunction

  class ByteAddressableStepIterator {
    /** The wrapped base iterator. */
    var base: Cursor
    /** The step function holding the byte step. */
    var stepFn: ByteStepFn

    /** This iterator seen as the outermost layer of an iterator chain. */
    function View(): Cursor
      reads this
    {
      Strided(base, stepFn.step)
    }

    /** A default-constructed iterator: `proto` stands for the
        default-constructed base `Iterator()`, and the step is its natural
        element size. */
    constructor Default(proto: Cursor)
      ensures base == proto
      ensures stepFn.step == ByteStep(proto)
    {
      base := proto;
      stepFn := DefaultStepFn(proto);
    }

    /** An iterator over `it` moving `byteStep` bytes per step. */
    constructor (it: Cursor, byteStep: int)
      ensures base == it && stepFn.step == byteStep
      ensures View() == Strided(it, byteStep)
    {
      base := it;
      stepFn := ByteStepFn(byteStep);
    }

    /** The converting constructor: same base position and same step as `other`. */
    constructor Convert(other: ByteAddressableStepIterator)
      ensures base == other.base && stepFn.step == other.stepFn.step
      ensures View() == other.View()
    {
      base := other.base;
      stepFn := ByteStepFn(other.stepFn.step);
    }

    /** `step()`, which is also what `byte_step` reports for this iterator. */
    function Step(): (s: int)
      reads this
      ensures s == ByteStep(View())
    {
      stepFn.step
    }

    /** `++it`: one step further. */
    method Increment()
      modifies this
      ensures base == old(At(1)) && stepFn == old(stepFn)
      ensures ByteDistance(old(base), base) == Step()
    {
      base := stepFn.Advanced(base, 1);
    }

    /** `--it`: one step back. */
    method Decrement()
      modifies this
      ensures base == old(At(-1)) && stepFn == old(stepFn)
      ensures ByteDistance(old(base), base) == -Step()
    {
      base := stepFn.Advanced(base, -1);
    }

    /** `it += d`: d steps further (backwards for negative d). */
    method Advance(d: int)
      modifies this
      ensures base == old(At(d)) && stepFn == old(stepFn)
      ensures ByteDistance(old(base), base) == d * Step()
    {
      base := stepFn.Advanced(base, d);
    }

    /** `distance_to(other)`: the number of steps from this iterator to
        `other`, by this iterator's step function. */
    function DistanceTo(other: ByteAddressableStepIterator): (n: int)
      reads this, other
      requires Step() != 0
      ensures Abs(ByteDistance(base, other.base) - n * Step()) < Abs(Step())
      ensures Abs(n * Step()) <= Abs(ByteDistance(base, other.base))
    {
      stepFn.Difference(base, other.base)
    }

    /** `operator[](d)`: the position of the element d steps away, the one
        `*(it + d)` designates. */
    function At(d: int): (pos: Cursor)
      reads this
      ensures ByteDistance(base, pos) == d * Step()
      ensures Shape(pos) == Shape(base)
    {
      stepFn.Advanced(base, d)
    }

    /** `set_step`: rebind the step in place; the position stays. */
    method SetStep(byteStep: int)
      modifies this
      ensures stepFn.step == byteStep && base == old(base)
    {
      stepFn := ByteStepFn(byteStep);
    }

    /** `byte_advance(p, k)`: move the base k bytes, whatever the step. */
    method ByteAdvance(k: int)
      modifies this
      ensures View() == ByteAdvanced(old(View()), k)
      ensures Step() == old(Step())
    {
      base := ByteAdvanced(base, k);
    }

    /** `byte_advanced(p, k)`: a new iterator k bytes further with the same step. */
    method ByteAdvancedCopy(k: int) returns (r: ByteAddressableStepIterator)
      ensures fresh(r)
      ensures r.View() == ByteAdvanced(View(), k)
      ensures r.Step() == Step()
    {
      r := new ByteAddressableStepIterator(ByteAdvanced(base, k), stepFn.step);
    }

    // The relational operators.  Only this (the left) operand's step is
    // consulted: with a positive step they follow base address order, with
    // any other step they follow the reverse order.

    /** Equality compares the base positions only: no byte lies between
        them, in either direction, whatever the steps. */
    predicate Equal(other: ByteAddressableStepIterator)
      reads this, other
      ensures Equal(other) <==> ByteDistance(base, other.base) == 0
      ensures Equal(other) <==> ByteDistance(other.base, base) == 0
    {
      Addr(base) == Addr(other.base)
    }

    predicate NotEqual(other: ByteAddressableStepIterator)
      reads this, other
      ensures NotEqual(other) <==> !Equal(other)
    {
      Addr(base) != Addr(other.base)
    }

    /** `other` lies ahead: away from this iterator on the side its step
        points to (forwards in memory for a positive step, else backwards). */
    predicate Less(other: ByteAddressableStepIterator)
      reads this, other
      ensures Less(other) <==> NotEqual(other) && ((ByteDistance(base, other.base) > 0) == (Step() > 0))
    {
      if Step() > 0 then Addr(base) < Addr(other.base) else Addr(base) > Addr(other.base)
    }

    /** `other` lies behind: away from this iterator on the side opposite to
        the one its step points to. */
    predicate Greater(other: ByteAddressableStepIterator)
      reads this, other
      ensures Greater(other) <==> NotEqual(other) && ((ByteDistance(base, other.base) > 0) != (Step() > 0))
    {
      if Step() > 0 then Addr(base) > Addr(other.base) else Addr(base) < Addr(other.base)
    }

    predicate LessEq(other: ByteAddressableStepIterator)
      reads this, other
      ensures LessEq(other) <==> !Greater(other)
    {
      if Step() > 0 then Addr(base) <= Addr(other.base) else Addr(base) >= Addr(other.base)
    }

    predicate GreaterEq(other: ByteAddressableStepIterator)
      reads this, other
      ensures GreaterEq(other) <==> !Less(other)
    {
      if Step() > 0 then Addr(base) >= Addr(other.base) else Addr(base) <= Addr(other.base)
    }
  }

  /** For iterators on one traversal (p2 reached from p1 by n of p1's steps),
      the relational operators order them by traversal progress: p2 is
      "greater" exactly when it lies ahead, whether the step is positive
      (addresses grow) or negative (addresses shrink). */
  lemma OrderFollowsTraversal(p1: ByteAddressableStepIterator, p2: ByteAddressableStepIterator, n: int)
    requires p1.Step() != 0
    requires p2.base == p1.At(n)
    ensures p1.Less(p2) <==> n > 0
    ensures p1.Greater(p2) <==> n < 0
    ensures p1.LessEq(p2) <==> n >= 0
    ensures p1.GreaterEq(p2) <==> n <= 0
    ensures p1.Equal(p2) <==> n == 0
  {
    ProductSign(n, p1.Step());
  }

  /** On one traversal, the distance from p1 to the iterator n steps ahead is
      n, and back again it is -n when both share the step. */
  lemma TraversalDistance(p1: ByteAddressableStepIterator, p2: ByteAddressableStepIterator, n: int)
    requires p1.Step() != 0
    requires p2.base == p1.At(n)
    ensures p1.DistanceTo(p2) == n
    ensures p2.Step() == p1.Step() ==> p2.DistanceTo(p1) == -n
  {
    DifferenceOfAdvanced(p1.stepFn, p1.base, n);
    if p2.Step() == p1.Step() {
      DifferenceAntisymmetric(p1.stepFn, p1.base, p2.base);
    }
  }

  /** Each strict comparison is the negation of the opposite non-strict one,
      and equality and inequality are complementary, for any steps. */
  lemma ComparisonsComplement(p1: ByteAddressableStepIterator, p2: ByteAddressableStepIterator)
    ensures p1.Less(p2) <==> !p1.GreaterEq(p2)
    ensures p1.Greater(p2) <==> !p1.LessEq(p2)
    ensures p1.LessEq(p2) <==> p1.Less(p2) || p1.Equal(p2)
    ensures p1.NotEqual(p2) <==> !p1.Equal(p2)
  {
  }

  /** Equality never looks at the steps: iterators at one base position are
      equal whatever their steps, and then, whatever the steps, neither is
      strictly before the other and the distance between them is zero. */
  lemma EqualityIgnoresStep(p1: ByteAddressableStepIterator, p2: ByteAddressableStepIterator)
    ensures p1.Equal(p2) <==> Addr(p1.base) == Addr(p2.base)
    ensures p1.Equal(p2) <==> p2.Equal(p1)
    ensures p1.Equal(p2) ==> p1.LessEq(p2) && p1.GreaterEq(p2) && !p1.Less(p2) && !p1.Greater(p2)
    ensures p1.Equal(p2) && p1.Step() != 0 ==> p1.DistanceTo(p2) == 0
  {
    if p1.Equal(p2) && p1.Step() != 0 {
      QuotExact(0, p1.Step());
    }
  }

  /** Rebinding the step of one iterator never changes whether it equals
      another. */
  method RebindKeepsEquality(p1: ByteAddressableStepIterator, p2: ByteAddressableStepIterator, s: int)
    modifies p1
    ensures p1.Equal(p2) == old(p1.Equal(p2))
    ensures p1.Step() == s
  {
    p1.SetStep(s);
  }

  /** Rebinding the step and then stepping moves by the new step from the
      unchanged position, as a caller sees it. */
  method RestrideThenStep(it: ByteAddressableStepIterator, s: int)
    modifies it
    ensures ByteDistance(old(it.base), it.base) == s
    ensures it.Step() == s
  {
    it.SetStep(s);
    it.Increment();
  }

  /** Advancing n steps and then -n steps leaves the iterator where it was. */
  method AdvanceThereAndBack(it: ByteAddressableStepIterator, n: int)
    modifies it
    ensures it.base == old(it.base) && it.stepFn == old(it.stepFn)
  {
    ghost var f, b := it.stepFn, it.base;
    it.Advance(n);
    it.Advance(-n);
    AdvanceRoundTrip(f, b, n);
  }

  /** A column walk over a buffer of one-byte pixels with a row pitch of 10
      bytes: three increments from byte 0 reach byte 30, three steps away. */
  method ForwardColumnWalk()
  {
    var start := new ByteAddressableStepIterator(Raw(0, 1), 10);
    var it := new ByteAddressableStepIterator.Convert(start);
    ghost var third := start.At(3);
    assert third == Raw(30, 1);
    it.Increment();
    assert it.base == Raw(10, 1);
    it.Increment();
    assert it.base == Raw(20, 1);
    it.Increment();
    assert it.base == third;
    TraversalDistance(start, it, 3);
    assert start.DistanceTo(it) == 3;
  }

  /** The same column walked upwards with step -10 from byte 90: two
      increments reach byte 70, which compares greater than the start. */
  method BackwardColumnWalk()
  {
    var top := new ByteAddressableStepIterator(Raw(90, 1), -10);
    var up := new ByteAddressableStepIterator.Convert(top);
    up.Increment();
    up.Increment();
    assert Addr(up.base) == 70;
    assert up.Greater(top);
  }
}
