/** Positions in a caller-owned pixel buffer and the byte-level arithmetic on
    them (the ByteAdvanceableIterator operations).  A position is a chain of
    iterator layers over a raw pixel pointer; every layer forwards byte
    movement to the layer below, so a chain has one byte address. */
module Cursors {

  /** One iterator, described by its layers from the outside in.
      - Raw: a plain pixel pointer: its byte address and the byte size of the
        pixel it points to (what `byte_step` of a plain pointer reports).
      - Strided: a `byte_addressable_step_iterator` over `base` with byte step `step`.
      - Adapted: any other compound iterator adaptor over `base`, such as a
        dereference adaptor; `deref` identifies its dereference function. */
  datatype Cursor =
    | Raw(addr: int, elemSize: int)
    | Strided(base: Cursor, step: int)
    | Adapted(base: Cursor, deref: nat)

  /** The byte address the chain designates. */
  function Addr(c: Cursor): int
  {
    match c
    case Raw(a, _) => a
    case Strided(b, _) => Addr(b)
    case Adapted(b, _) => Addr(b)
  }

  /** The chain with its byte address erased: its layers, steps and
      dereference functions, which byte movement never touches. */
  function Shape(c: Cursor): Cursor
  {
    match c
    case Raw(_, e) => Raw(0, e)
    case Strided(b, s) => Strided(Shape(b), s)
    case Adapted(b, f) => Adapted(Shape(b), f)
  }

  /** A chain is fully determined by its shape and its address. */
  lemma {:induction false} ShapeAndAddrDetermine(c1: Cursor, c2: Cursor)
    requires Shape(c1) == Shape(c2) && Addr(c1) == Addr(c2)
    ensures c1 == c2
  {
    match c1
    case Raw(_, _) =>
    case Strided(b1, _) => ShapeAndAddrDetermine(b1, c2.base);
    case Adapted(b1, _) => ShapeAndAddrDetermine(b1, c2.base);
  }

  /** `byte_step`: the number of bytes one step of the iterator covers.  For a
      step iterator it is its own step (not its base's); an adaptor of
      another kind reports the step of its base. */
  function ByteStep(c: Cursor): int
  {
    match c
    case Raw(_, e) => e
    case Strided(_, s) => s
    case Adapted(b, _) => ByteStep(b)
  }

  /** `byte_step` depends on the layers and steps of an iterator, never on
      where it points. */
  lemma {:induction false} ByteStepIgnoresAddr(c1: Cursor, c2: Cursor)
    requires Shape(c1) == Shape(c2)
    ensures ByteStep(c1) == ByteStep(c2)
  {
    match c1
    case Raw(_, _) =>
    case Strided(_, _) =>
    case Adapted(b1, _) => ByteStepIgnoresAddr(b1, c2.base);
  }

  /** `byte_distance(p1, p2)`: how many bytes lie from p1 forward to p2. */
  function ByteDistance(p1: Cursor, p2: Cursor): int
  {
    Addr(p2) - Addr(p1)
  }

  /** `byte_advanced(p, k)`: a copy of p moved k bytes, with every layer, step
      and dereference function kept. */
  function ByteAdvanced(c: Cursor, k: int): (r: Cursor)
    ensures ByteDistance(c, r) == k
    ensures Shape(r) == Shape(c)
    ensures ByteStep(r) == ByteStep(c)
  {
    match c
    case Raw(a, e) => Raw(a + k, e)
    case Strided(b, s) => Strided(ByteAdvanced(b, k), s)
    case Adapted(b, f) => Adapted(ByteAdvanced(b, k), f)
  }

  /** The byte distance between two step iterators is that between their
      bases: their steps play no part. */
  lemma StridedByteDistance(b1: Cursor, s1: int, b2: Cursor, s2: int)
    ensures ByteDistance(Strided(b1, s1), Strided(b2, s2)) == ByteDistance(b1, b2)
  {
  }

  /** Moving by j bytes and then by k bytes is moving by j + k bytes. */
  lemma ByteAdvancedAdditive(c: Cursor, j: int, k: int)
    ensures ByteAdvanced(ByteAdvanced(c, j), k) == ByteAdvanced(c, j + k)
  {
    ShapeAndAddrDetermine(ByteAdvanced(ByteAdvanced(c, j), k), ByteAdvanced(c, j + k));
  }

  /** Moving by zero bytes changes nothing. */
  lemma ByteAdvancedZero(c: Cursor)
    ensures ByteAdvanced(c, 0) == c
  {
    ShapeAndAddrDetermine(ByteAdvanced(c, 0), c);
  }
}
