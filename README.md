# GIL step iterators in Dafny

This project models the strided-iterator layer of Boost.GIL
(`boost/gil/step_iterator.hpp`). A step iterator walks a caller-owned pixel
buffer. Consecutive positions are a runtime byte step apart; a negative step
walks backwards. The layer consists of:

- `byte_step_fn`: a policy object holding a signed byte step. It moves a
  position by `d * step` bytes and measures distance as the byte distance
  divided by the step, with C++ truncating division.
- `step_iterator_adaptor` / `byte_addressable_step_iterator`: a base position
  plus a step function. Increment, decrement, advance and distance go through
  the step function. The relational operators follow traversal order: base
  order when the left operand's step is positive, and the reverse otherwise.
  Equality compares base positions only.
- The byte-level helpers `byte_step`, `byte_distance`, `byte_advance` and
  `byte_advanced`, and `iterator_add_deref`, which pushes a dereference
  adaptor beneath the stride.
- `make_step_iterator`: a three-way resolver. It wraps a plain iterator,
  replaces the step of a step iterator, and recurses into the base of any
  other adaptor.

Modules, one per file:

- `CppInt` (`cpp_int.dfy`): C++ signed division, `Quot`. Dafny's `/` is
  Euclidean; C++ truncates toward zero.
- `Cursors` (`cursors.dfy`): an iterator chain as a datatype, written from the
  outside in. `Raw(addr, elemSize)` is a plain pixel pointer.
  `Strided(base, step)` is a step-iterator layer. `Adapted(base, deref)` is any
  other adaptor, such as a dereference adaptor. This module also holds the
  byte arithmetic on chains. A position is a byte offset, and
  `byte_distance(a, b)` is `addr(b) - addr(a)`.
- `StepFunction` (`step_function.dfy`): `byte_step_fn` as a value type. The
  iterator holds it by value, as in C++.
- `StepIterator` (`step_iterator.dfy`): `byte_addressable_step_iterator` as a
  class with mutable `base` and `stepFn` fields. Its mutators (`Increment`,
  `Decrement`, `Advance`, `SetStep`, `ByteAdvance`) change these fields in
  place. `View()` shows the object as a `Strided` layer of a chain.
- `Resolver` (`resolver.dfy`): `make_step_iterator` and `iterator_add_deref`
  on chains.

The doc comment above `make_step_iterator` (step_iterator.hpp:305-307) says
that an existing step iterator is handled "by multiplying their steps". The
code at line 294 instead builds a new step iterator over the same base with
the requested step, so the old step is dropped. The model follows the code:
`Resolver.RestrideReplaces` and `MakeStepIterator`'s `ByteStep(r) == step`
state that the last step wins and that no second stride layer appears.

## Model

| member | source | states |
|---|---|---|
| `CppInt.Quot` | boost/gil/step_iterator.hpp:138 | the quotient that C++ `/` yields: the remainder is smaller than the divisor in magnitude, the quotient never overshoots, and the remainder is never of the opposite sign to the dividend |
| `CppInt.QuotExact` | boost/gil/step_iterator.hpp:138 | an exact multiple `n * b` divides back to `n` for every nonzero `b` of either sign |
| `CppInt.QuotNegate` | boost/gil/step_iterator.hpp:138 | truncating division is symmetric: `(-a) / b == -(a / b)` |
| `Cursors.ByteAdvanced` | boost/gil/step_iterator.hpp:238-243 | `byte_advanced(p, k)` lies exactly `k` bytes from `p` and keeps every layer, step and dereference function, so the step of a step iterator is kept |
| `Cursors.StridedByteDistance` | boost/gil/step_iterator.hpp:226-230 | the byte distance of two step iterators is that of their bases, whatever their steps |
| `StepFunction.ByteStepFn.Difference` | boost/gil/step_iterator.hpp:138 | the step count between two positions is their byte distance truncated to whole steps toward zero (a zero step is the caller's error) |
| `StepFunction.ByteStepFn.Advanced` | boost/gil/step_iterator.hpp:139 | `advance(it, d)` moves the position exactly `d * step` bytes and changes nothing else about it |
| `StepFunction.AdvanceAdditive` | boost/gil/step_iterator.hpp:139 | advancing `m` steps then `n` steps equals advancing `m + n` steps |
| `StepFunction.AdvanceRoundTrip` | boost/gil/step_iterator.hpp:70-72 | advancing `n` steps then `-n` steps restores the position, for any step |
| `StepFunction.DifferenceOfAdvanced` | boost/gil/step_iterator.hpp:138-139 | for a nonzero step of either sign, the distance from `it` to `it` advanced by `n` steps is `n` |
| `StepFunction.DifferenceAntisymmetric` | boost/gil/step_iterator.hpp:138 | swapping the two positions negates the distance, even for a byte distance that is not a whole number of steps |
| `StepIterator.ByteAddressableStepIterator.Default` | boost/gil/step_iterator.hpp:136 | a default-constructed iterator has the natural element size of its base type as its step |
| `StepIterator.ByteAddressableStepIterator.constructor` | boost/gil/step_iterator.hpp:162 | the iterator holds the given base and byte step |
| `StepIterator.ByteAddressableStepIterator.Convert` | boost/gil/step_iterator.hpp:163-165 | the converting constructor keeps the source iterator's base and step |
| `StepIterator.ByteAddressableStepIterator.Increment` | boost/gil/step_iterator.hpp:70 | increment moves the base by exactly `+step` bytes, to the element `operator[](1)` designated, and keeps the step |
| `StepIterator.ByteAddressableStepIterator.Decrement` | boost/gil/step_iterator.hpp:71 | decrement moves the base by exactly `-step` bytes, to the element `operator[](-1)` designated, and keeps the step |
| `StepIterator.ByteAddressableStepIterator.Advance` | boost/gil/step_iterator.hpp:72 | advancing by `d` moves the base by exactly `d * step` bytes, to the element `operator[](d)` designated, and keeps the step |
| `StepIterator.ByteAddressableStepIterator.DistanceTo` | boost/gil/step_iterator.hpp:73 | the iterator difference is the base byte distance truncated to whole steps of this iterator's step |
| `StepIterator.ByteAddressableStepIterator.At` | boost/gil/step_iterator.hpp:169 | `operator[](d)` designates the element `d * step` bytes from the base, with the base's layers unchanged |
| `StepIterator.ByteAddressableStepIterator.SetStep` | boost/gil/step_iterator.hpp:171 | `set_step` replaces the step and leaves the base position unchanged |
| `StepIterator.ByteAddressableStepIterator.ByteAdvance` | boost/gil/step_iterator.hpp:233-236 | `byte_advance` moves the base by `k` bytes, ignores the step and keeps it |
| `StepIterator.ByteAddressableStepIterator.ByteAdvancedCopy` | boost/gil/step_iterator.hpp:238-243 | `byte_advanced` returns a new iterator `k` bytes further with the original's step |
| `StepIterator.OrderFollowsTraversal` | boost/gil/step_iterator.hpp:78-106 | for two iterators on one traversal, `<`, `>`, `<=`, `>=` and `==` order them by traversal progress `n` for both positive and negative steps, so a negative step inverts address order |
| `StepIterator.TraversalDistance` | boost/gil/step_iterator.hpp:73 | the distance to the iterator `n` steps ahead is `n`, and the distance back is `-n` when both share the step |
| `StepIterator.ComparisonsComplement` | boost/gil/step_iterator.hpp:78-106 | `<` is the negation of `>=`, `>` is the negation of `<=`, `<=` is `<` or `==`, and `!=` is the negation of `==`, for any steps |
| `StepIterator.EqualityIgnoresStep` | boost/gil/step_iterator.hpp:98-106 | equal iterators, whatever their steps, are each `<=` and `>=` the other and neither `<` nor `>` the other, and the distance between them is zero; equality is symmetric |
| `StepIterator.RebindKeepsEquality` | boost/gil/step_iterator.hpp:98-106 | rebinding one iterator's step never changes whether it equals another |
| `StepIterator.ByteAddressableStepIterator.Equal` | boost/gil/step_iterator.hpp:98-101 | `==` holds exactly when the byte distance between the bases is zero, measured either way; the steps play no part |
| `StepIterator.ByteAddressableStepIterator.NotEqual` | boost/gil/step_iterator.hpp:103-106 | `!=` is the negation of `==` |
| `StepIterator.ByteAddressableStepIterator.Less` | boost/gil/step_iterator.hpp:83-86 | `p1 < p2` holds when `p2` lies at another address on the side `p1`'s own step points to (higher addresses for a positive step, lower otherwise); `p2`'s step is not consulted |
| `StepIterator.ByteAddressableStepIterator.Greater` | boost/gil/step_iterator.hpp:78-81 | `p1 > p2` holds when `p2` lies at another address on the side opposite to the one `p1`'s step points to |
| `StepIterator.ByteAddressableStepIterator.LessEq` | boost/gil/step_iterator.hpp:93-96 | `<=` is the negation of `>` |
| `StepIterator.ByteAddressableStepIterator.GreaterEq` | boost/gil/step_iterator.hpp:88-91 | `>=` is the negation of `<` |
| `StepIterator.ByteAddressableStepIterator.Step` | boost/gil/step_iterator.hpp:224 | `byte_step` of a step iterator reports its own step, not the step of its base |
| `Cursors.ByteStepIgnoresAddr` | boost/gil/step_iterator.hpp:224 | `byte_step` depends only on an iterator's layers and steps, never on where it points |
| `StepFunction.DefaultStepFn` | boost/gil/step_iterator.hpp:136 | the default step function advances one step by the natural element size of the base type, i.e. plain element-by-element traversal |
| `StepIterator.RestrideThenStep` | boost/gil/step_iterator.hpp:142 | after `set_step(s)`, the next increment moves by `s` bytes from the unchanged position |
| `StepIterator.AdvanceThereAndBack` | boost/gil/step_iterator.hpp:72 | advancing by `n` then by `-n` leaves the iterator's base and step as they were |
| `Resolver.MakeStepIterator` | boost/gil/step_iterator.hpp:280-314 | the result starts at the same byte and steps by exactly the requested step. It keeps everything except the governing stride, which sits beneath exactly as many other adaptors as before, so a stride is placed at the innermost iterator when there was none. It has exactly one stride layer when the input had none and never more than the input otherwise |
| `Resolver.MakeStepIteratorUnique` | boost/gil/step_iterator.hpp:280-314 | the properties in `MakeStepIterator`'s contract determine its result: any chain that has them is the result |
| `Resolver.RestrideReplaces` | boost/gil/step_iterator.hpp:292-295 | striding with `s1` and then `s2` equals striding once with `s2`: the step is replaced, not multiplied, and no layer is stacked |
| `Resolver.RestrideWithOwnStep` | boost/gil/step_iterator.hpp:292-295 | re-striding a strided chain with its own step gives back the same chain |
| `Resolver.AddDeref` | boost/gil/step_iterator.hpp:262-269 | the result has the same step-iterator layers on top with the same steps, and beneath them the adaptor `d` wraps what was beneath them before. The byte address, the byte step and the number of stride layers are kept |
| `Resolver.AddDerefUnique` | boost/gil/step_iterator.hpp:262-269 | the top strides and the adaptor beneath them determine the result of `AddDeref` |
| `Resolver.AddDerefThenStride` | boost/gil/step_iterator.hpp:268 | adding a dereference adaptor and striding, in either order, start at the same byte and step by the requested step |

## Left out

- Pixel values, dereferencing and reference types are not modelled; a position is represented by its byte address. `operator[]` yields the position of the element, not a reference to it.
- The real `byte_step`, `byte_distance` and `byte_advance` on plain pixel iterators are defined in pixel_iterator.hpp, which is not part of this model. They are modelled as byte-offset arithmetic on `Raw`.
- The dereference adaptor and its own `byte_step`, conversions and generic `iterator_add_deref` are defined in pixel_iterator_adaptor.hpp, which is not part of this model. `Adapted` forwards byte movement and `byte_step` to its base. Generic `iterator_add_deref` wraps the iterator in one more adaptor; GIL's composition of two dereference functions is not modelled.
- `MakeStepIterator`: in the compound case, the source converts the inner result to the outer adaptor type (line 288). That conversion is not part of this model. The model keeps the outer adaptor with its dereference function.
- The relational operators compare base iterators by byte address. This matches raw pointers and dereference adaptors. A base that is itself a step iterator would compare in its own traversal direction, and that is not modelled.
- Type-level metadata (`const_iterator_type`, `iterator_is_mutable`, `color_space_type`, `channel_mapping_type`, `is_planar`, `channel_type`, `dynamic_x_step_type`, `iterator_adaptor_rebind`), `byte_advanced_ref` and the `GIL_CLASS_REQUIRE` concept checks are compile-time plumbing and are not modelled.
- The `boost::iterator_facade` / `iterator_adaptor` machinery (operator dispatch through `iterator_core_access`, `it + d`) is not modelled. The class exposes the hooks directly.
- `std::ptrdiff_t` overflow in `d * step` and in pointer arithmetic is not modelled; integers are unbounded.
- Iterators over unrelated buffers are not distinguished; the source leaves comparisons between them undefined.
