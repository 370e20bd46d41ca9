# Opuntia fractal: a Dafny model of its generator and list

OpuntiaFractal draws a "prickly pear" cactus: a recursive tree of circles. A cactus-coloured
circle carries two smaller children placed at a branching angle; the circles at the tips are
pear-coloured. This project models the three parts of the program that hold logic, and proves
what they do.

- **`Fractal`**: the immutable circle record, with its validating constructor. It is
  module `Shapes` in `shapes.dfy`, a datatype with a validity predicate.
- **`ArrayList<E>`**: the hand-written growable list, with its iterator. It is module `Lists` in `array_list.dfy`.
  - It is a class over an `array<Option<E>>` buffer and a `size` counter.
  - Every loop of the modelled `ArrayList.java` methods is a method with invariants. Each is proved against a function or predicate on sequences that says what the loop does to the buffer or the elements, or what it finds.
  - That covers the shifts of `add(index, value)` and `remove`, the nulling loop of `clear`, growth in `ensureCapacity`, `indexOf`, both loops of `compressNulls`, and the `next`/`remove` protocol of the iterator.
- **`GenerateFractal`**: the settings holder and circle generator. It is split across two modules.
  - Module `FractalTree` (`fractal_tree.dfy`) holds `Build`, a function that gives what one `generateFractals` call appends and what it throws. The lemmas proved about `Build` cover:
    - when the recursion throws;
    - how many circles it appends, in which colours and in which order;
    - the full tree of 2^depth - 1 circles;
    - the radius-below-5 shortcut.
  - Module `Generator` (`generator.dfy`) holds the class. It keeps the settings, the circles and the observer list as fields, and its recursive methods are proved to append exactly `Build`'s circles.

Supporting modules:
- `Wrappers` (`wrappers.dfy`): Java `null` is `Option`; a thrown exception is `Err`/`Fail` over an `Exception` enumeration.
- `JavaInts` (`java_ints.dfy`):
  - `Wrap` is `int` wrap-around;
  - `Truncate` is the `(int)` cast of a double, which rounds toward zero and saturates.

Radii and the ratio are exact `real`s. Angles are kept in degrees. The child-centre arithmetic
(`Math.sin`, `Math.cos` and `(int)` casts) is a total function `place` of the parent radius, the
child radius, the parent centre and the angle. The generator receives it at construction and
never interprets it. The right child is placed along `currentDegree` and the left one along
`currentDegree - 2 * degree`. The children recurse with `currentDegree + degree` and
`currentDegree - degree`. All of this is exactly as the code does it.

Facts about the code that the model makes explicit:
- **Default tree size.** The default cactus has the full 31 circles (`Generator.DefaultTree`). The radius-below-5 test runs only at depth 2 or more, where the smallest radius is 100 × 0.45^3 = 9.1125. The radii of 4.100625 occur only in the depth-1 leaves, where the test is not made.
- **Angle range.** `setData` checks no range for the branch angle.
- **Diameter.** `getDiameter` computes `2 * radius` in Java `int`, so the result wraps negative once the radius reaches 2^30.
- **Small radii.** A radius in (0, 1) throws: `(int)radius` is 0, and the `Fractal` constructor rejects it.

## Model

| member | source | states |
|---|---|---|
| `JavaInts.Wrap` | src/Fractal.java:41 | the result is a Java `int`; it equals the exact product when that fits, and differs from it by a multiple of 2^32 |
| `JavaInts.Truncate` | src/GenerateFractal.java:87 | `(int)` of a double: saturates at both bounds, is the floor for non-negative values and the ceiling for negative ones, and is at least 1 exactly when the value is at least 1 |
| `JavaInts.TruncateMonotone` | src/GenerateFractal.java:109 | the cast never reverses an order |
| `Shapes.NewFractal` | src/Fractal.java:31-45 | succeeds exactly for a positive radius, a centre and a colour; otherwise IllegalArgumentException; the circle it makes is valid, and its getters return the given radius, centre and colour |
| `Shapes.Fractal.GetDiameter` | src/Fractal.java:71-73 | twice the radius below 2^30; from 2^30 up, the wrapped negative value `2 * radius - 2^32` |
| `Lists.GrownLength` | src/ArrayList.java:173-181 | the new length is at least the old one and at least the request; it is unchanged when the request fits; otherwise it is the request or `len + len/2 + 1`, whichever is larger |
| `Lists.Grown` | src/ArrayList.java:179 | `Arrays.copyOf`: the old slots first, then nulls up to the grown length |
| `Lists.Inserted` | src/ArrayList.java:108-111 | same length; `value` at `index`; earlier slots unchanged; slots `index+1..n` hold the old `index..n-1`; later slots unchanged |
| `Lists.Removed` | src/ArrayList.java:121-124 | same length; slots `index..n-2` hold the old `index+1..n-1`; slot `n-1` is null; every other slot unchanged |
| `Lists.Cleared` | src/ArrayList.java:142-144 | the first `n` slots are null and the rest unchanged |
| `Lists.NonNulls` | src/ArrayList.java:195-196 | the non-null entries: no nulls, and no longer than the input |
| `Lists.Compacted` | src/ArrayList.java:208-217 | the buffer once the compacting loop has passed `m` slots; its length is unchanged |
| `Lists.NonNullsMultiset` | src/ArrayList.java:195-196 | `NonNulls` keeps every non-null entry as often as it occurs, and drops every null |
| `Lists.NonNullsOfNullFree` | src/ArrayList.java:201-205 | a list without nulls is its own compression |
| `Lists.IsIndexOf` | src/ArrayList.java:64-71 | what `indexOf` may return or throw: an index in [-1, size); a non-negative one holds an element equal to the non-null value; -1 means the value is not an element; NullPointerException only when a null element is present |
| `Lists.IndexOfUnique` | src/ArrayList.java:64-71 | what `indexOf` returns or throws is determined by the elements and the value |
| `Lists.IndexOfFindsMember` | src/ArrayList.java:86-88 | a returned index is non-negative exactly when the value is an element |
| `Lists.InsertedContents` | src/ArrayList.java:105-113 | after growth and insertion, the elements are the old ones with `value` spliced in at `index` |
| `Lists.InsertedNullFrom` | src/ArrayList.java:107-111 | an insertion keeps the slots past the last element null |
| `Lists.RemovedContents` | src/ArrayList.java:119-126 | after a removal, the elements are the old ones without the one at `index` |
| `Lists.AppendedContents` | src/ArrayList.java:94-98 | an appended value lands in the first free slot of the grown buffer, and the null tail stays null |
| `Lists.ShiftRight` | src/ArrayList.java:108-110 | the shifting loop of `add(index, value)` leaves the buffer as `Inserted` describes |
| `Lists.ShiftLeft` | src/ArrayList.java:121-124 | the shifting loop and the final null store of `remove` leave the buffer as `Removed` describes |
| `Lists.NullOut` | src/ArrayList.java:142-144 | the loop of `clear` leaves the buffer as `Cleared` describes |
| `Lists.NullOutRange` | src/ArrayList.java:195-196 | nulls exactly the slots in the range, for the corrected compression |
| `Lists.FirstNull` | src/ArrayList.java:200-206 | the first loop of `compressNulls`: the elements before the result are non-null, and the result is a null element or `size` |
| `Lists.MoveNonNullsDown` | src/ArrayList.java:208-217 | the second loop: it throws ArrayIndexOutOfBounds exactly when it reaches slot `size` of a full buffer; otherwise it leaves `Compacted(buffer, size + 1)`, with counts that add up to `size + 1` and a `counter` equal to the number of non-nulls scanned |
| `Lists.Compact` | src/ArrayList.java:194-197 | moves the non-nulls among the first `n` slots to the front, in order, and returns how many there are |
| `Lists.ArrayList.constructor` | src/ArrayList.java:32-38 | an empty list over `capacity` null slots |
| `Lists.ArrayList.Default` | src/ArrayList.java:22-24 | an empty list of capacity 50 |
| `Lists.ArrayList.WithCapacity` | src/ArrayList.java:33-35 | a negative capacity throws IllegalArgumentException; any other capacity gives an empty list of that capacity |
| `Lists.ArrayList.Size` | src/ArrayList.java:44-46 | the number of elements |
| `Lists.ArrayList.IsEmpty` | src/ArrayList.java:77-79 | true exactly when there are no elements |
| `Lists.ArrayList.CheckIndex` | src/ArrayList.java:188-192 | passes exactly for `0 <= index < size`; otherwise IndexOutOfBoundsException |
| `Lists.ArrayList.Get` | src/ArrayList.java:53-56 | the element at `index`, or IndexOutOfBoundsException outside [0, size) |
| `Lists.ArrayList.IndexOf` | src/ArrayList.java:64-71 | the least index whose element equals the value, or -1 when there is none; NullPointerException when a null element comes first |
| `Lists.ArrayList.Contains` | src/ArrayList.java:86-88 | throws exactly when `indexOf` throws; otherwise true exactly when the value is an element |
| `Lists.ArrayList.EnsureCapacity` | src/ArrayList.java:173-181 | the buffer becomes `Grown`, with length `GrownLength`; the elements are unchanged; the buffer is reallocated only when the request exceeds the length |
| `Lists.ArrayList.Add` | src/ArrayList.java:94-98 | the elements become the old ones followed by `value`; the buffer becomes the grown buffer with `value` stored at slot `size`, so its length follows `GrownLength`; the null tail is preserved |
| `Lists.ArrayList.AddAt` | src/ArrayList.java:105-113 | passes exactly for `0 <= index < size`, so inserting at `size` or into an empty list throws IndexOutOfBoundsException with nothing changed; on success `value` is spliced in at `index` |
| `Lists.ArrayList.InsertAt` | src/ArrayList.java:107-112 | grow, shift right, store: the buffer becomes `Inserted(Grown(...))` and the size grows by one |
| `Lists.ArrayList.Remove` | src/ArrayList.java:119-126 | passes exactly for `0 <= index < size`; on success the element at `index` is gone, the buffer is `Removed(...)` and the size drops by one; on failure nothing changes |
| `Lists.ArrayList.Set` | src/ArrayList.java:133-136 | outside [0, size) IndexOutOfBoundsException with nothing changed; otherwise only slot `index` changes |
| `Lists.ArrayList.Clear` | src/ArrayList.java:141-146 | no elements remain and the old element slots are nulled |
| `Lists.ArrayList.Iterator` | src/ArrayList.java:163-166 | a fresh iterator over this list at position 0, with removal not allowed |
| `Lists.ArrayList.AddAll` | src/ArrayList.java:152-157 | the elements become this list's followed by `other`'s; `other` is unchanged; the length is `GrownLength` of the sum of the sizes; the slots past the new size are those of the grown buffer, so a null tail stays null; appending an empty list to itself is a no-op |
| `Lists.ArrayList.AddNext` | src/ArrayList.java:154-156 | one step of `addAll`: stores the iterator's next element at slot `size`, changing no other slot, and advances the iterator |
| `Lists.ArrayList.AppendRest` | src/ArrayList.java:154-156 | the loop of `addAll`: appends every element from the iterator's position to the end of the other list, in order, leaving the other list and the slots past the new size unchanged |
| `Lists.ArrayList.CompressNulls` | src/ArrayList.java:198-219 | as written: it throws on an empty buffer, and on a full buffer that holds a null; a null-free list is untouched; otherwise the buffer is compacted through slot `size` and the size becomes the count of non-nulls there; with a spare null slot at `size`, the elements become their non-null subsequence |
| `Lists.ArrayList.CompressNullsCorrected` | src/ArrayList.java:194-197 | the documented intent: the elements become their non-null subsequence, the vacated slots are nulled and the slots past the old size are untouched |
| `Lists.ArrayListIterator.constructor` | src/ArrayList.java:252-255 | position 0 and removal not allowed |
| `Lists.ArrayListIterator.HasNext` | src/ArrayList.java:261-263 | true exactly when an element lies at `position`, in the list's current size |
| `Lists.ArrayListIterator.Next` | src/ArrayList.java:270-278 | the element at `position`, then one step on with removal allowed; NoSuchElementException at or past the end, with nothing changed |
| `Lists.ArrayListIterator.Remove` | src/ArrayList.java:285-292 | IllegalStateException unless `next` came since the last removal; otherwise removes the element at `position - 1`, leaving the buffer as `Removed` describes, and steps back, disallowing a second removal |
| `Lists.CompressFullListThrows` | src/ArrayList.java:210-211 | `compressNulls` on the full list [1, null] throws ArrayIndexOutOfBounds |
| `Lists.CompressLeavesStaleCopy` | src/ArrayList.java:218 | `compressNulls` on [1, null, 3] in four slots leaves [1, 3] and a stale 3 in slot 2 |
| `Lists.CompressNullsRevivesStale` | src/ArrayList.java:210-218 | after that, setting slot 1 to null and compressing again gives [1, 3] where the intent is [1] |
| `FractalTree.ScaleByShrinks` | src/GenerateFractal.java:92 | a ratio in [0, 1] never makes a positive radius grow or go negative |
| `FractalTree.RatioRadiiShrink` | src/GenerateFractal.java:92-111 | with the child radius `radius * radiusRatio` and a ratio in [0, 1], no appended circle is larger than `(int)radius` of the call |
| `FractalTree.ChildDepth` | src/GenerateFractal.java:89-91 | the depth passed down is between 1 and the current depth minus 1; it is 1 below radius 5 and `depth - 1` otherwise |
| `FractalTree.Circle` | src/GenerateFractal.java:109 | `new Fractal((int)radius, …)` succeeds exactly for a radius of at least 1, giving a valid circle of that centre, colour and truncated radius; otherwise IllegalArgumentException |
| `FractalTree.Join` | src/GenerateFractal.java:108-111 | the right subtree's circles come first; then, if it returned normally and the own circle was made, that circle; the join returns normally exactly when all three parts do |
| `FractalTree.Build` | src/GenerateFractal.java:78-113 | one `generateFractals` call: returning normally needs a depth of at least 1 and a radius of at least 1, and appends at least one circle |
| `FractalTree.Branch` | src/GenerateFractal.java:88-112 | the depth-2-or-more case: returning normally needs a radius of at least 1 (the own circle) and appends at least one circle |
| `FractalTree.BuildSucceedsIff` | src/GenerateFractal.java:78-113 | a call returns normally exactly when every radius on its way down is at least 1; the centres play no part |
| `FractalTree.BuildFailureKind` | src/GenerateFractal.java:80-85 | every exception the recursion throws is IllegalArgumentException |
| `FractalTree.BuildSize` | src/GenerateFractal.java:86-111 | a call that returns normally appends an odd number of circles, at most 2^depth - 1 |
| `FractalTree.BuildColours` | src/GenerateFractal.java:87-109 | every appended circle, even before a throw, is valid and in the pear or the cactus colour |
| `FractalTree.BuildEndsInPears` | src/GenerateFractal.java:86-111 | a call that returns normally appends pear circles first and last |
| `FractalTree.PearsOutnumberCactus` | src/GenerateFractal.java:87-109 | with two different colours, a call that returns normally appends one more pear circle than cactus circles |
| `FractalTree.FullTree` | src/GenerateFractal.java:88-111 | when the radius-below-5 shortcut never applies, a call that returns normally appends exactly 2^depth - 1 circles |
| `FractalTree.SmallRadiusShortcut` | src/GenerateFractal.java:89-91 | a call at depth 2 or more below radius 5 that returns normally appends exactly pear, cactus, pear, with the cactus circle at the centre with radius `(int)radius` |
| `FractalTree.LeafCircle` | src/GenerateFractal.java:86-87 | at depth 1, exactly one pear circle of radius `(int)radius` at the centre, or a throw and nothing |
| `FractalTree.RadiiShrink` | src/GenerateFractal.java:92-111 | when no child radius exceeds its parent's, no appended circle is larger than `(int)radius` |
| `FractalTree.UnfoldOk` | src/GenerateFractal.java:108-110 | a call that returns normally had both subtrees return and its circle constructed, in right, self, left order |
| `Generator.FirstIndexOf` | src/ArrayList.java:64-71 | `indexOf` on the observer ids: -1 exactly when absent, otherwise an index holding the id |
| `Generator.FirstIndexOfIsFirst` | src/ArrayList.java:65-68 | no occurrence comes before the returned index |
| `Generator.RemoveFirst` | src/GenerateFractal.java:203-205 | one shorter when the id is present; unchanged when it is absent |
| `Generator.RemoveFirstMultiset` | src/GenerateFractal.java:203-205 | exactly one copy of the id goes and nothing else changes |
| `Generator.ObserverIndexOf` | src/GenerateFractal.java:204 | on the observer ids held as list elements, `FirstIndexOf` is what `indexOf` returns, and it never throws |
| `Generator.ObserverRemove` | src/GenerateFractal.java:204 | removing the list element at that index, as `remove(int)` does, leaves the list holding `RemoveFirst` |
| `Generator.RemoveAtFirstIndex` | src/GenerateFractal.java:204 | `remove(indexOf(x))` removes the first occurrence of `x` |
| `Generator.AttachThenDetach` | src/GenerateFractal.java:195-205 | detaching a newly attached observer restores the list |
| `Generator.RatioNeverRejected` | src/GenerateFractal.java:133-136 | the ratio condition as written rejects no ratio |
| `Generator.ZeroRatioThrows` | src/GenerateFractal.java:133-136 | a ratio of 0 passes the check, and every cactus of depth 2 or more then throws IllegalArgumentException |
| `Generator.DefaultRadii` | src/GenerateFractal.java:31 | with ratio 0.45 from radius 100, every radius is at least 1 and every inner one at least 5 |
| `Generator.DefaultTreeShape` | src/GenerateFractal.java:39-113 | the default cactus returns normally with 31 circles, pear first and last |
| `Generator.DefaultTrunk` | src/GenerateFractal.java:108-110 | in the default cactus, the 15 circles of the right subtree come first, so circle 15 is the trunk of radius 100 at the start point |
| `Generator.DefaultTree` | src/GenerateFractal.java:39-113 | the default cactus returns normally with 31 circles, pear first and last, and the trunk circle of radius 100 (diameter 200) at the start point in the middle |
| `Generator.GenerateFractal.constructor` | src/GenerateFractal.java:44-52 | depth 5, ratio 0.45, 45 degrees, the default colours, no circles and no observers |
| `Generator.GenerateFractal.GetData` | src/GenerateFractal.java:60-68 | a non-positive width or height throws IllegalArgumentException with the circles untouched; otherwise the circles become exactly the cactus grown from `(width/2, height - 100)` with radius 100 and the stored depth and angle |
| `Generator.GenerateFractal.GenerateFractals` | src/GenerateFractal.java:78-113 | appends exactly the circles `Build` gives and throws exactly what it gives |
| `Generator.GenerateFractal.GenerateBranch` | src/GenerateFractal.java:88-112 | the depth-2-or-more branch appends and throws what `Branch` gives |
| `Generator.GenerateFractal.GenerateJoin` | src/GenerateFractal.java:108-111 | right subtree, own circle, left subtree, stopping at the first exception |
| `Generator.GenerateFractal.GenerateTrunkAndLeft` | src/GenerateFractal.java:109-111 | the own cactus circle then the left subtree; nothing is appended when the circle cannot be made |
| `Generator.GenerateFractal.SetData` | src/GenerateFractal.java:127-146 | as written: it fails exactly for a depth outside [2, 10] or a missing colour, with IllegalArgumentException and nothing changed; otherwise it stores depth, `ratio/100`, angle and colours, and notifies every observer once, in order |
| `Generator.GenerateFractal.SetDataRangeChecked` | src/GenerateFractal.java:121-122 | with the documented ratio check, a percentage outside [40, 70] is rejected too, so a stored ratio lies in [0.4, 0.7] |
| `Generator.GenerateFractal.GetRecursionDepth` | src/GenerateFractal.java:162-164 | the stored depth, always in [2, 10] |
| `Generator.GenerateFractal.GetRadiusRatio` | src/GenerateFractal.java:170-172 | the ratio as a percentage, rounded toward zero for either sign and saturated at the `int` bounds |
| `Generator.GenerateFractal.Attach` | src/GenerateFractal.java:195-197 | appends the observer |
| `Generator.GenerateFractal.Detach` | src/GenerateFractal.java:203-205 | an absent observer makes `remove(-1)` throw IndexOutOfBoundsException with the list unchanged; otherwise its first occurrence goes |
| `Generator.GenerateFractal.NotifyAllObservers` | src/GenerateFractal.java:210-214 | one notification per attached observer, in attach order |
| `Generator.DefaultScenario` | src/GenerateFractal.java:60-66 | on an 800 × 600 panel a fresh generator draws 31 circles, with the trunk circle at (400, 500) |
| `Generator.GetDataTwice` | src/GenerateFractal.java:64-66 | two `getData` calls with the same panel give the same circles and outcome |
| `Generator.ZeroRatioAccepted` | src/GenerateFractal.java:133-136 | `setData` accepts a ratio of 0, and the next `getData` throws IllegalArgumentException |

## Left out

- Floating point. Radii, the ratio and angles are exact reals, so IEEE rounding is not modelled.
- `Math.sin`, `Math.cos`, `Math.toRadians` and the `(int)` casts of the child-centre coordinates (src/GenerateFractal.java:95-107). All of this is folded into the `place` function. Angles are degrees, not radians.
- `Fractal.draw` and `GenerateFractal.draw`: calls into the AWT drawing surface.
- `ArrayList.toString`: it depends on the element type's `toString`.
- The GUI, display, main, observer and subject files: Swing plumbing and interfaces are not part of this model.
- `Observer.update()`: an observer is a number, and each `update()` call is recorded in the `notifications` field. Null observers are not modelled. Nor is what an observer's `update()` does to the generator: the display's `update()` calls back into `getData`, so with a display attached `setData` also regenerates the circles, and after an accepted ratio of 0 that call throws out of `notifyAllObservers`. `Generator.GenerateFractal.SetData`'s unchanged circles and its `Pass` outcome hold for observers that do not call back.
- `Generator.GenerateFractal.GetRadiusRatio`: exact reals, so this does not model doubles. In Java, `(int)(0.57 * 100)` is 56, not 57.
- `Generator.GenerateFractal`: `observers` and `allFractals` are sequence fields rather than `ArrayList` instances. The list behaviour they rely on (`add`, `clear`, `indexOf`, `remove(int)`) is modelled in `Lists`. `Generator.ObserverIndexOf` and `Generator.ObserverRemove` link the observer-list functions to `Lists.IsIndexOf` and to the removal contract.
- `Generator.GenerateFractal.GetData`: the Java method also returns `this`; the model returns only the outcome.
- `Generator.GenerateFractal.GenerateFractals`: `generateFractals` is one Java method. The model splits it into `GenerateFractals`, `GenerateBranch`, `GenerateJoin` and `GenerateTrunkAndLeft`. Together they run the same steps in the same order.
- `Generator.GenerateFractal.GetCactusColor` and `GetPearColor`, and the `Fractal` getters `GetCenterPoint`, `GetRadius` and `GetColor`: plain field reads with no contract of their own. `Shapes.NewFractal` states what they return.
- Exception messages are not modelled, nor is the alpha channel of `java.awt.Color`.
- `Lists.ArrayList.AddAll`: requires `other != this` unless the list is empty. On a non-empty list, `list.addAll(list)` re-reads the growing size through the iterator and never returns normally: it runs until the buffer can grow no further. The empty self-append, which Java completes as a no-op, is modelled. A null `other` (NullPointerException at src/ArrayList.java:153) is not modelled, because the parameter is a non-null list.
- `Lists.ArrayList.AddAll`: also requires `other.elementData != elementData` for two different lists. Two Java lists never share a buffer, because each constructor allocates its own; the model states it because Dafny arrays do not carry that fact.
- `Lists.ArrayList.IndexOf`: `elementData[i].equals(value)` is modelled as Dafny equality `==`, so element types with a custom `equals` are not modelled.
- `Lists`: Java `int` overflow of sizes and capacities is not modelled. Lengths are unbounded naturals.
- The iterator's behaviour under concurrent modification of the list is stated (it reads the current size), but is not otherwise constrained.

## Findings

| source | as written | input that shows it | evidently intended | confidence | as-written member | corrected member |
|---|---|---|---|---|---|---|
| src/ArrayList.java:210-211 | the second loop of `compressNulls` reads `elementData[size]` | a full list `[1, null]` of capacity 2 | drop the null, giving `[1]` | not executed; proved | `Lists.CompressFullListThrows` | `Lists.ArrayList.CompressNullsCorrected` |
| src/ArrayList.java:210-218 | it never nulls the vacated slots, and it also scans slot `size` | `[1, null, 3]` of capacity 4, then `set(1, null)` and `compressNulls` again | `[1]` | not executed; proved | `Lists.CompressNullsRevivesStale` | `Lists.ArrayList.CompressNullsCorrected` |
| src/GenerateFractal.java:133 | `radiusRatio < 40 && radiusRatio > 70` is never true | `setData(5, 0, 45, c, p)`, then `getData(800, 600)` throws | reject a percentage outside [40, 70] | not executed; proved | `Generator.ZeroRatioAccepted` | `Generator.GenerateFractal.SetDataRangeChecked` |
