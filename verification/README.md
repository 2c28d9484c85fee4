# sets — a Dafny model

This project models the `sets` JavaScript library. The library is a small set-algebra
layer over one input type: a *collection* is either a JavaScript `Set` or an `Array`.
The model has two parts.

- **The collection normaliser** (`src/collection.js`) has two functions. `setify` turns a
  collection into a `Set`: a Set passes through, and an Array becomes `new Set(array)`.
  `toArray` turns a collection into an `Array`: an Array passes through, and a Set becomes
  `Array.from(set)`. Any other value makes both throw a `TypeError`.
- **The set algebra** (`src/sets.js`) has ten operations. `map`, `fold`, `forall` and
  `exists` work on the Array form. `union`, `intersection`, `difference`,
  `symmetricDifference`, `isSubset` and `areEqual` work on the Set form.

A JavaScript `Set` is modelled as `OrdSet<T>`: a duplicate-free sequence that keeps its
entries in insertion order, which is the order in which JavaScript iterates a Set. This
lets the model state more than which elements a result holds. It also states the order
the result enumerates them in, and that order is what `toArray` and `fold` observe.

## Layout

- `wrappers.dfy`, module `Wrappers`: `Result<R, E>`, which models the thrown `TypeError`.
  It works with `:-`.
- `insertion_order.dfy`, module `InsertionOrder`: the JavaScript `Set` behaviour the
  library relies on. This covers `add`, `delete`, `new Set(iterable)`, and the
  `forEach(add)` loop. It also defines `Select`, an order-preserving filter used as the
  reference definition of each result order.
- `collection.dfy`, module `Collections`: the `Collection` datatype
  (`SetOf | ArrayOf | Other`), `Members`, `Setify` and `ToArray`.
- `sets.dfy`, module `SetAlgebra`: the ten operations and the loops inside them.
- `laws.dfy`, module `SetAlgebraLaws`: lemmas relating the operations to each other and
  to set theory.
- `scenarios.dfy`, module `Scenarios`: the concrete cases, over an element type
  `Value = Num(int) | Str(string)`. With this type, `3` and `"3"` are never equal.

Every operation returns `Failure(TypeError)` exactly when one of its arguments is
`Other`. Otherwise it returns `Success(...)`.

## Model

| member | source | states |
|---|---|---|
| `InsertionOrder.Add` | src/sets.js:40 | `set.add(x)` leaves the existing entries in place as a prefix. It adds x exactly when x was absent, and the elements become the old elements plus x. |
| `InsertionOrder.Delete` | src/sets.js:66-68 | `set.delete(x)` removes exactly x. The size drops by one iff x was present, and the remaining entries keep their order (equal to the filter `Select(s, {x}, false)`). |
| `InsertionOrder.AddAll` | src/sets.js:39-40 | Adding the entries of xs one by one keeps acc as a prefix and gives the elements of both. For a duplicate-free xs, the result is acc followed by the entries of xs that acc lacked, in xs's order. |
| `InsertionOrder.FromSeq` | src/collection.js:20-22 | `new Set(array)` holds exactly the array's elements and is never longer than the array. A duplicate-free array comes back unchanged. |
| `InsertionOrder.FromSeqOrder` | src/collection.js:20-22 | `new Set(array)` lists its elements in the order of their first occurrences in the array. |
| `Collections.Setify` | src/collection.js:15-25 | It fails iff the input is neither a Set nor an Array. It returns a Set input unchanged. For an Array it returns a duplicate-free Set with exactly the array's elements, in first-occurrence order and no longer than the array. |
| `Collections.ToArray` | src/collection.js:30-40 | It fails iff the input is neither a Set nor an Array. It returns an Array input unchanged, duplicates and order included. For a Set it returns the entries in enumeration order, without duplicates, with the same elements. |
| `Collections.SetifyToArray` | src/collection.js:15-40 | Round trip: `setify(toArray(c))` is exactly `setify(c)`, entry order included, for every valid c. It holds the same elements as c. |
| `Collections.ToArraySetify` | src/collection.js:15-40 | `toArray(setify(c))` is duplicate-free and has c's elements. For a Set it is the Set's own enumeration. |
| `SetAlgebra.Map` | src/sets.js:8-10 | `map(c, f)` fails iff c is invalid. Its elements are exactly the values `f(x)` for x in c, so values that f sends to the same result collapse. Each value sits at its first occurrence in `toArray(c).map(f)`. |
| `SetAlgebra.MapSeq` | src/sets.js:9 | `array.map(f)` has the array's length, and holds `f(a[i])` at every index i. |
| `SetAlgebra.FoldLeft` | src/sets.js:16 | `array.reduce(f, initial)` returns `initial` on an empty array. Otherwise it first combines `initial` with the entry at index 0, then folds the rest from there. |
| `SetAlgebra.Fold` | src/sets.js:15-17 | `fold` fails iff c is invalid, and returns `initial` for an empty collection. |
| `SetAlgebra.Every` | src/sets.js:23 | `array.every(p)` is true iff p holds at every index. |
| `SetAlgebra.Some` | src/sets.js:30 | `array.some(p)` is true iff p holds at some index. |
| `SetAlgebra.Forall` | src/sets.js:22-24 | `forall` fails iff c is invalid. It is true iff every element satisfies the condition, which makes it vacuously true on an empty collection. |
| `SetAlgebra.Exists` | src/sets.js:29-31 | `exists` fails iff c is invalid. It is true iff some element satisfies the condition, which makes it false on an empty collection. |
| `SetAlgebra.Union` | src/sets.js:36-42 | `union` fails iff an argument is invalid. It holds x iff x is in c1 or c2. It enumerates `setify(c1)` first, then the entries of `setify(c2)` missing from c1, in their order. |
| `SetAlgebra.AddCommon` | src/sets.js:51-55 | The intersection loop adds to acc exactly the elements of xs that set1 has. With a fresh accumulator this is xs filtered by membership in set1, in xs's order. |
| `SetAlgebra.Intersection` | src/sets.js:47-57 | `intersection` fails iff an argument is invalid. It holds x iff x is in both. It enumerates in the order of `setify(c2)`, whose entries it filters by membership in c1. |
| `SetAlgebra.DeleteAll` | src/sets.js:66-68 | The difference loop removes from acc exactly the elements of xs, and keeps the order of the rest. |
| `SetAlgebra.Difference` | src/sets.js:62-70 | `difference` fails iff an argument is invalid. It holds x iff x is in c1 and not in c2, in the order of `setify(c1)`. |
| `SetAlgebra.SymmetricDifference` | src/sets.js:75-77 | `symmetricDifference` fails iff an argument is invalid. It holds x iff x is in exactly one argument: first c1's such entries in c1's order, then c2's in c2's order. |
| `SetAlgebra.IsSubset` | src/sets.js:82-88 | `isSubset` fails iff an argument is invalid. It is true iff every element of left is an element of right. |
| `SetAlgebra.AreEqual` | src/sets.js:93-98 | `areEqual` fails iff an argument is invalid. It is true iff the two element sets coincide, whatever the shapes, orders and duplicates. |
| `SetAlgebraLaws.FoldLeftSnoc` | src/sets.js:16 | Folding with "append the entry" lists the entries in exactly the order the fold visits them. |
| `SetAlgebraLaws.FoldVisitsInOrder` | src/sets.js:15-17 | `fold` visits the entries in `toArray` order, which for a Set is its insertion order. |
| `SetAlgebraLaws.ExistsIsNotForallNot` | src/sets.js:22-31 | `exists(c, p)` is the negation of `forall(c, not p)`, and both fail on the same inputs. |
| `SetAlgebraLaws.MapIdentity` | src/sets.js:8-10 | Mapping with the identity gives exactly `setify(c)`. |
| `SetAlgebraLaws.UnionCommutes` | src/sets.js:36-42 | `union(c1, c2)` and `union(c2, c1)` hold the same elements. |
| `SetAlgebraLaws.UnionSelf` | src/sets.js:36-42 | `union(c, c)` is exactly `setify(c)`. |
| `SetAlgebraLaws.UnionEmpty` | src/sets.js:36-42 | A union with the empty collection gives the other operand's elements. With the empty collection on the right, it is exactly `setify(c)`. |
| `SetAlgebraLaws.IntersectionCommutes` | src/sets.js:47-57 | Intersection is commutative as a set, and its result lies within each argument. |
| `SetAlgebraLaws.IntersectionSelf` | src/sets.js:47-57 | `intersection(c, c)` is exactly `setify(c)`. |
| `SetAlgebraLaws.DifferenceSelf` | src/sets.js:62-70 | `difference(c, c)` is empty. |
| `SetAlgebraLaws.SymmetricDifferenceCommutes` | src/sets.js:75-77 | Symmetric difference is commutative as a set. |
| `SetAlgebraLaws.SymmetricDifferenceEmptyIffEqual` | src/sets.js:75-77 | The symmetric difference is empty iff `areEqual` holds. |
| `SetAlgebraLaws.IsSubsetEmpty` | src/sets.js:82-88 | The empty collection is a subset of every collection. A collection is a subset of the empty one iff it is empty. |
| `SetAlgebraLaws.AreEqualLaws` | src/sets.js:93-98 | `areEqual` is reflexive and symmetric, and holds iff each argument is a subset of the other. |
| `SetAlgebraLaws.AreEqualIgnoresShape` | src/sets.js:93-98 | An Array equals the Set built from it. Two Arrays, or two Sets built from Arrays, are equal iff they hold the same elements. |
| `Scenarios.AllShapes` | test/test.js:10-15 | `areEqual` and `isSubset` give the same answer for all four Array/Set shapes of a pair. |
| `Scenarios.OnDistinctArrays` | src/sets.js:36-77 | On duplicate-free Arrays, each of union, intersection, difference and symmetric difference equals a filter expression. |
| `Scenarios.UnionExample` | src/sets.js:36-42 | `union([1, 3, 2], [2, 4])` is the Set `1, 3, 2, 4`, in that order. |
| `Scenarios.UnionOfSingletons` | src/sets.js:39-40 | The union of two different singletons lists the first argument's element first. |
| `Scenarios.UnionOrderExample` | src/sets.js:39-40 | `union` is not commutative in enumeration order: `[1, 2]` against `[2, 1]`. |
| `Scenarios.IntersectionExample` | src/sets.js:47-57 | `intersection([11, 'abc', 4], ['def', 4, 'ghi'])` is the Set `4`. |
| `Scenarios.DifferenceExample` | src/sets.js:62-70 | `difference(['x', 'y', 1], ['y', 7, 'x'])` is the Set `1`. |
| `Scenarios.SymmetricDifferenceExample` | src/sets.js:75-77 | `symmetricDifference([11, 'abc', 4], ['def', 4, 'ghi'])` is the Set `11, 'abc', 'def', 'ghi'`. |
| `Scenarios.TypeErrorExample` | src/collection.js:24 | A value that is neither a Set nor an Array makes `setify`, `toArray` and every public operation fail with the type error. |
| `Scenarios.ElemsSubset` | src/sets.js:87 | The elements of an Array are a subset of another's iff each entry is in the other Array. |
| `Scenarios.StrictSubsetShapes` | test/test.js:27-32 | A strict subset, in every shape, gives `areEqual` false and `isSubset` true. |
| `Scenarios.NotSubsetShapes` | test/test.js:47-51 | A left side with an element missing from the right gives `isSubset` false in every shape. |
| `Scenarios.EqualSetsCases` | test/test.js:17-21 | The three equal pairs of the test suite (empty, `[1,2,3,3,3]`/`[1,2,3]`, `['x','y']`/`['y','x']`) are equal and mutual subsets in every shape. |
| `Scenarios.EmptyLeftCases` | test/test.js:40 | `[]` against `[1]`: a subset, and not equal. |
| `Scenarios.EmptyLeftMixedCases` | test/test.js:41 | `[]` against `['x', 'y', 3]`: a subset, and not equal. |
| `Scenarios.StrictSubsetCases` | test/test.js:44 | `[1, 2]` against `[1, 2, 3]`: a subset, and not equal. |
| `Scenarios.StrictSubsetMixedCases` | test/test.js:45 | `['y', 'x', 3]` against `[3, 'x', 44, 'y', 'abc']`: a subset, and not equal. |
| `Scenarios.SupersetOfEmptyCase` | test/test.js:48 | `[1]` is not a subset of `[]`. |
| `Scenarios.SupersetMixedCase` | test/test.js:49 | `['x', 'y', 3]` is not a subset of `[3, 'y']`. |
| `Scenarios.SupersetCase` | test/test.js:50 | `[1, 2, 3]` is not a subset of `[1, 2]`. |
| `Scenarios.StrictEqualityCases` | test/test.js:52-55 | Strict equality: `[3]` and `['3']` are not subsets of each other, in any shape. |
| `Scenarios.AreEqualExample` | test/test.js:19 | `areEqual([1, 2, 3, 3, 3], new Set([1, 2, 3]))` holds. |

## Left out

- Object identity is not modelled. `setify` returns the very `Set` object it was given
  (src/collection.js:17), while `union` and `difference` work on a copy
  (src/sets.js:39, src/sets.js:65). In a model of immutable values, sharing and copying
  cannot be told apart. No operation writes to its arguments, and the loops that iterate
  `set2` never write to it, even when both arguments are the same `Set` object.
- The text of the `TypeError` message (src/collection.js:10) is left out. Only the error
  variant is modelled.
- JavaScript's `SameValueZero` equality on numbers is not modelled (NaN equal to itself,
  +0 equal to -0). The elements are any type with Dafny equality. The scenarios use
  `Num(int) | Str(string)`, which keeps the strict, non-coercing comparison that the
  cases in test/test.js rely on.
- Arrays are modelled as dense sequences, so sparse arrays (arrays with holes) are left
  out. In JavaScript, `map`, `reduce`, `every` and `some` skip a hole without calling the
  callback (src/sets.js:9, src/sets.js:16, src/sets.js:23, src/sets.js:30), while
  `new Set(array)` reads a hole as `undefined` (src/collection.js:21). So on a sparse array
  `forall` and `isSubset` can disagree, and `map` can produce `undefined` without calling
  `f`. The contracts over `Members(c)` describe dense arrays only.
- Callbacks (`f` and `condition`) are total pure Dafny functions. Exceptions or side
  effects they might have are not modelled. The extra index and array arguments that
  JavaScript passes to `map`, `reduce`, `every` and `some` callbacks are also dropped,
  since the library's signatures do not give them to callers.
- SetAlgebra.Fold: its own contract only states the error case and the empty case. The
  order of the fold is stated by the contract of `FoldLeft` and by the lemmas
  `FoldLeftSnoc` and `FoldVisitsInOrder`.
- Flow type annotations, `webpack.config.js` and the chai/mocha test wiring are left out.
  The test cases are restated as lemmas in `Scenarios`.
