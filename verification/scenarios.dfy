/** The library's concrete cases, over JavaScript values that are numbers or strings.
    Strict equality means a number never equals a string, whatever its digits. */
module Scenarios {
  import opened Wrappers
  import opened InsertionOrder
  import opened Collections
  import opened SetAlgebra

  /** A JavaScript value as far as the cases need one. */
  datatype Value = Num(n: int) | Str(s: string)

  /** An operation that answers a yes/no question about two collections. */
  type Test = (Collection<Value>, Collection<Value>) -> Result<bool, Error>

  /** The test suite's four shapes of a pair of cases: Array or Set on each side. */
  predicate HoldsForAllShapes(test: Test, a: seq<Value>, b: seq<Value>, expected: bool) {
    && test(ArrayOf(a), ArrayOf(b)) == Success(expected)
    && test(ArrayOf(a), SetOf(FromSeq(b))) == Success(expected)
    && test(SetOf(FromSeq(a)), ArrayOf(b)) == Success(expected)
    && test(SetOf(FromSeq(a)), SetOf(FromSeq(b))) == Success(expected)
  }

  /** Every shape of a pair agrees on `areEqual` and `isSubset`, since both depend only
      on the elements. */
  lemma AllShapes(a: seq<Value>, b: seq<Value>)
    ensures HoldsForAllShapes(AreEqual, a, b, Elems(a) == Elems(b))
    ensures HoldsForAllShapes(IsSubset, a, b, Elems(a) <= Elems(b))
  {
  }

  /** Filtering a two-entry sequence. */
  lemma SelectTwo<T>(x: T, y: T, m: set<T>, keep: bool)
    ensures Select([x, y], m, keep)
         == (if (x in m) == keep then [x] else []) + (if (y in m) == keep then [y] else [])
  {
  }

  /** Filtering a three-entry sequence. */
  lemma SelectThree<T>(x: T, y: T, z: T, m: set<T>, keep: bool)
    ensures Select([x, y, z], m, keep)
         == (if (x in m) == keep then [x] else []) + (if (y in m) == keep then [y] else [])
            + (if (z in m) == keep then [z] else [])
  {
    assert [x, y, z][..2] == [x, y];
    SelectTwo(x, y, m, keep);
  }

  /** The four Set-producing operations on duplicate-free Arrays, in terms of filters. */
  lemma OnDistinctArrays<T>(a: seq<T>, b: seq<T>)
    requires Distinct(a) && Distinct(b)
    ensures Union(ArrayOf(a), ArrayOf(b)) == Success(a + Select(b, Elems(a), false))
    ensures Intersection(ArrayOf(a), ArrayOf(b)) == Success(Select(b, Elems(a), true))
    ensures Difference(ArrayOf(a), ArrayOf(b)) == Success(Select(a, Elems(b), false))
    ensures SymmetricDifference(ArrayOf(a), ArrayOf(b))
         == Success(Select(a, Elems(b), false) + Select(b, Elems(a), false))
  {
  }

  /** `union([1, 3, 2], [2, 4])` is `{1, 3, 2, 4}`, in that order. */
  lemma UnionExample()
    ensures Union(ArrayOf([Num(1), Num(3), Num(2)]), ArrayOf([Num(2), Num(4)]))
         == Success([Num(1), Num(3), Num(2), Num(4)])
  {
    var a, b := [Num(1), Num(3), Num(2)], [Num(2), Num(4)];
    assert Select(b, Elems(a), false) == [Num(4)] by {
      SelectTwo(Num(2), Num(4), Elems(a), false);
      assert Num(2) in a && Num(4) !in a;
    }
    assert a + [Num(4)] == [Num(1), Num(3), Num(2), Num(4)];
    OnDistinctArrays(a, b);
  }

  /** Union is commutative only as a set: the entry order follows the first argument. */
  lemma UnionOrderExample()
    ensures Union(ArrayOf([Num(1)]), ArrayOf([Num(2)])) == Success([Num(1), Num(2)])
    ensures Union(ArrayOf([Num(2)]), ArrayOf([Num(1)])) == Success([Num(2), Num(1)])
  {
    UnionOfSingletons(Num(1), Num(2));
    UnionOfSingletons(Num(2), Num(1));
  }

  /** The union of two different singletons lists the first argument's element first. */
  lemma UnionOfSingletons<T>(x: T, y: T)
    requires x != y
    ensures Union(ArrayOf([x]), ArrayOf([y])) == Success([x, y])
  {
    assert Select([y], Elems([x]), false) == [y] by {
      assert [y][..0] == [];
      assert y !in Elems([x]);
    }
    assert [x] + [y] == [x, y];
    OnDistinctArrays([x], [y]);
  }

  /** `intersection([11, 'abc', 4], ['def', 4, 'ghi'])` is `{4}`. */
  lemma IntersectionExample()
    ensures Intersection(ArrayOf([Num(11), Str("abc"), Num(4)]), ArrayOf([Str("def"), Num(4), Str("ghi")]))
         == Success([Num(4)])
  {
    var a, b := [Num(11), Str("abc"), Num(4)], [Str("def"), Num(4), Str("ghi")];
    assert Select(b, Elems(a), true) == [Num(4)] by {
      SelectThree(Str("def"), Num(4), Str("ghi"), Elems(a), true);
      assert Str("def") !in a && Num(4) in a && Str("ghi") !in a;
    }
    OnDistinctArrays(a, b);
  }

  /** `difference(['x', 'y', 1], ['y', 7, 'x'])` is `{1}`. */
  lemma DifferenceExample()
    ensures Difference(ArrayOf([Str("x"), Str("y"), Num(1)]), ArrayOf([Str("y"), Num(7), Str("x")]))
         == Success([Num(1)])
  {
    var a, b := [Str("x"), Str("y"), Num(1)], [Str("y"), Num(7), Str("x")];
    assert Select(a, Elems(b), false) == [Num(1)] by {
      SelectThree(Str("x"), Str("y"), Num(1), Elems(b), false);
      assert Str("x") in b && Str("y") in b && Num(1) !in b;
    }
    OnDistinctArrays(a, b);
  }

  /** `symmetricDifference([11, 'abc', 4], ['def', 4, 'ghi'])` is
      `{11, 'abc', 'def', 'ghi'}`, in that order. */
  lemma SymmetricDifferenceExample()
    ensures SymmetricDifference(ArrayOf([Num(11), Str("abc"), Num(4)]), ArrayOf([Str("def"), Num(4), Str("ghi")]))
         == Success([Num(11), Str("abc"), Str("def"), Str("ghi")])
  {
    var a, b := [Num(11), Str("abc"), Num(4)], [Str("def"), Num(4), Str("ghi")];
    assert Select(a, Elems(b), false) == [Num(11), Str("abc")] by {
      SelectThree(Num(11), Str("abc"), Num(4), Elems(b), false);
      assert Num(11) !in b && Str("abc") !in b && Num(4) in b;
    }
    assert Select(b, Elems(a), false) == [Str("def"), Str("ghi")] by {
      SelectThree(Str("def"), Num(4), Str("ghi"), Elems(a), false);
      assert Str("def") !in a && Num(4) in a && Str("ghi") !in a;
    }
    assert [Num(11), Str("abc")] + [Str("def"), Str("ghi")]
        == [Num(11), Str("abc"), Str("def"), Str("ghi")];
    OnDistinctArrays(a, b);
  }

  /** Any argument that is neither a Set nor an Array makes every operation fail with the
      type error. */
  lemma TypeErrorExample(c: Collection<Value>, f: Value -> Value, p: Value -> bool)
    ensures Setify<Value>(Other) == Failure(TypeError)
    ensures ToArray<Value>(Other) == Failure(TypeError)
    ensures Map(Other, f).Failure? && Fold(Other, 0, (n: int, x: Value) => n + 1).Failure?
    ensures Forall(Other, p).Failure? && Exists(Other, p).Failure?
    ensures Union(c, Other).Failure? && Union(Other, c).Failure?
    ensures Intersection(c, Other).Failure? && Difference(Other, c).Failure?
    ensures SymmetricDifference(c, Other).Failure?
    ensures IsSubset(Other, c).Failure? && AreEqual(c, Other).Failure?
  {
  }

  /** The elements of a is a subset of those of b iff every entry of a is an entry of b. */
  lemma ElemsSubset<T>(a: seq<T>, b: seq<T>)
    ensures Elems(a) <= Elems(b) <==> forall i | 0 <= i < |a| :: a[i] in b
  {
    if forall i | 0 <= i < |a| :: a[i] in b {
      forall x | x in Elems(a) ensures x in Elems(b) {
        var i :| 0 <= i < |a| && a[i] == x;
      }
    }
    if Elems(a) <= Elems(b) {
      forall i | 0 <= i < |a| ensures a[i] in b {
        assert a[i] in Elems(a);
      }
    }
  }

  /** A pair where every entry of a is in b and the witness w of b is not in a: a strict
      subset in every shape. */
  lemma StrictSubsetShapes(a: seq<Value>, b: seq<Value>, w: Value)
    requires forall i | 0 <= i < |a| :: a[i] in b
    requires w in b && w !in a
    ensures HoldsForAllShapes(AreEqual, a, b, false)
    ensures HoldsForAllShapes(IsSubset, a, b, true)
  {
    AllShapes(a, b);
    ElemsSubset(a, b);
    assert w in Elems(b) && w !in Elems(a);
  }

  /** A pair where the witness w of a is not in b: not a subset in any shape. */
  lemma NotSubsetShapes(a: seq<Value>, b: seq<Value>, w: Value)
    requires w in a && w !in b
    ensures HoldsForAllShapes(IsSubset, a, b, false)
  {
    AllShapes(a, b);
    assert w in Elems(a) && w !in Elems(b);
  }

  /** Equal sets in every shape are equal and subsets of each other, including when one
      side repeats entries or lists them in another order. */
  lemma EqualSetsCases()
    ensures HoldsForAllShapes(AreEqual, [], [], true)
    ensures HoldsForAllShapes(IsSubset, [], [], true)
    ensures HoldsForAllShapes(AreEqual, [Num(1), Num(2), Num(3), Num(3), Num(3)], [Num(1), Num(2), Num(3)], true)
    ensures HoldsForAllShapes(IsSubset, [Num(1), Num(2), Num(3), Num(3), Num(3)], [Num(1), Num(2), Num(3)], true)
    ensures HoldsForAllShapes(AreEqual, [Str("x"), Str("y")], [Str("y"), Str("x")], true)
    ensures HoldsForAllShapes(IsSubset, [Str("x"), Str("y")], [Str("y"), Str("x")], true)
  {
    AllShapes([], []);
    var a, b := [Num(1), Num(2), Num(3), Num(3), Num(3)], [Num(1), Num(2), Num(3)];
    AllShapes(a, b);
    ElemsSubset(a, b);
    ElemsSubset(b, a);
    var c, d := [Str("x"), Str("y")], [Str("y"), Str("x")];
    AllShapes(c, d);
    ElemsSubset(c, d);
    ElemsSubset(d, c);
  }

  /** The empty set is a strict subset of a non-empty one. */
  lemma EmptyLeftCases()
    ensures HoldsForAllShapes(AreEqual, [], [Num(1)], false)
    ensures HoldsForAllShapes(IsSubset, [], [Num(1)], true)
  {
    StrictSubsetShapes([], [Num(1)], Num(1));
  }

  /** The empty set is a strict subset of a mixed one. */
  lemma EmptyLeftMixedCases()
    ensures HoldsForAllShapes(AreEqual, [], [Str("x"), Str("y"), Num(3)], false)
    ensures HoldsForAllShapes(IsSubset, [], [Str("x"), Str("y"), Num(3)], true)
  {
    StrictSubsetShapes([], [Str("x"), Str("y"), Num(3)], Num(3));
  }

  /** A strict subset is a subset but not equal. */
  lemma StrictSubsetCases()
    ensures HoldsForAllShapes(AreEqual, [Num(1), Num(2)], [Num(1), Num(2), Num(3)], false)
    ensures HoldsForAllShapes(IsSubset, [Num(1), Num(2)], [Num(1), Num(2), Num(3)], true)
  {
    StrictSubsetShapes([Num(1), Num(2)], [Num(1), Num(2), Num(3)], Num(3));
  }

  /** A strict subset listed in another order is a subset but not equal. */
  lemma StrictSubsetMixedCases()
    ensures HoldsForAllShapes(AreEqual, [Str("y"), Str("x"), Num(3)], [Num(3), Str("x"), Num(44), Str("y"), Str("abc")], false)
    ensures HoldsForAllShapes(IsSubset, [Str("y"), Str("x"), Num(3)], [Num(3), Str("x"), Num(44), Str("y"), Str("abc")], true)
  {
    StrictSubsetShapes([Str("y"), Str("x"), Num(3)], [Num(3), Str("x"), Num(44), Str("y"), Str("abc")], Num(44));
  }

  /** A non-empty set is not a subset of the empty one. */
  lemma SupersetOfEmptyCase()
    ensures HoldsForAllShapes(IsSubset, [Num(1)], [], false)
  {
    NotSubsetShapes([Num(1)], [], Num(1));
  }

  /** A strict superset is not a subset. */
  lemma SupersetCase()
    ensures HoldsForAllShapes(IsSubset, [Num(1), Num(2), Num(3)], [Num(1), Num(2)], false)
  {
    NotSubsetShapes([Num(1), Num(2), Num(3)], [Num(1), Num(2)], Num(3));
  }

  /** A mixed strict superset is not a subset. */
  lemma SupersetMixedCase()
    ensures HoldsForAllShapes(IsSubset, [Str("x"), Str("y"), Num(3)], [Num(3), Str("y")], false)
  {
    NotSubsetShapes([Str("x"), Str("y"), Num(3)], [Num(3), Str("y")], Str("x"));
  }

  /** Strict equality: the number 3 and the string "3" are different elements, so neither
      singleton is a subset of the other. */
  lemma StrictEqualityCases()
    ensures HoldsForAllShapes(IsSubset, [Num(3)], [Str("3")], false)
    ensures HoldsForAllShapes(IsSubset, [Str("3")], [Num(3)], false)
  {
    NotSubsetShapes([Num(3)], [Str("3")], Num(3));
    NotSubsetShapes([Str("3")], [Num(3)], Str("3"));
  }

  /** `areEqual([1, 2, 3, 3, 3], new Set([1, 2, 3]))` holds: shape and duplicates do not
      matter. */
  lemma AreEqualExample()
    ensures AreEqual(ArrayOf([Num(1), Num(2), Num(3), Num(3), Num(3)]), SetOf([Num(1), Num(2), Num(3)]))
         == Success(true)
  {
    var a, b := [Num(1), Num(2), Num(3), Num(3), Num(3)], [Num(1), Num(2), Num(3)];
    ElemsSubset(a, b);
    ElemsSubset(b, a);
  }
}
