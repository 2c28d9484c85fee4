/** Algebraic laws of the operations in SetAlgebra: the properties the library promises
    about how the operations relate to each other and to set theory. */
module SetAlgebraLaws {
  import opened Wrappers
  import opened InsertionOrder
  import opened Collections
  import opened SetAlgebra

  /** The accumulator step that rebuilds a sequence: `(acc, x) => acc.concat([x])`. */
  function Snoc<T>(acc: seq<T>, x: T): seq<T> {
    acc + [x]
  }

  /** Folding with `Snoc` appends the entries in the order the fold visits them. */
  lemma {:induction false} FoldLeftSnoc<T>(initial: seq<T>, a: seq<T>)
    ensures FoldLeft(Snoc, initial, a) == initial + a
  {
    if |a| > 0 {
      var p := a[..|a| - 1];
      FoldLeftSnoc(initial, p);
      assert a == p + [a[|a| - 1]];
    }
  }

  /** `fold` visits the entries in `toArray` order: folding with `Snoc` from the empty
      sequence yields exactly the Array form, which for a Set is its insertion order. */
  lemma FoldVisitsInOrder<T>(c: Collection<T>)
    requires IsCollection(c)
    ensures Fold(c, [], Snoc).value == ToArray(c).value
    ensures c.SetOf? ==> Fold(c, [], Snoc).value == c.entries
  {
    FoldLeftSnoc([], ToArray(c).value);
  }

  /** `exists` is the dual of `forall`: some element passes iff not all of them fail. */
  lemma ExistsIsNotForallNot<T>(c: Collection<T>, condition: T -> bool)
    ensures Exists(c, condition).Success? <==> Forall(c, x => !condition(x)).Success?
    ensures IsCollection(c) ==>
      (Exists(c, condition).value <==> !Forall(c, x => !condition(x)).value)
  {
  }

  /** Mapping with the identity gives the Set that `setify` gives. */
  lemma MapIdentity<T>(c: Collection<T>)
    requires IsCollection(c)
    ensures Map(c, x => x) == Setify(c)
  {
    var a := ToArray(c).value;
    assert MapSeq(a, x => x) == a;
  }

  /** Union is commutative as a set of elements (not in entry order). */
  lemma UnionCommutes<T>(c1: Collection<T>, c2: Collection<T>)
    requires IsCollection(c1) && IsCollection(c2)
    ensures Elems(Union(c1, c2).value) == Elems(Union(c2, c1).value)
  {
  }

  /** The union of a collection with itself is its Set form, entry order included. */
  lemma UnionSelf<T>(c: Collection<T>)
    requires IsCollection(c)
    ensures Union(c, c) == Setify(c)
  {
    var s := Setify(c).value;
    SelectDropsAll(s, Elems(s), false);
    assert s + [] == s;
  }

  /** The union with an empty collection is the other operand's Set form. */
  lemma UnionEmpty<T>(c: Collection<T>)
    requires IsCollection(c)
    ensures Union(c, ArrayOf([])) == Setify(c)
    ensures Elems(Union(ArrayOf([]), c).value) == Members(c)
  {
  }

  /** Intersection is commutative as a set and lies within each argument. */
  lemma IntersectionCommutes<T>(c1: Collection<T>, c2: Collection<T>)
    requires IsCollection(c1) && IsCollection(c2)
    ensures Elems(Intersection(c1, c2).value) == Elems(Intersection(c2, c1).value)
    ensures Elems(Intersection(c1, c2).value) <= Members(c1)
    ensures Elems(Intersection(c1, c2).value) <= Members(c2)
  {
  }

  /** The intersection of a collection with itself is its Set form, entry order included. */
  lemma IntersectionSelf<T>(c: Collection<T>)
    requires IsCollection(c)
    ensures Intersection(c, c) == Setify(c)
  {
    var s := Setify(c).value;
    SelectKeepsAll(s, Elems(s), true);
  }

  /** A collection minus itself is empty. */
  lemma DifferenceSelf<T>(c: Collection<T>)
    requires IsCollection(c)
    ensures Difference(c, c) == Success([])
  {
    var s := Setify(c).value;
    SelectDropsAll(s, Elems(s), false);
  }

  /** Symmetric difference is commutative as a set. */
  lemma SymmetricDifferenceCommutes<T>(c1: Collection<T>, c2: Collection<T>)
    requires IsCollection(c1) && IsCollection(c2)
    ensures Elems(SymmetricDifference(c1, c2).value) == Elems(SymmetricDifference(c2, c1).value)
  {
  }

  /** Symmetric difference is empty exactly when the two collections are equal as sets. */
  lemma SymmetricDifferenceEmptyIffEqual<T>(c1: Collection<T>, c2: Collection<T>)
    requires IsCollection(c1) && IsCollection(c2)
    ensures SymmetricDifference(c1, c2).value == [] <==> AreEqual(c1, c2).value
  {
    var m1, m2 := Members(c1), Members(c2);
    var d := SymmetricDifference(c1, c2).value;
    assert Elems(d) == (m1 - m2) + (m2 - m1);
    if d == [] {
      assert Elems(d) == {};
      forall x ensures x in m1 <==> x in m2 {
        assert x !in Elems(d);
      }
      assert m1 == m2;
    } else {
      assert d[0] in Elems(d);
    }
  }

  /** The empty collection is a subset of everything, and only the empty collection is
      a subset of it. */
  lemma IsSubsetEmpty<T>(c: Collection<T>)
    requires IsCollection(c)
    ensures IsSubset(ArrayOf([]), c) == Success(true)
    ensures IsSubset(c, ArrayOf([])) == Success(Members(c) == {})
  {
  }

  /** Equality is reflexive and symmetric, and is mutual inclusion. */
  lemma AreEqualLaws<T>(c1: Collection<T>, c2: Collection<T>)
    requires IsCollection(c1) && IsCollection(c2)
    ensures AreEqual(c1, c1) == Success(true)
    ensures AreEqual(c1, c2) == AreEqual(c2, c1)
    ensures AreEqual(c1, c2).value <==> IsSubset(c1, c2).value && IsSubset(c2, c1).value
  {
  }

  /** Equality ignores shape, order and duplicates: an Array equals the Set built from it,
      and two Arrays are equal exactly when they hold the same elements. */
  lemma AreEqualIgnoresShape<T>(a: seq<T>, b: seq<T>)
    ensures AreEqual(ArrayOf(a), SetOf(FromSeq(a))) == Success(true)
    ensures AreEqual(ArrayOf(a), ArrayOf(b)) == Success(Elems(a) == Elems(b))
    ensures AreEqual(SetOf(FromSeq(a)), SetOf(FromSeq(b))) == Success(Elems(a) == Elems(b))
  {
  }
}
