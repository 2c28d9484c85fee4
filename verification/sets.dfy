/** The public operations of the library (src/sets.js). Each one normalises its
    arguments with `setify` or `toArray` first, so a rejected argument yields the
    `TypeError` before any other work is done. Callbacks are total pure functions. */
module SetAlgebra {
  import opened Wrappers
  import opened InsertionOrder
  import opened Collections

  /** `array.map(f)`: f applied to each entry, in order. */
  function MapSeq<T, U>(a: seq<T>, f: T -> U): (r: seq<U>)
    ensures |r| == |a|
    ensures forall i | 0 <= i < |a| :: r[i] == f(a[i])
  {
    seq(|a|, i requires 0 <= i < |a| => f(a[i]))
  }

  /** The values f takes on the entries of a are the image of a's elements. */
  lemma MapSeqImage<T, U>(a: seq<T>, f: T -> U)
    ensures Elems(MapSeq(a, f)) == set x | x in Elems(a) :: f(x)
  {
  }

  /** `map`: the Set of the values f takes on the collection's entries; values that
      f maps together collapse, and each is placed at its first occurrence. */
  function Map<T(==), U(==)>(c: Collection<T>, f: T -> U): (r: Result<OrdSet<U>, Error>)
    ensures r.Failure? <==> !IsCollection(c)
    ensures r.Success? ==> Elems(r.value) == set x | x in Members(c) :: f(x)
    ensures r.Success? ==> FirstOccurrenceOrder(r.value, MapSeq(ToArray(c).value, f))
  {
    var a :- ToArray(c);
    MapSeqImage(a, f);
    FromSeqOrder(MapSeq(a, f));
    Success(FromSeq(MapSeq(a, f)))
  }

  /** `array.reduce(f, initial)`: a left fold. It is defined by its last step; the contract
      states the first step, combining `initial` with the entry at index 0. */
  function FoldLeft<X, T>(f: (X, T) -> X, initial: X, a: seq<T>): (r: X)
    ensures |a| == 0 ==> r == initial
    ensures |a| > 0 ==> r == FoldLeft(f, f(initial, a[0]), a[1..])
  {
    if |a| == 0 then initial
    else
      var p := a[..|a| - 1];
      assert |a| > 1 ==> a[1..][..|a[1..]| - 1] == p[1..];
      f(FoldLeft(f, initial, p), a[|a| - 1])
  }

  /** `fold`: reduces the collection's entries, in their enumeration order, starting from
      `initial`. */
  function Fold<T(==), X>(c: Collection<T>, initial: X, f: (X, T) -> X): (r: Result<X, Error>)
    ensures r.Failure? <==> !IsCollection(c)
    ensures r.Success? && Members(c) == {} ==> r.value == initial
  {
    var a :- ToArray(c);
    assert Members(c) == {} ==> a == [] by {
      if |a| > 0 { assert a[0] in Elems(a); }
    }
    Success(FoldLeft(f, initial, a))
  }

  /** `array.every(p)`: scans from the front and stops at the first entry that fails. */
  function Every<T>(a: seq<T>, p: T -> bool): (b: bool)
    ensures b <==> forall i | 0 <= i < |a| :: p(a[i])
  {
    |a| == 0 || (p(a[0]) && Every(a[1..], p))
  }

  /** `array.some(p)`: scans from the front and stops at the first entry that passes. */
  function Some<T>(a: seq<T>, p: T -> bool): (b: bool)
    ensures b <==> exists i | 0 <= i < |a| :: p(a[i])
  {
    |a| > 0 && (p(a[0]) || Some(a[1..], p))
  }

  /** `forall`: whether every element satisfies the condition; true on an empty collection. */
  function Forall<T(==)>(c: Collection<T>, condition: T -> bool): (r: Result<bool, Error>)
    ensures r.Failure? <==> !IsCollection(c)
    ensures r.Success? ==> (r.value <==> forall x | x in Members(c) :: condition(x))
  {
    var a :- ToArray(c);
    Success(Every(a, condition))
  }

  /** `exists`: whether some element satisfies the condition; false on an empty collection. */
  function Exists<T(==)>(c: Collection<T>, condition: T -> bool): (r: Result<bool, Error>)
    ensures r.Failure? <==> !IsCollection(c)
    ensures r.Success? ==> (r.value <==> exists x | x in Members(c) :: condition(x))
  {
    var a :- ToArray(c);
    Success(Some(a, condition))
  }

  /** `union`: a copy of the first Set, then every entry of the second added in order. */
  function Union<T(==)>(c1: Collection<T>, c2: Collection<T>): (r: Result<OrdSet<T>, Error>)
    ensures r.Failure? <==> !IsCollection(c1) || !IsCollection(c2)
    ensures r.Success? ==> Elems(r.value) == Members(c1) + Members(c2)
    ensures r.Success? ==>
      r.value == Setify(c1).value + Select(Setify(c2).value, Members(c1), false)
  {
    var set1 :- Setify(c1);
    var set2 :- Setify(c2);
    Success(AddAll(set1, set2))
  }

  /** The loop of `intersection`: every entry of xs that set1 has is added to acc. */
  function AddCommon<T(==)>(acc: OrdSet<T>, set1: OrdSet<T>, xs: seq<T>): (r: OrdSet<T>)
    ensures Elems(r) == Elems(acc) + (Elems(xs) * Elems(set1))
    ensures Distinct(xs) && Elems(acc) !! Elems(xs) ==> r == acc + Select(xs, Elems(set1), true)
  {
    if |xs| == 0 then
      acc
    else
      var p := xs[..|xs| - 1];
      var e := xs[|xs| - 1];
      var rp := AddCommon(acc, set1, p);
      ElemsSnoc(p, e);
      assert xs == p + [e];
      if e in set1 then Add(rp, e) else rp
  }

  /** `intersection`: the entries of the second Set, in its order, that the first has. */
  function Intersection<T(==)>(c1: Collection<T>, c2: Collection<T>): (r: Result<OrdSet<T>, Error>)
    ensures r.Failure? <==> !IsCollection(c1) || !IsCollection(c2)
    ensures r.Success? ==> Elems(r.value) == Members(c1) * Members(c2)
    ensures r.Success? ==> r.value == Select(Setify(c2).value, Members(c1), true)
  {
    var set1 :- Setify(c1);
    var set2 :- Setify(c2);
    Success(AddCommon([], set1, set2))
  }

  /** The loop of `difference`: every entry of xs is deleted from acc. */
  function DeleteAll<T(==)>(acc: OrdSet<T>, xs: seq<T>): (r: OrdSet<T>)
    ensures Elems(r) == Elems(acc) - Elems(xs)
    ensures r == Select(acc, Elems(xs), false)
  {
    if |xs| == 0 then
      SelectKeepsAll(acc, Elems(xs), false);
      acc
    else
      var p := xs[..|xs| - 1];
      var e := xs[|xs| - 1];
      ElemsSnoc(p, e);
      assert xs == p + [e];
      SelectOutTwice(acc, Elems(p), {e});
      Delete(DeleteAll(acc, p), e)
  }

  /** `difference`: a copy of the first Set with every entry of the second deleted. */
  function Difference<T(==)>(c1: Collection<T>, c2: Collection<T>): (r: Result<OrdSet<T>, Error>)
    ensures r.Failure? <==> !IsCollection(c1) || !IsCollection(c2)
    ensures r.Success? ==> Elems(r.value) == Members(c1) - Members(c2)
    ensures r.Success? ==> r.value == Select(Setify(c1).value, Members(c2), false)
  {
    var set1 :- Setify(c1);
    var set2 :- Setify(c2);
    Success(DeleteAll(set1, set2))
  }

  /** `symmetricDifference`: the union of the two one-sided differences. */
  function SymmetricDifference<T(==)>(c1: Collection<T>, c2: Collection<T>): (r: Result<OrdSet<T>, Error>)
    ensures r.Failure? <==> !IsCollection(c1) || !IsCollection(c2)
    ensures r.Success? ==>
      Elems(r.value) == (Members(c1) - Members(c2)) + (Members(c2) - Members(c1))
    ensures r.Success? ==>
      r.value == Select(Setify(c1).value, Members(c2), false)
                 + Select(Setify(c2).value, Members(c1), false)
  {
    var d12 :- Difference(c1, c2);
    var d21 := Difference(c2, c1).value;
    SelectKeepsAll(d21, Elems(d12), false);
    Union(SetOf(d12), SetOf(d21))
  }

  /** `isSubset`: whether every element of the left Set is an element of the right one. */
  function IsSubset<T(==)>(left: Collection<T>, right: Collection<T>): (r: Result<bool, Error>)
    ensures r.Failure? <==> !IsCollection(left) || !IsCollection(right)
    ensures r.Success? ==> (r.value <==> Members(left) <= Members(right))
  {
    var leftSet :- Setify(left);
    var rightSet :- Setify(right);
    Forall(SetOf(leftSet), value => value in rightSet)
  }

  /** `areEqual`: whether each Set is a subset of the other. */
  function AreEqual<T(==)>(left: Collection<T>, right: Collection<T>): (r: Result<bool, Error>)
    ensures r.Failure? <==> !IsCollection(left) || !IsCollection(right)
    ensures r.Success? ==> (r.value <==> Members(left) == Members(right))
  {
    var leftSet :- Setify(left);
    var rightSet :- Setify(right);
    var leftInRight := IsSubset(SetOf(leftSet), SetOf(rightSet)).value;
    if !leftInRight then Success(false) else IsSubset(SetOf(rightSet), SetOf(leftSet))
  }
}
