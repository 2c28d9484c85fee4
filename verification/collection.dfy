/** The `Collection` sum type and its two normalisers, `setify` and `toArray`
    (src/collection.js). */
module Collections {
  import opened Wrappers
  import opened InsertionOrder

  /** A value handed to the library: a Set, an Array, or any other value, which the
      normalisers reject. */
  datatype Collection<T(==)> = SetOf(entries: OrdSet<T>) | ArrayOf(items: seq<T>) | Other

  /** The `TypeError` thrown for an argument that is neither a Set nor an Array. */
  datatype Error = TypeError

  /** A value the library accepts. */
  predicate IsCollection<T(==)>(c: Collection<T>) {
    !c.Other?
  }

  /** The mathematical set of elements of a collection (empty for a rejected value). */
  function Members<T(==)>(c: Collection<T>): set<T> {
    match c
    case SetOf(s) => Elems(s)
    case ArrayOf(a) => Elems(a)
    case Other => {}
  }

  /** `setify`: a Set is passed through unchanged, an Array becomes `new Set(array)`,
      anything else is a type error. */
  function Setify<T(==)>(c: Collection<T>): (r: Result<OrdSet<T>, Error>)
    ensures r.Failure? <==> !IsCollection(c)
    ensures r.Success? ==> Elems(r.value) == Members(c)
    ensures c.SetOf? ==> r == Success(c.entries)
    ensures c.ArrayOf? ==> |r.value| <= |c.items| && FirstOccurrenceOrder(r.value, c.items)
  {
    match c
    case SetOf(s) => Success(s)
    case ArrayOf(a) =>
      FromSeqOrder(a);
      Success(FromSeq(a))
    case Other => Failure(TypeError)
  }

  /** `toArray`: an Array is passed through unchanged, a Set becomes `Array.from(set)`,
      anything else is a type error. */
  function ToArray<T(==)>(c: Collection<T>): (r: Result<seq<T>, Error>)
    ensures r.Failure? <==> !IsCollection(c)
    ensures r.Success? ==> Elems(r.value) == Members(c)
    ensures c.ArrayOf? ==> r == Success(c.items)
    ensures c.SetOf? ==> r.Success? && Distinct(r.value) && r.value == c.entries
  {
    match c
    case ArrayOf(a) => Success(a)
    case SetOf(s) => Success(s)
    case Other => Failure(TypeError)
  }

  /** Normalising to an Array and then to a Set gives exactly the Set, entry order
      included, that normalising directly gives. */
  lemma SetifyToArray<T>(c: Collection<T>)
    requires IsCollection(c)
    ensures Setify(ArrayOf(ToArray(c).value)) == Setify(c)
    ensures Members(ArrayOf(ToArray(c).value)) == Members(c)
  {
  }

  /** Normalising to a Set and enumerating it gives the collection's elements without
      duplicates; for an Array they come in first-occurrence order. */
  lemma ToArraySetify<T>(c: Collection<T>)
    requires IsCollection(c)
    ensures var a := ToArray(SetOf(Setify(c).value)).value;
      Distinct(a) && Elems(a) == Members(c) && (c.SetOf? ==> a == c.entries)
  {
  }
}
