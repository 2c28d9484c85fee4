/** The behaviour of the JavaScript `Set` built-in that the library relies on.
    A Set value is its elements in insertion order, each present once: `add` appends an
    absent element and ignores a present one, `delete` removes an entry and keeps the
    order of the rest, and iteration (`forEach`, `Array.from`) visits entries in that order.
    Membership uses JavaScript's SameValueZero comparison, modelled as Dafny's `==` on the
    element type. */
module InsertionOrder {

  /** No element occurs twice. */
  predicate Distinct<T(==)>(s: seq<T>) {
    forall i, j | 0 <= i < j < |s| :: s[i] != s[j]
  }

  /** A Set value: its entries in insertion order. */
  type OrdSet<T(==)> = s: seq<T> | Distinct(s) witness []

  /** The elements of a sequence, forgetting order and multiplicity. */
  function Elems<T>(s: seq<T>): set<T> {
    set x | x in s
  }

  /** `set.add(x)`: appends x unless it is already an entry. */
  function Add<T(==)>(s: OrdSet<T>, x: T): (r: OrdSet<T>)
    ensures Elems(r) == Elems(s) + {x}
    ensures |s| <= |r| && r[..|s|] == s
    ensures x in s <==> |r| == |s|
  {
    if x in s then s else s + [x]
  }

  /** The elements of `p + [x]` are those of p and x. */
  lemma ElemsSnoc<T>(p: seq<T>, x: T)
    ensures Elems(p + [x]) == Elems(p) + {x}
  {
    assert forall y | y in p + [x] :: y in p || y == x;
  }

  /** Appending an absent element keeps a sequence duplicate-free. */
  lemma DistinctSnoc<T>(p: seq<T>, x: T)
    ensures Distinct(p) && x !in p ==> Distinct(p + [x])
  {
  }

  /** A prefix of a duplicate-free sequence is duplicate-free and misses the last entry. */
  lemma DistinctPrefix<T>(s: seq<T>)
    requires Distinct(s) && |s| > 0
    ensures Distinct(s[..|s| - 1]) && s[|s| - 1] !in s[..|s| - 1]
  {
  }

  /** The entries of s, in their order, whose membership in m is `keep`:
      the reference definition of an order-preserving filter. */
  function Select<T(==)>(s: seq<T>, m: set<T>, keep: bool): (r: seq<T>)
    ensures Elems(r) == set x | x in s && (x in m) == keep
    ensures |r| <= |s|
    ensures Distinct(s) ==> Distinct(r)
  {
    if |s| == 0 then []
    else
      var p := s[..|s| - 1];
      var last := s[|s| - 1];
      var rp := Select(p, m, keep);
      ElemsSnoc(p, last);
      assert s == p + [last];
      assert Distinct(s) ==> Distinct(p) && last !in p by {
        if Distinct(s) { DistinctPrefix(s); }
      }
      if (last in m) == keep then
        ElemsSnoc(rp, last);
        assert Distinct(s) ==> last !in rp;
        DistinctSnoc(rp, last);
        rp + [last]
      else
        rp
  }

  /** A filter that every entry passes returns its input. */
  lemma {:induction false} SelectKeepsAll<T>(s: seq<T>, m: set<T>, keep: bool)
    requires forall x | x in s :: (x in m) == keep
    ensures Select(s, m, keep) == s
  {
    if |s| > 0 {
      var p := s[..|s| - 1];
      assert forall x | x in p :: x in s;
      SelectKeepsAll(p, m, keep);
      assert s == p + [s[|s| - 1]];
    }
  }

  /** A filter that no entry passes returns the empty sequence. */
  lemma SelectDropsAll<T>(s: seq<T>, m: set<T>, keep: bool)
    requires forall x | x in s :: (x in m) != keep
    ensures Select(s, m, keep) == []
  {
  }

  /** Removing m1 and then m2 removes their union. */
  lemma {:induction false} SelectOutTwice<T>(s: seq<T>, m1: set<T>, m2: set<T>)
    ensures Select(Select(s, m1, false), m2, false) == Select(s, m1 + m2, false)
  {
    if |s| > 0 {
      var p := s[..|s| - 1];
      var last := s[|s| - 1];
      SelectOutTwice(p, m1, m2);
      var inner := Select(p, m1, false);
      assert s[..|s| - 1] == p;
      if last in m1 {
      } else {
        assert Select(s, m1, false) == inner + [last];
        assert (inner + [last])[..|inner + [last]| - 1] == inner;
        assert (inner + [last])[|inner + [last]| - 1] == last;
      }
    }
  }

  /** `set.delete(x)`: removes x's entry, if any, keeping the order of the others. */
  function Delete<T(==)>(s: OrdSet<T>, x: T): (r: OrdSet<T>)
    ensures r == Select(s, {x}, false)
    ensures Elems(r) == Elems(s) - {x}
    ensures |r| == if x in s then |s| - 1 else |s|
  {
    if |s| == 0 then []
    else
      var p: OrdSet<T> := s[..|s| - 1];
      var last := s[|s| - 1];
      if last == x then
        assert x !in p;
        SelectKeepsAll(p, {x}, false);
        p
      else
        var d := Delete(p, x);
        DistinctPrefix(s);
        assert last !in Elems(d);
        DistinctSnoc(d, last);
        d + [last]
  }

  /** Adds the entries of xs in order, as `xs.forEach(e => acc.add(e))` does; with an
      empty `acc` it is `new Set(xs)`. */
  function AddAll<T(==)>(acc: OrdSet<T>, xs: seq<T>): (r: OrdSet<T>)
    ensures Elems(r) == Elems(acc) + Elems(xs)
    ensures |acc| <= |r| <= |acc| + |xs| && r[..|acc|] == acc
    ensures Distinct(xs) ==> r == acc + Select(xs, Elems(acc), false)
  {
    if |xs| == 0 then
      acc
    else
      Add(AddAll(acc, xs[..|xs| - 1]), xs[|xs| - 1])
  }

  /** `new Set(a)`: the Set holding a's entries, each at its first occurrence. */
  function FromSeq<T(==)>(a: seq<T>): (r: OrdSet<T>)
    ensures Elems(r) == Elems(a)
    ensures |r| <= |a|
    ensures Distinct(a) ==> r == a
  {
    SelectKeepsAll(a, Elems([]), false);
    assert [] + a == a;
    AddAll([], a)
  }

  /** The position at which x first occurs in a. */
  function FirstIndex<T(==)>(a: seq<T>, x: T): (i: nat)
    requires x in a
    ensures i < |a| && a[i] == x && x !in a[..i]
  {
    var p := a[..|a| - 1];
    if x in p then
      var i := FirstIndex(p, x);
      assert a[..i] == p[..i];
      i
    else
      assert a == p + [a[|a| - 1]];
      |a| - 1
  }

  /** The entries of r come in the order in which their first occurrences come in a. */
  ghost predicate FirstOccurrenceOrder<T>(r: seq<T>, a: seq<T>) {
    forall i, j | 0 <= i < j < |r| && r[i] in a && r[j] in a ::
      FirstIndex(a, r[i]) < FirstIndex(a, r[j])
  }

  /** `new Set(a)` keeps the first occurrence of every element, in order: together with
      `FromSeq`'s contract this pins the result down uniquely. */
  lemma {:induction false} FromSeqOrder<T>(a: seq<T>)
    ensures FirstOccurrenceOrder(FromSeq(a), a)
  {
    if |a| > 0 {
      var p := a[..|a| - 1];
      var x := a[|a| - 1];
      FromSeqOrder(p);
      var rp := FromSeq(p);
      var r := FromSeq(a);
      assert r == Add(rp, x);
      forall y | y in p
        ensures FirstIndex(a, y) == FirstIndex(p, y) && FirstIndex(p, y) < |a| - 1
      {
      }
      if x !in rp {
        assert x !in p;
        assert FirstIndex(a, x) == |a| - 1;
        forall i | 0 <= i < |rp|
          ensures rp[i] in p
        {
          assert rp[i] in Elems(rp);
        }
      }
    }
  }
}
