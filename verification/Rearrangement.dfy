/** Sequences that hold the same values in another order. */
module Rearrangement {
  function Mapped<T>(s: seq<T>, f: T -> real): (r: seq<real>)
    ensures |r| == |s|
    ensures forall i :: 0 <= i < |s| ==> r[i] == f(s[i])
  {
    seq(|s|, i requires 0 <= i < |s| => f(s[i]))
  }

  lemma TakeOut<T>(s: seq<T>, k: nat)
    requires k < |s|
    ensures multiset(s) == multiset(s[..k] + s[k + 1..]) + multiset{s[k]}
  {
    assert s == s[..k] + [s[k]] + s[k + 1..];
  }

  lemma RemoveOne<T>(a: seq<T>, b: seq<T>, k: nat)
    requires multiset(a) == multiset(b) && a != [] && k < |b| && b[k] == a[0]
    ensures multiset(a[1..]) == multiset(b[..k] + b[k + 1..])
  {
    assert a == [a[0]] + a[1..];
    TakeOut(b, k);
    assert multiset(a) == multiset{a[0]} + multiset(a[1..]);
    assert multiset(a[1..]) == multiset(a) - multiset{a[0]};
  }

  lemma MappedTakeOut<T>(s: seq<T>, k: nat, f: T -> real)
    requires k < |s|
    ensures multiset(Mapped(s, f)) == multiset(Mapped(s[..k] + s[k + 1..], f)) + multiset{f(s[k])}
  {
    var m := Mapped(s, f);
    TakeOut(m, k);
    assert m[..k] + m[k + 1..] == Mapped(s[..k] + s[k + 1..], f);
  }

  lemma MappedGrows<T>(a: seq<T>, rest: seq<T>, b: seq<T>, k: nat, f: T -> real)
    requires a != [] && k < |b| && b[k] == a[0] && rest == b[..k] + b[k + 1..]
    requires multiset(Mapped(a[1..], f)) == multiset(Mapped(rest, f))
    ensures multiset(Mapped(a, f)) == multiset(Mapped(b, f))
  {
    assert Mapped(a, f) == [f(a[0])] + Mapped(a[1..], f);
    MappedTakeOut(b, k, f);
  }

  lemma NoneMeansNone<T>(a: seq<T>, b: seq<T>)
    requires multiset(a) == multiset(b)
    ensures a == [] <==> b == []
  {
    assert a != [] ==> a[0] in multiset(a);
    assert b != [] ==> b[0] in multiset(b);
  }

  /** Mapping value by value keeps a rearrangement a rearrangement. */
  lemma {:induction false} MappedIgnoresOrder<T>(a: seq<T>, b: seq<T>, f: T -> real)
    requires multiset(a) == multiset(b)
    ensures multiset(Mapped(a, f)) == multiset(Mapped(b, f))
    decreases |a|
  {
    NoneMeansNone(a, b);
    if a != [] {
      assert a[0] in multiset(a);
      var k :| 0 <= k < |b| && b[k] == a[0];
      var rest := b[..k] + b[k + 1..];
      RemoveOne(a, b, k);
      MappedIgnoresOrder(a[1..], rest, f);
      MappedGrows(a, rest, b, k, f);
    }
  }

  ghost predicate Unrepeated<T>(s: seq<T>) {
    forall i, j :: 0 <= i < j < |s| ==> s[i] != s[j]
  }

  lemma {:induction false} UnrepeatedCountsOne<T>(s: seq<T>, x: T)
    requires Unrepeated(s)
    ensures multiset(s)[x] == if x in s then 1 else 0
  {
    if s != [] {
      var front, last := s[..|s| - 1], s[|s| - 1];
      assert s == front + [last];
      UnrepeatedCountsOne(front, x);
    }
  }

  /** Two lists without repeats of the same values are rearrangements of each other. */
  lemma SameMembersRearrange<T>(a: seq<T>, b: seq<T>)
    requires Unrepeated(a) && Unrepeated(b)
    requires forall x :: x in a <==> x in b
    ensures multiset(a) == multiset(b)
  {
    forall x ensures multiset(a)[x] == multiset(b)[x] {
      UnrepeatedCountsOne(a, x);
      UnrepeatedCountsOne(b, x);
    }
  }
}
