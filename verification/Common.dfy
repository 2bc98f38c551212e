/** Types shared by the other modules: optional values, machine integers, bytes and content identifiers. */
module Common {

  datatype Option<+T> = None | Some(value: T)

  type byte = x: int | 0 <= x < 256
  type Bytes = seq<byte>

  const TWO_63: int := 0x8000_0000_0000_0000
  const TWO_64: int := 0x1_0000_0000_0000_0000

  type uint64 = x: int | 0 <= x < TWO_64
  type int64 = x: int | -TWO_63 <= x < TWO_63

  /** A slice of pointers without a nil among them. */
  predicate NoNil<T>(s: seq<Option<T>>) {
    forall i :: 0 <= i < |s| ==> s[i].Some?
  }

  /** Go's conversion of a uint64 to a 64-bit int (or int64): two's complement reinterpretation. */
  function ToInt64(u: uint64): (i: int64) {
    if u < TWO_63 then u else u - TWO_64
  }

  /** Go's conversion of an int64 to a uint64. */
  function ToUint64(i: int64): (u: uint64) {
    if i < 0 then i + TWO_64 else i
  }

  /** Reduction of an exact integer to 64 bits, two's complement. */
  function Wrap64(x: int): (i: int64) {
    ToInt64(x % TWO_64)
  }

  /** A content identifier, by its bytes; the undefined one has none. */
  datatype Cid = Cid(bytes: Bytes) {
    predicate Defined() { bytes != [] }
  }

  // ----- sequences -----

  function Map<A, B>(f: A -> B, s: seq<A>): (r: seq<B>)
    ensures |r| == |s| && forall i :: 0 <= i < |s| ==> r[i] == f(s[i])
  {
    seq(|s|, i requires 0 <= i < |s| => f(s[i]))
  }

  /** All results, or none if one is missing. */
  function Gather<A, B>(f: A -> Option<B>, s: seq<A>): (r: Option<seq<B>>)
    ensures r.Some? <==> forall i :: 0 <= i < |s| ==> f(s[i]).Some?
    ensures r.Some? ==> |r.value| == |s| && forall i :: 0 <= i < |s| ==> f(s[i]) == Some(r.value[i])
  {
    if s == [] then Some([])
    else
      match Gather(f, s[..|s| - 1])
      case None => None
      case Some(front) =>
        match f(s[|s| - 1])
        case None => None
        case Some(last) => Some(front + [last])
  }

  /** Counting elements is counting their labels, where something leads back from a label. */
  lemma {:induction false} CountByLabel<A, B>(f: A -> B, g: B -> Option<A>, s: seq<A>, x: A)
    requires g(f(x)) == Some(x) && forall i :: 0 <= i < |s| ==> g(f(s[i])) == Some(s[i])
    ensures multiset(Map(f, s))[f(x)] == multiset(s)[x]
  {
    if s != [] {
      var n := |s| - 1;
      CountByLabel(f, g, s[..n], x);
      assert s == s[..n] + [s[n]];
      assert Map(f, s) == Map(f, s[..n]) + [f(s[n])];
    }
  }

  lemma SameLabelsSameElements<A, B>(f: A -> B, g: B -> Option<A>, s: seq<A>, t: seq<A>)
    requires multiset(Map(f, s)) == multiset(Map(f, t))
    requires forall i :: 0 <= i < |s| ==> g(f(s[i])) == Some(s[i])
    requires forall i :: 0 <= i < |t| ==> g(f(t[i])) == Some(t[i])
    ensures multiset(s) == multiset(t)
  {
    hide Map;
    forall x: A
      ensures multiset(s)[x] == multiset(t)[x]
    {
      SameCount(f, g, s, t, x);
    }
  }

  lemma SameCount<A, B>(f: A -> B, g: B -> Option<A>, s: seq<A>, t: seq<A>, x: A)
    requires multiset(Map(f, s)) == multiset(Map(f, t))
    requires forall i :: 0 <= i < |s| ==> g(f(s[i])) == Some(s[i])
    requires forall i :: 0 <= i < |t| ==> g(f(t[i])) == Some(t[i])
    ensures multiset(s)[x] == multiset(t)[x]
  {
    hide Map;
    if x in s {
      var i := IndexOf(s, x);
      CountByLabel(f, g, s, x);
      CountByLabel(f, g, t, x);
    } else if x in t {
      var i := IndexOf(t, x);
      CountByLabel(f, g, s, x);
      CountByLabel(f, g, t, x);
    }
  }

  lemma GatherNone<A, B>(f: A -> Option<B>, s: seq<A>)
    ensures Gather(f, s[..0]) == Some([])
  {}

  lemma GatherStep<A, B>(f: A -> Option<B>, s: seq<A>, i: nat)
    requires i < |s| && Gather(f, s[..i]).Some?
    ensures f(s[i]).Some? ==> Gather(f, s[..i + 1]) == Some(Gather(f, s[..i]).value + [f(s[i]).value])
    ensures f(s[i]).None? ==> Gather(f, s) == None
  {
    assert s[..i + 1][..i] == s[..i];
  }

  ghost predicate AllSame<T>(s: seq<T>) {
    forall i :: 0 <= i < |s| ==> s[i] == s[0]
  }

  lemma IndexOf<T>(s: seq<T>, x: T) returns (i: nat)
    requires x in s
    ensures i < |s| && s[i] == x
  {
    i :| 0 <= i < |s| && s[i] == x;
  }

  lemma SameMembers<T>(s: seq<T>, t: seq<T>)
    requires multiset(s) == multiset(t)
    ensures |s| == |t| && forall x :: x in s <==> x in t
  {
    assert |s| == |multiset(s)| && |t| == |multiset(t)|;
    assert forall x :: x in s <==> x in multiset(s);
    assert forall x :: x in t <==> x in multiset(t);
  }

  lemma SameMembersSame<T>(s: seq<T>, t: seq<T>)
    requires multiset(s) == multiset(t)
    ensures AllSame(s) <==> AllSame(t)
  {
    SameMembers(s, t);
    if s != [] {
      if AllSame(s) {
        assert forall i :: 0 <= i < |t| ==> t[i] in s;
      }
      if AllSame(t) {
        assert forall i :: 0 <= i < |s| ==> s[i] in t;
      }
    }
  }

  // ----- lists without repeats -----

  ghost predicate Distinct<T>(s: seq<T>) {
    forall i, j :: 0 <= i < j < |s| ==> s[i] != s[j]
  }

  ghost function Elements<T>(s: seq<T>): (r: set<T>) {
    set x | x in s
  }

  /** A list has as many elements as positions exactly when none repeats. */
  lemma {:induction false} ElementsCount<T>(s: seq<T>)
    ensures |Elements(s)| <= |s|
    ensures |Elements(s)| == |s| <==> Distinct(s)
  {
    if s != [] {
      var n := |s| - 1;
      ElementsCount(s[..n]);
      assert s == s[..n] + [s[n]];
      if s[n] in s[..n] {
        assert Elements(s) == Elements(s[..n]);
        var k := IndexOf(s[..n], s[n]);
        assert s[k] == s[n];
      } else {
        assert Elements(s) == Elements(s[..n]) + {s[n]};
      }
    }
  }

  lemma {:induction false} DistinctCounts<T>(s: seq<T>, x: T)
    requires Distinct(s)
    ensures multiset(s)[x] == if x in s then 1 else 0
  {
    if s != [] {
      var n := |s| - 1;
      DistinctCounts(s[..n], x);
      assert s == s[..n] + [s[n]];
    }
  }

  /** A list without repeats is covered by a list of the same length only if both hold the same elements. */
  lemma Pigeonhole<T>(a: seq<T>, b: seq<T>)
    requires Distinct(b) && |a| == |b| && forall x :: x in b ==> x in a
    ensures multiset(a) == multiset(b) && Distinct(a)
  {
    ElementsCount(a);
    ElementsCount(b);
    SubsetOfSameSize(Elements(b), Elements(a));
    forall x
      ensures multiset(a)[x] == multiset(b)[x]
    {
      DistinctCounts(a, x);
      DistinctCounts(b, x);
      assert x in a <==> x in Elements(a);
      assert x in b <==> x in Elements(b);
    }
  }

  lemma SubsetOfSameSize<T>(s: set<T>, t: set<T>)
    requires s <= t && |t| <= |s|
    ensures s == t
  {
    assert |t| == |s| + |t - s|;
  }
}
