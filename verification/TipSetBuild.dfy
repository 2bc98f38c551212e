/** The building and comparing of tipsets, step by step. */
module TipSetBuild {
  import opened Common
  import opened ChainTypes
  import opened TipSets

  /** Where an insertion puts its element: behind everything it is not before. */
  lemma {:induction false} InsertAt(h: Hashes, s: seq<Entry>, e: Entry, p: nat)
    requires AllTickets(s) && HasTicket(e) && p <= |s|
    requires forall k :: p <= k < |s| ==> Before(h, e, s[k])
    requires p > 0 ==> !Before(h, e, s[p - 1])
    ensures Insert(h, s, e) == s[..p] + [e] + s[p..]
    decreases |s|
  {
    var n := |s| - 1;
    if p <= n {
      SplitLast(s, p);
      InsertAt(h, s[..n], e, p);
    }
  }

  lemma SplitLast<T>(s: seq<T>, p: nat)
    requires p < |s|
    ensures s[..|s| - 1][..p] == s[..p] && s[p..] == s[..|s| - 1][p..] + [s[|s| - 1]]
  {}

  lemma SortStep(h: Hashes, s: seq<Entry>, i: nat)
    requires AllTickets(s) && i < |s|
    ensures AllTickets(s[..i]) && AllTickets(s[..i + 1]) && AllTickets(Sort(h, s[..i])) && HasTicket(s[i])
    ensures |Sort(h, s[..i])| == i
    ensures Sort(h, s[..i + 1]) == Insert(h, Sort(h, s[..i]), s[i])
  {
    hide Insert;
    SameMembers(Sort(h, s[..i]), s[..i]);
    assert s[..i + 1][..i] == s[..i];
  }

  /** A list with e held at position j of front, and rest behind. */
  function Held<T>(front: seq<T>, e: T, rest: seq<T>, j: nat): (s: seq<T>)
    requires j <= |front|
    ensures |s| == |front| + 1 + |rest| && s[j] == e && (j > 0 ==> s[j - 1] == front[j - 1])
  {
    front[..j] + [e] + front[j..] + rest
  }

  lemma SinkOne<T>(front: seq<T>, e: T, rest: seq<T>, j: nat)
    requires 0 < j <= |front|
    ensures var s := Held(front, e, rest, j);
            s[j := s[j - 1]][j - 1 := s[j]] == Held(front, e, rest, j - 1)
  {}

  /** One pass of the sort: the element behind front sinks to its place in it. */
  method InsertInPlace(
      h: Hashes, a: array<Entry>, ghost front: seq<Entry>, ghost e: Entry, ghost rest: seq<Entry>,
      i: nat)
    requires |front| == i && a[..] == front + [e] + rest && AllTickets(front) && HasTicket(e)
    modifies a
    ensures a[..] == Insert(h, front, e) + rest
  {
    hide Insert, Before, AllTickets;
    var j := i;
    while j > 0
      invariant 0 <= j <= i && a[..] == Held(front, e, rest, j)
      invariant forall k :: j <= k < i ==> HasTicket(front[k]) && Before(h, e, front[k])
    {
      TicketAt(front, j - 1);
      assert a[j] == a[..][j] && a[j - 1] == a[..][j - 1];
      if !Before(h, a[j], a[j - 1]) {
        break;
      }
      SinkOne(front, e, rest, j);
      a[j], a[j - 1] := a[j - 1], a[j];
      j := j - 1;
    }
    if j > 0 {
      TicketAt(front, j - 1);
    }
    InsertAt(h, front, e, j);
  }

  lemma TicketAt(s: seq<Entry>, k: nat)
    requires AllTickets(s) && k < |s|
    ensures HasTicket(s[k])
  {
    assert s[k] in s;
  }

  /** The first i entries have been sorted into front; rest are those to come. */
  ghost predicate SortedSoFar(h: Hashes, was: seq<Entry>, front: seq<Entry>, rest: seq<Entry>, i: nat) {
    && i <= |was| && AllTickets(was) && rest == was[i..]
    && AllTickets(was[..i]) && front == Sort(h, was[..i]) && |front| == i
  }

  lemma SortStarts(h: Hashes, was: seq<Entry>)
    requires AllTickets(was)
    ensures SortedSoFar(h, was, [], was, 0)
  {}

  lemma SortPass(h: Hashes, was: seq<Entry>, front: seq<Entry>, rest: seq<Entry>, i: nat)
    requires SortedSoFar(h, was, front, rest, i) && i < |was|
    ensures rest != [] && rest == [rest[0]] + rest[1..] && |front| == i
    ensures AllTickets(front) && HasTicket(rest[0])
    ensures SortedSoFar(h, was, Insert(h, front, rest[0]), rest[1..], i + 1)
  {
    hide Insert;
    assert rest[0] == was[i] && rest[1..] == was[i + 1..];
    SortStep(h, was, i);
    SameMembers(Sort(h, was[..i + 1]), was[..i + 1]);
  }

  lemma SortEnds(h: Hashes, was: seq<Entry>, front: seq<Entry>, rest: seq<Entry>)
    requires SortedSoFar(h, was, front, rest, |was|)
    ensures AllTickets(was) && rest == [] && front + rest == Sort(h, was)
  {
    hide Sort, AllTickets;
    assert was[..|was|] == was;
  }

  /** The sort, in place. */
  method SortInPlace(h: Hashes, a: array<Entry>)
    requires AllTickets(a[..])
    modifies a
    ensures AllTickets(old(a[..])) && a[..] == Sort(h, old(a[..]))
  {
    hide Insert, AllTickets, Sort, HasTicket, Before, SortedSoFar;
    ghost var was, front, rest := a[..], [], a[..];
    SortStarts(h, was);
    var i := 0;
    while i < a.Length
      invariant 0 <= i <= a.Length && a[..] == front + rest && SortedSoFar(h, was, front, rest, i)
    {
      SortPass(h, was, front, rest, i);
      assert a[..] == front + [rest[0]] + rest[1..];
      InsertInPlace(h, a, front, rest[0], rest[1..], i);
      front, rest := Insert(h, front, rest[0]), rest[1..];
      i := i + 1;
    }
    SortEnds(h, was, front, rest);
  }

  method NewTipSet(h: Hashes, form: Form, blks: seq<BlockHeader>) returns (r: TipSetResult)
    ensures r == TipSetOf(h, form, blks)
  {
    hide Entries, Sort, Assemble;
    if |blks| == 0 {
      return Refused;
    }
    var entries := Label(h, blks);
    if entries.None? {
      return Refused;
    }
    var bcs := new Entry[|blks|](i requires 0 <= i < |blks| => entries.value[i]);
    assert bcs[..] == entries.value;
    if bcs.Length > 1 {
      if exists e :: e in bcs[..] && !HasTicket(e) {
        return Panics;
      }
      SortInPlace(h, bcs);
    }
    assert bcs[..] == Arrange(h, entries.value);
    r := Collect(form, bcs, blks[0].height);
  }

  /** The CIDs of the blocks; none at all if one of them has none. */
  method Label(h: Hashes, blks: seq<BlockHeader>) returns (r: Option<seq<Entry>>)
    ensures r == Entries(h, blks)
  {
    var bcs: seq<Entry> := [];
    for i := 0 to |blks|
      invariant |bcs| == i
      invariant forall k :: 0 <= k < i ==>
        h.headerCid(blks[k]).Some? && bcs[k] == Entry(blks[k], h.headerCid(blks[k]).value)
    {
      var c := h.headerCid(blks[i]);
      if c.None? {
        assert blks[i] in blks;
        return None;
      }
      bcs := bcs + [Entry(blks[i], c.value)];
    }
    assert Entries(h, blks).Some?;
    assert Entries(h, blks).value == bcs;
    return Some(bcs);
  }

  /** The second half of NewTipSet: check each later block against the first, and append. */
  method Collect(form: Form, bcs: array<Entry>, height: int64) returns (r: TipSetResult)
    requires bcs.Length > 0
    ensures r == Assemble(form, bcs[..], height)
  {
    hide Map, Headers, Cids, Agree, Assemble;
    ghost var s := bcs[..];
    ghost var listed := [s[0]];
    var cids, blocks := [bcs[0].cid], [bcs[0].bh];
    ListedOne(s[0]);
    AgreesWithItself(s[0].bh);
    for i := 0 to bcs.Length - 1
      invariant listed == if form.Written? then [s[0]] + s[..i] else s[..i + 1]
      invariant cids == Cids(listed) && blocks == Headers(listed)
      invariant forall k :: 0 <= k <= i ==> Agree(s[0].bh, s[k].bh)
    {
      if !Agree(bcs[0].bh, bcs[i + 1].bh) {
        AssembleRefuses(form, s, i + 1, height);
        return Refused;
      }
      var k := if form.Written? then i else i + 1;
      ListedMore(listed, s[k]);
      cids := cids + [bcs[k].cid];
      blocks := blocks + [bcs[k].bh];
      listed := listed + [s[k]];
      assert s[..i] + [s[i]] == s[..i + 1];
    }
    assert listed == Listed(form, s);
    AssembleMakes(form, s, height);
    r := Made(TipSet(cids, blocks, height));
  }

  lemma AgreesWithItself(b: BlockHeader)
    ensures Agree(b, b)
  {}

  lemma AssembleRefuses(form: Form, s: seq<Entry>, i: nat, height: int64)
    requires i < |s| && !Agree(s[0].bh, s[i].bh)
    ensures Assemble(form, s, height) == Refused
  {
    hide Agree;
    assert s[i] in s;
  }

  lemma AssembleMakes(form: Form, s: seq<Entry>, height: int64)
    requires s != [] && forall k :: 0 <= k < |s| ==> Agree(s[0].bh, s[k].bh)
    ensures Assemble(form, s, height) == Made(TipSet(Cids(Listed(form, s)), Headers(Listed(form, s)), height))
  {
    hide Agree, Cids, Headers, Listed;
  }

  lemma ListedOne(e: Entry)
    ensures Cids([e]) == [e.cid] && Headers([e]) == [e.bh]
  {}

  lemma ListedMore(s: seq<Entry>, e: Entry)
    ensures Cids(s + [e]) == Cids(s) + [e.cid] && Headers(s + [e]) == Headers(s) + [e.bh]
  {
    assert (s + [e])[..|s|] == s;
  }

  // ----- comparing CID lists -----

  /** What comparing two CID lists decides. */
  predicate CoversAll(a: seq<Cid>, b: seq<Cid>) {
    |a| == |b| && forall c :: c in b ==> c in a
  }

  method CidArrsEqual(a: seq<Cid>, b: seq<Cid>) returns (equal: bool)
    ensures equal == CoversAll(a, b)
  {
    if |a| != |b| {
      return false;
    }
    var s: map<Cid, bool> := map[];
    for i := 0 to |a|
      invariant forall c :: c in s <==> c in a[..i]
    {
      s := s[a[i] := true];
    }
    assert a[..|a|] == a;
    for i := 0 to |b|
      invariant forall c :: c in b[..i] ==> c in a
    {
      if b[i] !in s {
        assert b[i] in b;
        return false;
      }
    }
    assert b[..|b|] == b;
    return true;
  }

  /**
   * When the second list has no repeats the comparison says exactly that one is a rearrangement of
   * the other.
   */
  lemma ComparisonIsPermutation(a: seq<Cid>, b: seq<Cid>)
    requires Distinct(b)
    ensures CoversAll(a, b) <==> multiset(a) == multiset(b)
  {
    if CoversAll(a, b) {
      Pigeonhole(a, b);
    }
    if multiset(a) == multiset(b) {
      SameMembers(a, b);
    }
  }

  /** So a list is compared for identity, whatever it is compared with, exactly when it has no repeats. */
  lemma ComparisonIsIdentityIff(b: seq<Cid>)
    ensures (forall a: seq<Cid> :: CoversAll(a, b) ==> multiset(a) == multiset(b)) <==> Distinct(b)
  {
    if Distinct(b) {
      forall a: seq<Cid> | CoversAll(a, b)
        ensures multiset(a) == multiset(b)
      {
        ComparisonIsPermutation(a, b);
      }
    } else {
      var i, j :| 0 <= i < j < |b| && b[i] == b[j];
      var x := FreshCid(b);
      var a := b[j := x];
      forall c | c in b
        ensures c in a
      {
        var k := IndexOf(b, c);
        assert a[if k == j then i else k] == c;
      }
      assert CoversAll(a, b);
      assert a[j] == x && x in multiset(a) && x !in multiset(b);
    }
  }

  /** A CID longer than any in the list. */
  lemma {:induction false} FreshCid(b: seq<Cid>) returns (x: Cid)
    ensures x !in b && forall c :: c in b ==> |c.bytes| < |x.bytes|
  {
    if b == [] {
      return Cid([]);
    }
    var y := FreshCid(b[1..]);
    x := Cid(y.bytes + b[0].bytes + [0]);
    forall c | c in b
      ensures |c.bytes| < |x.bytes|
    {
      assert c == b[0] || c in b[1..];
    }
  }

  /** With repeats it is not symmetric: a repeated CID is covered by a pair that covers more. */
  lemma ComparisonIsNotSymmetric(x: Cid, y: Cid)
    requires x != y
    ensures CoversAll([x, y], [x, x]) && !CoversAll([x, x], [x, y])
  {
    assert y in [x, y];
  }

  predicate ChildOf(ts: TipSet, parent: TipSet)
    requires ts.blocks != []
  {
    CoversAll(ts.blocks[0].parents, parent.cids) && ts.height > parent.height
  }

  method IsChildOf(ts: TipSet, parent: TipSet) returns (child: bool)
    requires ts.blocks != []
    ensures child == ChildOf(ts, parent)
  {
    var linked := CidArrsEqual(ts.blocks[0].parents, parent.cids);
    child := linked && ts.height > parent.height;
  }
}
