/** Collecting the messages of a block from deliveries that come in any order. */
module Fetch {
  import opened Common
  import opened ChainTypes

  // ----- the index of expected CIDs -----

  datatype Prefix = Prefix(version: nat, codec: nat, mhType: nat, mhLength: nat)

  /** How CIDs show their prefix, and the registered numbers the message prefix is made of. */
  datatype Expected = Expected(prefixOf: Cid -> Prefix, dagCbor: nat, blake2bMin: nat) {
    /** MessageCidPrefix: version 1, DagCBOR, blake2b-256. */
    function MessagePrefix(): Prefix {
      Prefix(1, dagCbor, blake2bMin + 31, 32)
    }
  }

  ghost predicate Indexable(x: Expected, cids: seq<Cid>) {
    && (forall i :: 0 <= i < |cids| ==> x.prefixOf(cids[i]) == x.MessagePrefix())
    && Distinct(cids)
  }

  /** In numbers: version 1, a hash 31 places after the first of the blake2b family, 32 bytes, and no repeats. */
  lemma IndexableIff(x: Expected, cids: seq<Cid>)
    ensures Indexable(x, cids) <==>
      && (forall i :: 0 <= i < |cids| ==> x.prefixOf(cids[i]) == Prefix(1, x.dagCbor, x.blake2bMin + 31, 32))
      && forall i, j :: 0 <= i < j < |cids| ==> cids[i] != cids[j]
  {}

  /** A map that finds each of the first n CIDs. */
  ghost predicate Indexes(index: map<Cid, nat>, cids: seq<Cid>, n: nat)
    requires n <= |cids|
  {
    && index.Keys == Elements(cids[..n])
    && forall c :: c in index ==> index[c] < n && cids[index[c]] == c
  }

  class CidIndex {
    const cids: seq<Cid>
    const index: map<Cid, nat>

    constructor (cids: seq<Cid>, index: map<Cid, nat>)
      requires Indexes(index, cids, |cids|) && Distinct(cids)
      ensures this.cids == cids && this.index == index && Valid()
    {
      this.cids := cids;
      this.index := index;
    }

    ghost predicate Valid() {
      Indexes(index, cids, |cids|) && Distinct(cids)
    }

    /** Looks up a CID: the two-sided inverse of the list. */
    method Index(c: Cid) returns (i: Option<nat>)
      requires Valid()
      ensures i.Some? <==> c in cids
      ensures i.Some? ==> i.value < |cids| && cids[i.value] == c
      ensures forall k :: 0 <= k < |cids| && cids[k] == c ==> i == Some(k)
    {
      assert cids[..|cids|] == cids;
      i := if c in index then Some(index[c]) else None;
    }
  }

  method NewCidIndex(x: Expected, cids: seq<Cid>) returns (r: Option<CidIndex>)
    ensures r.Some? <==> Indexable(x, cids)
    ensures r.Some? ==> r.value.Valid() && r.value.cids == cids
  {
    var index: map<Cid, nat> := map[];
    for i := 0 to |cids|
      invariant Indexes(index, cids, i)
      invariant forall k :: 0 <= k < i ==> x.prefixOf(cids[k]) == x.MessagePrefix()
    {
      if x.prefixOf(cids[i]) != x.MessagePrefix() {
        return None;
      }
      index := index[cids[i] := i];
      assert cids[..i + 1] == cids[..i] + [cids[i]];
    }
    assert cids[..|cids|] == cids;
    // Comparing sizes is what finds a repeated CID.
    ElementsCount(cids);
    assert |index| == |index.Keys|;
    if |cids| != |index| {
      return None;
    }
    var ci := new CidIndex(cids, index);
    return Some(ci);
  }

  // ----- collecting -----

  /** A block that arrived: its CID and its bytes. */
  datatype Delivery = Delivery(cid: Cid, data: Bytes)

  /** The first delivery of a CID; later ones are skipped. */
  function FirstOf(ds: seq<Delivery>, c: Cid): (d: Option<Bytes>)
    ensures d.None? <==> forall k :: 0 <= k < |ds| ==> ds[k].cid != c
  {
    if ds == [] then None
    else
      match FirstOf(ds[..|ds| - 1], c)
      case Some(d) => Some(d)
      case None => if ds[|ds| - 1].cid == c then Some(ds[|ds| - 1].data) else None
  }

  /** Whether each expected CID that arrived can be decoded, from its first delivery. */
  ghost predicate AllDecode<M(!new)>(decode: Bytes -> Option<M>, cids: seq<Cid>, ds: seq<Delivery>) {
    forall i :: 0 <= i < |cids| ==> FirstOf(ds, cids[i]).Some? ==> decode(FirstOf(ds, cids[i]).value).Some?
  }

  /** What belongs in the slot of a CID: its message, or nil when it did not arrive. */
  function Slot<M>(decode: Bytes -> Option<M>, ds: seq<Delivery>, c: Cid): Option<M> {
    match FirstOf(ds, c)
    case None => None
    case Some(data) => decode(data)
  }

  ghost predicate Collected<M(!new)>(
      decode: Bytes -> Option<M>, cids: seq<Cid>, ds: seq<Delivery>, slots: seq<Option<M>>)
  {
    |slots| == |cids| && forall i :: 0 <= i < |cids| ==> slots[i] == Slot(decode, ds, cids[i])
  }

  /**
   * fetchMessages and fetchSignedMessages, which differ in what they decode. The deliveries may
   * repeat, come in any order and contain blocks nobody asked for.
   */
  method FetchMessages<M(!new)>(decode: Bytes -> Option<M>, ci: CidIndex, ds: seq<Delivery>)
    returns (r: Option<seq<Option<M>>>)
    requires ci.Valid()
    ensures r.Some? <==> AllDecode(decode, ci.cids, ds)
    ensures r.Some? ==> Collected(decode, ci.cids, ds, r.value)
  {
    var n := |ci.cids|;
    var slots := new Option<M>[n](_ => None);
    for k := 0 to |ds|
      invariant AllDecode(decode, ci.cids, ds[..k])
      invariant forall i :: 0 <= i < n ==> slots[i] == Slot(decode, ds[..k], ci.cids[i])
    {
      ghost var before, after := ds[..k], ds[..k + 1];
      assert after[..k] == before;
      var i := ci.Index(ds[k].cid);
      if i.None? {
        assert forall j :: 0 <= j < n ==> FirstOf(after, ci.cids[j]) == FirstOf(before, ci.cids[j]);
        continue;
      }
      if slots[i.value].Some? {
        assert FirstOf(before, ds[k].cid).Some?;
        assert forall j :: 0 <= j < n ==> FirstOf(after, ci.cids[j]) == FirstOf(before, ci.cids[j]);
        continue;
      }
      assert FirstOf(before, ds[k].cid).None?;
      var msg := decode(ds[k].data);
      if msg.None? {
        assert FirstOf(after, ci.cids[i.value]) == Some(ds[k].data);
        FirstStays(ds, k + 1, ci.cids[i.value]);
        return None;
      }
      slots[i.value] := msg;
      assert forall j :: 0 <= j < n && j != i.value ==> FirstOf(after, ci.cids[j]) == FirstOf(before, ci.cids[j]);
    }
    assert ds[..|ds|] == ds;
    return Some(slots[..]);
  }

  /** fetchFullBlock: both kinds of messages of one block. */
  method FetchFullBlock(
      x: Expected, header: BlockHeader,
      decode: Bytes -> Option<Message>, blsCids: seq<Cid>, bls: seq<Delivery>,
      decodeSigned: Bytes -> Option<SignedMessage>, secpkCids: seq<Cid>, secpk: seq<Delivery>)
    returns (r: Option<FullBlock>)
    ensures r.Some? <==>
      && Indexable(x, blsCids) && AllDecode(decode, blsCids, bls)
      && Indexable(x, secpkCids) && AllDecode(decodeSigned, secpkCids, secpk)
    ensures r.Some? ==>
      && r.value.header == header
      && Collected(decode, blsCids, bls, r.value.blsMessages)
      && Collected(decodeSigned, secpkCids, secpk, r.value.secpkMessages)
  {
    hide Indexable, AllDecode, Collected;
    var bIndex := NewCidIndex(x, blsCids);
    if bIndex.None? {
      return None;
    }
    var bmsgs := FetchMessages(decode, bIndex.value, bls);
    if bmsgs.None? {
      return None;
    }
    var sIndex := NewCidIndex(x, secpkCids);
    if sIndex.None? {
      return None;
    }
    var smsgs := FetchMessages(decodeSigned, sIndex.value, secpk);
    if smsgs.None? {
      return None;
    }
    return Some(FullBlock(header, bmsgs.value, smsgs.value));
  }

  lemma {:induction false} FirstStays(ds: seq<Delivery>, k: nat, c: Cid)
    requires k <= |ds| && FirstOf(ds[..k], c).Some?
    ensures FirstOf(ds, c) == FirstOf(ds[..k], c)
    decreases |ds|
  {
    if k < |ds| {
      assert ds[..|ds| - 1][..k] == ds[..k];
      FirstStays(ds[..|ds| - 1], k, c);
    } else {
      assert ds[..k] == ds;
    }
  }

  // ----- what arrives is what counts -----

  /** A CID names its bytes: two deliveries of one CID carry the same data. */
  ghost predicate Faithful(ds: seq<Delivery>) {
    forall i, j :: 0 <= i < |ds| && 0 <= j < |ds| && ds[i].cid == ds[j].cid ==> ds[i].data == ds[j].data
  }

  lemma {:induction false} FirstIsAny(ds: seq<Delivery>, k: nat)
    requires k < |ds| && Faithful(ds)
    ensures FirstOf(ds, ds[k].cid) == Some(ds[k].data)
  {
    var j := FirstIndex(ds, ds[k].cid, k);
  }

  lemma {:induction false} FirstIndex(ds: seq<Delivery>, c: Cid, k: nat) returns (j: nat)
    requires k < |ds| && ds[k].cid == c
    ensures j < |ds| && ds[j].cid == c && FirstOf(ds, c) == Some(ds[j].data)
    decreases |ds|
  {
    var n := |ds| - 1;
    if exists i :: 0 <= i < n && ds[i].cid == c {
      var i :| 0 <= i < n && ds[i].cid == c;
      assert ds[..n][i].cid == c;
      j := FirstIndex(ds[..n], c, i);
    } else {
      j := n;
    }
  }

  /** Of several deliveries of one CID, whatever they carry, the first is the one that counts. */
  lemma {:induction false} FirstCounts(ds: seq<Delivery>, k: nat)
    requires k < |ds| && forall i :: 0 <= i < k ==> ds[i].cid != ds[k].cid
    ensures FirstOf(ds, ds[k].cid) == Some(ds[k].data)
    decreases |ds|
  {
    var n := |ds| - 1;
    if k < n {
      FirstCounts(ds[..n], k);
    }
  }

  /** A fetch fails exactly on a first delivery of an expected CID that does not decode. */
  lemma FailsIff<M(!new)>(decode: Bytes -> Option<M>, cids: seq<Cid>, ds: seq<Delivery>)
    ensures AllDecode(decode, cids, ds) <==>
      forall k :: 0 <= k < |ds| && ds[k].cid in cids && (forall i :: 0 <= i < k ==> ds[i].cid != ds[k].cid) ==>
        decode(ds[k].data).Some?
  {
    if AllDecode(decode, cids, ds) {
      forall k | 0 <= k < |ds| && ds[k].cid in cids && (forall i :: 0 <= i < k ==> ds[i].cid != ds[k].cid)
        ensures decode(ds[k].data).Some?
      {
        FirstCounts(ds, k);
        var i := IndexOf(cids, ds[k].cid);
      }
    } else {
      var i :| 0 <= i < |cids| && FirstOf(ds, cids[i]).Some? && decode(FirstOf(ds, cids[i]).value).None?;
      var k := FirstPlace(ds, cids[i]);
      FirstCounts(ds, k);
    }
  }

  lemma {:induction false} FirstPlace(ds: seq<Delivery>, c: Cid) returns (k: nat)
    requires FirstOf(ds, c).Some?
    ensures k < |ds| && ds[k].cid == c && forall i :: 0 <= i < k ==> ds[i].cid != c
  {
    var n := |ds| - 1;
    if FirstOf(ds[..n], c).Some? {
      k := FirstPlace(ds[..n], c);
    } else {
      k := n;
    }
  }

  lemma FirstAmongMore(ds: seq<Delivery>, es: seq<Delivery>, c: Cid)
    requires Faithful(ds) && Faithful(es) && Elements(ds) <= Elements(es) && FirstOf(ds, c).Some?
    ensures FirstOf(es, c) == FirstOf(ds, c)
  {
    var k :| 0 <= k < |ds| && ds[k].cid == c;
    FirstIsAny(ds, k);
    assert ds[k] in Elements(ds);
    var m := IndexOf(es, ds[k]);
    FirstIsAny(es, m);
  }

  lemma SameFirst(ds: seq<Delivery>, es: seq<Delivery>, c: Cid)
    requires Faithful(ds) && Faithful(es) && Elements(ds) == Elements(es)
    ensures FirstOf(ds, c) == FirstOf(es, c)
  {
    if FirstOf(ds, c).Some? {
      FirstAmongMore(ds, es, c);
    }
    if FirstOf(es, c).Some? {
      FirstAmongMore(es, ds, c);
    }
  }

  /**
   * The result depends only on the set of blocks that arrived: not on their order, not on how often
   * each came, and the failure to decode does not either.
   */
  lemma OrderDoesNotMatter<M(!new)>(
      decode: Bytes -> Option<M>, cids: seq<Cid>, ds: seq<Delivery>, es: seq<Delivery>)
    requires Faithful(ds) && Faithful(es) && Elements(ds) == Elements(es)
    ensures AllDecode(decode, cids, ds) <==> AllDecode(decode, cids, es)
    ensures forall slots, slots' ::
              Collected(decode, cids, ds, slots) && Collected(decode, cids, es, slots') ==> slots == slots'
  {
    forall c
      ensures FirstOf(ds, c) == FirstOf(es, c)
    {
      SameFirst(ds, es, c);
    }
  }

  /** Nothing is missing exactly when every CID arrived. */
  lemma CompleteIff<M(!new)>(decode: Bytes -> Option<M>, cids: seq<Cid>, ds: seq<Delivery>, slots: seq<Option<M>>)
    requires AllDecode(decode, cids, ds) && Collected(decode, cids, ds, slots)
    ensures NoNil(slots) <==> forall c :: c in cids ==> exists d :: d in ds && d.cid == c
  {
    if NoNil(slots) {
      forall c | c in cids
        ensures exists d :: d in ds && d.cid == c
      {
        var i := IndexOf(cids, c);
        assert slots[i] == Slot(decode, ds, c);
        var k :| 0 <= k < |ds| && ds[k].cid == c;
        assert ds[k] in ds;
      }
    } else {
      var i :| 0 <= i < |slots| && slots[i].None?;
      assert slots[i] == Slot(decode, ds, cids[i]);
      assert cids[i] in cids;
    }
  }

  /** Slot i holds the message of the block that CID i names, whichever of its deliveries one looks at. */
  lemma SlotHoldsItsMessage<M(!new)>(
      decode: Bytes -> Option<M>, cids: seq<Cid>, ds: seq<Delivery>, slots: seq<Option<M>>, i: nat,
      k: nat)
    requires Faithful(ds) && Collected(decode, cids, ds, slots) && i < |cids| && k < |ds| && ds[k].cid == cids[i]
    ensures slots[i] == decode(ds[k].data)
  {
    FirstIsAny(ds, k);
  }
}
