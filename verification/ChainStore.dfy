/** The content-addressed store of block headers, and tipsets loaded back from it. */
module ChainStore {
  import opened Common
  import opened ChainTypes
  import opened Cbor
  import opened CborChain
  import opened CborPadding
  import opened TipSets
  import opened TipSetBuild

  /** The hash that turns bytes into a CID, next to the codecs and the ticket digest. */
  datatype Scheme = Scheme(base: Base, sum: Bytes -> Cid, digest: Bytes -> Bytes) {

    function CidOf(b: BlockHeader): Option<Cid> {
      match HeaderCodec(base).enc(b)
      case None => None
      case Some(e) => Some(sum(e))
    }

    function Hashes(): Hashes {
      TipSets.Hashes.Hashes(digest, (b: BlockHeader) => CidOf(b))
    }

    /** Hashes do not collide, and the codecs of other packages keep the codec laws. */
    ghost predicate Sound() {
      BaseLawful(base) && NoCollisions() && (forall p, q :: digest(p) == digest(q) ==> p == q)
    }

    ghost predicate NoCollisions() {
      forall a, b :: sum(a) == sum(b) ==> a == b
    }
  }

  // ----- what the store holds -----

  /** The blocks after encoding and putting the headers, in order. */
  function PutAll(s: Scheme, blocks: map<Cid, Bytes>, bhs: seq<BlockHeader>): map<Cid, Bytes>
    requires forall b :: b in bhs ==> s.CidOf(b).Some?
  {
    if bhs == [] then blocks
    else
      var last := bhs[|bhs| - 1];
      PutAll(s, blocks, bhs[..|bhs| - 1])[s.CidOf(last).value := HeaderCodec(s.base).enc(last).value]
  }

  /** The header under a CID; what follows it in the block is not looked at. */
  function Lookup(s: Scheme, blocks: map<Cid, Bytes>, c: Cid): Option<BlockHeader> {
    if c !in blocks then None
    else
      match HeaderCodec(s.base).dec(blocks[c])
      case None => None
      case Some((b, _)) => Some(b)
  }

  function Finder(s: Scheme, blocks: map<Cid, Bytes>): Cid -> Option<BlockHeader> {
    (c: Cid) => Lookup(s, blocks, c)
  }

  function Load(s: Scheme, form: Form, blocks: map<Cid, Bytes>, cids: seq<Cid>): TipSetResult {
    match Gather(Finder(s, blocks), cids)
    case None => Refused
    case Some(bhs) => TipSetOf(s.Hashes(), form, bhs)
  }

  class Store {
    const scheme: Scheme
    var blocks: map<Cid, Bytes>

    constructor (scheme: Scheme)
      ensures this.scheme == scheme && blocks == map[]
    {
      this.scheme := scheme;
      this.blocks := map[];
    }

    /** Encodes everything before it puts anything. */
    method PutManyBlockHeaders(bhs: seq<BlockHeader>) returns (ok: bool)
      modifies this
      ensures ok <==> forall b :: b in bhs ==> scheme.CidOf(b).Some?
      ensures blocks == if ok then PutAll(scheme, old(blocks), bhs) else old(blocks)
    {
      hide HeaderCodec;
      var bs: seq<(Cid, Bytes)> := [];
      for i := 0 to |bhs|
        invariant |bs| == i && blocks == old(blocks)
        invariant forall k :: 0 <= k < i ==> scheme.CidOf(bhs[k]) == Some(bs[k].0)
        invariant forall k :: 0 <= k < i ==> HeaderCodec(scheme.base).enc(bhs[k]) == Some(bs[k].1)
      {
        var e := HeaderCodec(scheme.base).enc(bhs[i]);
        if e.None? {
          assert bhs[i] in bhs;
          return false;
        }
        bs := bs + [(scheme.sum(e.value), e.value)];
      }
      for i := 0 to |bs|
        invariant forall b :: b in bhs[..i] ==> b in bhs
        invariant blocks == PutAll(scheme, old(blocks), bhs[..i])
      {
        assert bhs[..i + 1][..i] == bhs[..i];
        blocks := blocks[bs[i].0 := bs[i].1];
      }
      assert bhs[..|bs|] == bhs;
      return true;
    }

    method GetBlockHeader(c: Cid) returns (b: Option<BlockHeader>)
      ensures b == Lookup(scheme, blocks, c)
    {
      if c !in blocks {
        return None;
      }
      match HeaderCodec(scheme.base).dec(blocks[c]) {
        case None => b := None;
        case Some((bh, _)) => b := Some(bh);
      }
    }

    method LoadHeaders(cids: seq<Cid>) returns (r: Option<seq<BlockHeader>>)
      ensures r == Gather(Finder(scheme, blocks), cids)
    {
      hide Gather, Lookup;
      var bhs: seq<BlockHeader> := [];
      ghost var find := Finder(scheme, blocks);
      GatherNone(find, cids);
      for i := 0 to |cids|
        invariant Gather(find, cids[..i]) == Some(bhs)
      {
        GatherStep(find, cids, i);
        var bh := GetBlockHeader(cids[i]);
        if bh.None? {
          return None;
        }
        bhs := bhs + [bh.value];
      }
      assert cids[..|cids|] == cids;
      return Some(bhs);
    }

    method LoadTipSet(form: Form, cids: seq<Cid>) returns (r: TipSetResult)
      ensures r == Load(scheme, form, blocks, cids)
    {
      hide Gather, TipSetOf;
      var bhs := LoadHeaders(cids);
      if bhs.None? {
        return Refused;
      }
      r := NewTipSet(scheme.Hashes(), form, bhs.value);
    }
  }

  // ----- what is put can be loaded -----

  /** A header is put under its CID and found there, whatever else is put before or after. */
  lemma {:induction false} PutIsFound(s: Scheme, blocks: map<Cid, Bytes>, bhs: seq<BlockHeader>, k: nat)
    requires s.NoCollisions() && k < |bhs| && forall b :: b in bhs ==> s.CidOf(b).Some?
    ensures bhs[k] in bhs
    ensures s.CidOf(bhs[k]).value in PutAll(s, blocks, bhs)
    ensures PutAll(s, blocks, bhs)[s.CidOf(bhs[k]).value] == HeaderCodec(s.base).enc(bhs[k]).value
    decreases |bhs|
  {
    hide HeaderCodec, BaseLawful;
    var n := |bhs| - 1;
    if k < n {
      PutIsFound(s, blocks, bhs[..n], k);
    }
  }

  /** A readable header is decoded from what it is encoded as; from what any other is, nothing is. */
  lemma EncodedIsDecoded(s: Scheme, b: BlockHeader)
    requires BaseLawful(s.base) && s.CidOf(b).Some?
    ensures HeaderCodec(s.base).dec(HeaderCodec(s.base).enc(b).value)
         == if ReadableHeader(s.base, b) then Some((b, [])) else None
  {
    hide HeaderCodec, BaseLawful, ReadableHeader;
    HeaderLawful(s.base);
    HeaderDomain(s.base, b);
    var e := HeaderCodec(s.base).enc(b).value;
    assert e + [] == e;
  }

  /** The CID of a header, for headers that have one. */
  function Label(s: Scheme): BlockHeader -> Cid {
    (b: BlockHeader) => if s.CidOf(b).Some? then s.CidOf(b).value else Cid([])
  }

  /** All the headers are ones that can be read back. */
  ghost predicate AllReadable(s: Scheme, bhs: seq<BlockHeader>) {
    forall b :: b in bhs ==> ReadableHeader(s.base, b)
  }

  lemma SchemeDistinguishes(s: Scheme, bhs: seq<BlockHeader>)
    requires s.Sound() && AllReadable(s, bhs)
    ensures DigestsDistinct(s.Hashes()) && CidsDetermineHeaders(s.Hashes(), bhs)
  {
    hide HeaderCodec, BaseLawful, ReadableHeader;
    var h := s.Hashes();
    forall b, c | b in bhs && c in bhs && h.headerCid(b).Some? && h.headerCid(b) == h.headerCid(c)
      ensures b == c
    {
      EncodedIsDecoded(s, b);
      EncodedIsDecoded(s, c);
    }
  }

  /** The headers are stored, each under its own CID. */
  ghost predicate Holds(s: Scheme, stored: map<Cid, Bytes>, bhs: seq<BlockHeader>) {
    forall k :: 0 <= k < |bhs| ==>
      && s.CidOf(bhs[k]).Some? && s.CidOf(bhs[k]).value in stored
      && HeaderCodec(s.base).enc(bhs[k]) == Some(stored[s.CidOf(bhs[k]).value])
  }

  /**
   * Loading any arrangement of the CIDs of stored headers gives the tipset those headers make, and it
   * gives it by value: hashing, reading and sorting again change nothing. Only a header that cannot be
   * read back makes loading fail.
   */
  lemma StoredIsLoaded(s: Scheme, form: Form, stored: map<Cid, Bytes>, bhs: seq<BlockHeader>, cids: seq<Cid>)
    requires s.Sound() && Holds(s, stored, bhs) && multiset(cids) == multiset(Map(Label(s), bhs))
    ensures Load(s, form, stored, cids) == if AllReadable(s, bhs) then TipSetOf(s.Hashes(), form, bhs) else Refused
  {
    hide HeaderCodec, BaseLawful, ReadableHeader, TipSetOf, Gather;
    var find := Finder(s, stored);
    SameMembers(cids, Map(Label(s), bhs));
    forall k | 0 <= k < |bhs|
      ensures find(Label(s)(bhs[k])) == if ReadableHeader(s.base, bhs[k]) then Some(bhs[k]) else None
    {
      EncodedIsDecoded(s, bhs[k]);
    }
    if AllReadable(s, bhs) {
      AllAreLoaded(s, form, find, bhs, cids);
    } else {
      var k :| 0 <= k < |bhs| && !ReadableHeader(s.base, bhs[k]);
      assert Map(Label(s), bhs)[k] in cids;
      var i := IndexOf(cids, Map(Label(s), bhs)[k]);
      assert find(cids[i]).None?;
    }
  }

  lemma PutIsHeld(s: Scheme, blocks: map<Cid, Bytes>, bhs: seq<BlockHeader>)
    requires s.NoCollisions() && forall b :: b in bhs ==> s.CidOf(b).Some?
    ensures Holds(s, PutAll(s, blocks, bhs), bhs)
  {
    hide HeaderCodec, PutAll;
    forall k | 0 <= k < |bhs|
      ensures s.CidOf(bhs[k]).Some? && s.CidOf(bhs[k]).value in PutAll(s, blocks, bhs)
      ensures HeaderCodec(s.base).enc(bhs[k]) == Some(PutAll(s, blocks, bhs)[s.CidOf(bhs[k]).value])
    {
      PutIsFound(s, blocks, bhs, k);
    }
  }

  /** Headers put can be loaded, in any arrangement: printing, hashing, reading and sorting change nothing. */
  lemma StoreRoundTrip(s: Scheme, form: Form, blocks: map<Cid, Bytes>, bhs: seq<BlockHeader>, cids: seq<Cid>)
    requires s.Sound() && (forall b :: b in bhs ==> s.CidOf(b).Some?)
    requires multiset(cids) == multiset(Map(Label(s), bhs))
    ensures Load(s, form, PutAll(s, blocks, bhs), cids)
         == if AllReadable(s, bhs) then TipSetOf(s.Hashes(), form, bhs) else Refused
  {
    hide HeaderCodec, BaseLawful, AllReadable, PutAll, Load, Holds;
    PutIsHeld(s, blocks, bhs);
    StoredIsLoaded(s, form, PutAll(s, blocks, bhs), bhs, cids);
  }

  /** Every block is stored under its own hash. */
  ghost predicate ContentAddressed(s: Scheme, blocks: map<Cid, Bytes>) {
    forall c :: c in blocks ==> s.sum(blocks[c]) == c
  }

  /** Putting more takes nothing away and changes nothing. */
  lemma {:induction false} PutKeeps(s: Scheme, blocks: map<Cid, Bytes>, bhs: seq<BlockHeader>)
    requires s.NoCollisions() && ContentAddressed(s, blocks) && forall b :: b in bhs ==> s.CidOf(b).Some?
    ensures ContentAddressed(s, PutAll(s, blocks, bhs))
    ensures forall c :: c in blocks ==> c in PutAll(s, blocks, bhs) && PutAll(s, blocks, bhs)[c] == blocks[c]
    decreases |bhs|
  {
    hide HeaderCodec;
    if bhs != [] {
      PutKeeps(s, blocks, bhs[..|bhs| - 1]);
    }
  }

  /** What was put first can still be loaded after something else is put. */
  lemma EarlierPutIsLoaded(
      s: Scheme, form: Form, blocks: map<Cid, Bytes>, first: seq<BlockHeader>, second: seq<BlockHeader>, cids: seq<Cid>)
    requires s.Sound() && ContentAddressed(s, blocks)
    requires (forall b :: b in first ==> s.CidOf(b).Some?) && forall b :: b in second ==> s.CidOf(b).Some?
    requires multiset(cids) == multiset(Map(Label(s), first))
    ensures Load(s, form, PutAll(s, PutAll(s, blocks, first), second), cids)
         == if AllReadable(s, first) then TipSetOf(s.Hashes(), form, first) else Refused
  {
    hide HeaderCodec, BaseLawful, AllReadable, PutAll, Load;
    PutKeeps(s, blocks, first);
    var stored := PutAll(s, blocks, first);
    PutKeeps(s, stored, second);
    PutIsHeld(s, blocks, first);
    StoredIsLoaded(s, form, PutAll(s, stored, second), first, cids);
  }

  /** What follows a header in its block is not looked at. */
  lemma TailIsIgnored(s: Scheme, b: BlockHeader, tail: Bytes, blocks: map<Cid, Bytes>, c: Cid)
    requires BaseLawful(s.base) && ReadableHeader(s.base, b) && HeaderCodec(s.base).enc(b).Some?
    requires c in blocks && blocks[c] == HeaderCodec(s.base).enc(b).value + tail
    ensures Lookup(s, blocks, c) == Some(b)
  {
    hide HeaderCodec, BaseLawful, ReadableHeader;
    HeaderLawful(s.base);
    HeaderDomain(s.base, b);
  }

  lemma AllAreLoaded(
      s: Scheme, form: Form, find: Cid -> Option<BlockHeader>, bhs: seq<BlockHeader>, cids: seq<Cid>)
    requires s.Sound() && AllReadable(s, bhs) && multiset(cids) == multiset(Map(Label(s), bhs))
    requires forall k :: 0 <= k < |bhs| ==> find(Label(s)(bhs[k])) == Some(bhs[k])
    ensures Gather(find, cids).Some?
    ensures TipSetOf(s.Hashes(), form, Gather(find, cids).value) == TipSetOf(s.Hashes(), form, bhs)
  {
    hide HeaderCodec, BaseLawful, ReadableHeader, TipSetOf, Gather, AllReadable, CidsDetermineHeaders;
    SameMembers(cids, Map(Label(s), bhs));
    forall i | 0 <= i < |cids|
      ensures find(cids[i]).Some? && Label(s)(find(cids[i]).value) == cids[i]
    {
      var k := IndexOf(Map(Label(s), bhs), cids[i]);
    }
    var loaded := Gather(find, cids).value;
    assert Map(Label(s), loaded) == cids;
    SameLabelsSameElements(Label(s), find, loaded, bhs);
    SchemeDistinguishes(s, bhs);
    TipSetIgnoresOrder(s.Hashes(), form, bhs, loaded);
  }

  /** A header found under a CID has that CID exactly when the block is what the header is printed as. */
  lemma FoundIsAuthenticIff(s: Scheme, blocks: map<Cid, Bytes>, c: Cid)
    requires s.NoCollisions() && c in blocks && s.sum(blocks[c]) == c && Lookup(s, blocks, c).Some?
    ensures var found := Lookup(s, blocks, c).value;
            s.CidOf(found) == Some(c) <==> HeaderCodec(s.base).enc(found) == Some(blocks[c])
  {
    hide HeaderCodec, BaseLawful;
  }

  /**
   * Where the parts are canonical that is: exactly when nothing follows it in the block. The reader stops
   * at the end of the header and does not look further.
   */
  lemma FoundIsAuthenticIfCanonical(s: Scheme, blocks: map<Cid, Bytes>, c: Cid)
    requires s.Sound() && BaseCanonical(s.base)
    requires c in blocks && s.sum(blocks[c]) == c && Lookup(s, blocks, c).Some?
    ensures s.CidOf(Lookup(s, blocks, c).value) == Some(c)
       <==> HeaderCodec(s.base).dec(blocks[c]).value.1 == []
  {
    hide HeaderCodec, BaseLawful;
    HeaderLawful(s.base);
    var (b, rest) := HeaderCodec(s.base).dec(blocks[c]).value;
    var e := HeaderCodec(s.base).enc(b).value;
    assert blocks[c] == e + rest;
    assert e + [] == e;
    if s.sum(e) == c {
      assert |e| == |blocks[c]|;
    }
  }

  /**
   * Where they are not it fails: a block with a padded base fee is stored under its own hash, read as a
   * header with nothing behind it, and that header has another CID.
   */
  lemma PaddedBlockIsNotAuthentic(s: Scheme, b: BlockHeader, padded: Bytes) returns (block: Bytes)
    requires s.Sound() && 1 <= s.base.maxLength && s.CidOf(b).Some? && ReadableHeader(s.base, b)
    requires Reads(s.base.bigInt, padded, b.parentBaseFee) && s.base.bigInt.enc(b.parentBaseFee) != Some(padded)
    ensures var blocks := map[s.sum(block) := block];
            && HeaderCodec(s.base).dec(block) == Some((b, []))
            && Lookup(s, blocks, s.sum(block)) == Some(b) && s.CidOf(b) != Some(s.sum(block))
  {
    hide HeaderCodec, BaseLawful, Reads, ReadableHeader;
    var response: Bytes;
    block, response := PaddingBreaksCanonicity(s.base, b, padded);
  }
}
