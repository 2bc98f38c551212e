/** The generated marshallers, field by field, each proved to be the codec of its type. */
module CborTuples {
  import opened Common
  import opened ChainTypes
  import opened Cbor
  import opened CborStream
  import opened CborChain
  import opened CborExchange

  // Readers of other packages need do no more than go through their input front to back.

  ghost predicate PartsFromFront(p: Base) {
    SignedPartsFromFront(p) && ReadsFromFront(p.cid) && ReadsFromFront(p.postProof)
  }

  ghost predicate SignedPartsFromFront(p: Base) {
    MessagePartsFromFront(p) && ReadsFromFront(p.signature)
  }

  ghost predicate MessagePartsFromFront(p: Base) {
    ReadsFromFront(p.addr) && ReadsFromFront(p.bigInt)
  }

  lemma LawfulPartsFromFront(p: Base)
    requires BaseLawful(p)
    ensures PartsFromFront(p)
  {
    hide ReadsBack, ReadsFromFront, NeverNull;
  }

  // ----- readers -----

  method UnmarshalTicket(p: Base, r: Reader) returns (t: Option<Ticket>)
    requires r.Valid()
    modifies r
    ensures r.Valid() && r.Consumed(TicketCodec(p).dec(old(r.Rest())), t)
  {
    hide DecArg, DecBlob;
    var ok := r.ReadFieldCount(1);
    if !ok {
      return None;
    }
    var vrfProof := r.ReadBlob(BYTE_STRING, p.byteArrayMaxLen);
    t := if vrfProof.Some? then Some(Ticket(vrfProof.value)) else None;
  }

  method UnmarshalElectionProof(p: Base, r: Reader) returns (e: Option<ElectionProof>)
    requires r.Valid()
    modifies r
    ensures r.Valid() && r.Consumed(ElectionProofCodec(p).dec(old(r.Rest())), e)
  {
    hide DecArg, DecBlob, DecInt64;
    var ok := r.ReadFieldCount(2);
    if !ok {
      return None;
    }
    var winCount := r.ReadInt64();
    if winCount.None? {
      return None;
    }
    var vrfProof := r.ReadBlob(BYTE_STRING, p.byteArrayMaxLen);
    e := if vrfProof.Some? then Some(ElectionProof(winCount.value, vrfProof.value)) else None;
  }

  method UnmarshalBeaconEntry(p: Base, r: Reader) returns (e: Option<BeaconEntry>)
    requires r.Valid()
    modifies r
    ensures r.Valid() && r.Consumed(BeaconEntryCodec(p).dec(old(r.Rest())), e)
  {
    hide DecArg, DecBlob;
    var ok := r.ReadFieldCount(2);
    if !ok {
      return None;
    }
    var round := r.ReadArg(UNSIGNED);
    if round.None? {
      return None;
    }
    var data := r.ReadBlob(BYTE_STRING, p.byteArrayMaxLen);
    e := if data.Some? then Some(BeaconEntry(round.value, data.value)) else None;
  }

  /** The ticket field: nil, or a ticket behind the byte that was given back. */
  method ReadTicketPointer(p: Base, r: Reader) returns (x: Option<Option<Ticket>>)
    requires r.Valid()
    modifies r
    ensures r.Valid() && r.Consumed(DecPointer(TicketCodec(p), old(r.Rest())), x)
  {
    hide TicketCodec;
    var isNull := r.ReadNull();
    if isNull.None? {
      return None;
    }
    if isNull.value {
      return Some(None);
    }
    var read := UnmarshalTicket(p, r);
    x := if read.Some? then Some(Some(read.value)) else None;
  }

  /** The election proof field. */
  method ReadElectionProofPointer(p: Base, r: Reader) returns (x: Option<Option<ElectionProof>>)
    requires r.Valid()
    modifies r
    ensures r.Valid() && r.Consumed(DecPointer(ElectionProofCodec(p), old(r.Rest())), x)
  {
    hide ElectionProofCodec;
    var isNull := r.ReadNull();
    if isNull.None? {
      return None;
    }
    if isNull.value {
      return Some(None);
    }
    var read := UnmarshalElectionProof(p, r);
    x := if read.Some? then Some(Some(read.value)) else None;
  }

  /** The beacon entries, read one by one. */
  method ReadBeaconEntries(p: Base, r: Reader) returns (xs: Option<seq<BeaconEntry>>)
    requires r.Valid()
    modifies r
    ensures r.Valid() && r.Consumed(DecSlice(p.maxLength, BeaconEntryCodec(p), old(r.Rest())), xs)
  {
    hide DecAll, DecSlice, DecCount, Prefixed, BeaconEntryCodec;
    SliceCount(p.maxLength, BeaconEntryCodec(p), r.Rest());
    var n := r.ReadCount(p.maxLength);
    if n.None? {
      return None;
    }
    ghost var all := DecAll(BeaconEntryCodec(p), n.value, r.Rest());
    var read: seq<BeaconEntry> := [];
    PrefixedNone(all);
    for i := 0 to n.value
      invariant r.Valid() && all == Prefixed(read, DecAll(BeaconEntryCodec(p), n.value - i, r.Rest()))
    {
      ReadingNext(BeaconEntryCodec(p), read, n.value - i, r.Rest());
      var x := UnmarshalBeaconEntry(p, r);
      if x.None? {
        return None;
      }
      read := read + [x.value];
    }
    ReadingDone(BeaconEntryCodec(p), read, r.Rest());
    return Some(read);
  }

  method UnmarshalClaim(p: Base, r: Reader) returns (c: Option<Claim>)
    requires r.Valid() && PartsFromFront(p)
    modifies r
    ensures r.Valid() && r.Consumed(ClaimCodec(p).dec(old(r.Rest())), c)
  {
    hide TicketCodec, ElectionProofCodec, BeaconEntryCodec, DecPointer, DecSlice, ReadsFromFront;
    var miner := r.Take(p.addr);
    if miner.None? {
      return None;
    }
    var ticket := ReadTicketPointer(p, r);
    if ticket.None? {
      return None;
    }
    var electionProof := ReadElectionProofPointer(p, r);
    if electionProof.None? {
      return None;
    }
    var beaconEntries := ReadBeaconEntries(p, r);
    c := if beaconEntries.Some?
         then Some((miner.value, (ticket.value, (electionProof.value, beaconEntries.value)))) else None;
  }

  lemma TwoInARow<A, B>(a: Codec<A>, b: Codec<B>, s: Bytes)
    ensures Both(a, b).dec(s) == DecBoth(a, b, s)
  {}

  /** Reading three parts in a row. */
  function DecThree<A, B, C>(a: Codec<A>, b: Codec<B>, c: Codec<C>, s: Bytes): Option<((A, (B, C)), Bytes)> {
    match a.dec(s)
    case None => None
    case Some((x, r)) =>
      match b.dec(r)
      case None => None
      case Some((y, q)) =>
        match c.dec(q)
        case None => None
        case Some((z, rest)) => Some(((x, (y, z)), rest))
  }

  lemma ThreeInARow<A, B, C>(a: Codec<A>, b: Codec<B>, c: Codec<C>, s: Bytes)
    ensures Both(a, Both(b, c)).dec(s) == DecThree(a, b, c, s)
  {}

  method UnmarshalLineage(p: Base, r: Reader) returns (l: Option<Lineage>)
    requires r.Valid() && PartsFromFront(p)
    modifies r
    ensures r.Valid() && r.Consumed(LineageCodec(p).dec(old(r.Rest())), l)
  {
    hide DecInt64, DecSlice, ReadsFromFront;
    var winPoStProof := r.TakeSlice(p.maxLength, p.postProof);
    if winPoStProof.None? {
      return None;
    }
    var parents := r.TakeSlice(p.maxLength, p.cid);
    if parents.None? {
      return None;
    }
    var parentWeight := r.Take(p.bigInt);
    if parentWeight.None? {
      return None;
    }
    var height := r.ReadInt64();
    l := if height.Some? then Some((winPoStProof.value, (parents.value, (parentWeight.value, height.value)))) else None;
  }

  method UnmarshalRoots(p: Base, r: Reader) returns (roots: Option<Roots>)
    requires r.Valid() && PartsFromFront(p)
    modifies r
    ensures r.Valid() && r.Consumed(RootsCodec(p).dec(old(r.Rest())), roots)
  {
    hide DecPointer, ReadsFromFront;
    var parentStateRoot := r.Take(p.cid);
    if parentStateRoot.None? {
      return None;
    }
    var parentMessageReceipts := r.Take(p.cid);
    if parentMessageReceipts.None? {
      return None;
    }
    var messages := r.Take(p.cid);
    if messages.None? {
      return None;
    }
    var blsAggregate := r.TakePointer(p.signature);
    roots := if blsAggregate.Some?
             then Some((parentStateRoot.value, (parentMessageReceipts.value, (messages.value, blsAggregate.value))))
             else None;
  }

  method UnmarshalSeal(p: Base, r: Reader) returns (seal: Option<Seal>)
    requires r.Valid() && PartsFromFront(p)
    modifies r
    ensures r.Valid() && r.Consumed(SealCodec(p).dec(old(r.Rest())), seal)
  {
    hide DecArg, DecPointer, ReadsFromFront;
    var timestamp := r.ReadArg(UNSIGNED);
    if timestamp.None? {
      return None;
    }
    var blockSig := r.TakePointer(p.signature);
    if blockSig.None? {
      return None;
    }
    var forkSignaling := r.ReadArg(UNSIGNED);
    if forkSignaling.None? {
      return None;
    }
    var parentBaseFee := r.Take(p.bigInt);
    seal := if parentBaseFee.Some?
            then Some((timestamp.value, (blockSig.value, (forkSignaling.value, parentBaseFee.value)))) else None;
  }

  method UnmarshalBlockHeader(p: Base, r: Reader) returns (b: Option<BlockHeader>)
    requires r.Valid() && PartsFromFront(p)
    modifies r
    ensures r.Valid() && r.Consumed(HeaderCodec(p).dec(old(r.Rest())), b)
  {
    hide DecArg, ClaimCodec, LineageCodec, RootsCodec, SealCodec, HeaderOf;
    var ok := r.ReadFieldCount(16);
    if !ok {
      return None;
    }
    var claim := UnmarshalClaim(p, r);
    if claim.None? {
      return None;
    }
    var lineage := UnmarshalLineage(p, r);
    if lineage.None? {
      return None;
    }
    var roots := UnmarshalRoots(p, r);
    if roots.None? {
      return None;
    }
    var seal := UnmarshalSeal(p, r);
    b := if seal.Some? then Some(HeaderOf((claim.value, (lineage.value, (roots.value, seal.value))))) else None;
  }

  method UnmarshalEnvelope(p: Base, r: Reader) returns (e: Option<Envelope>)
    requires r.Valid() && MessagePartsFromFront(p)
    modifies r
    ensures r.Valid() && r.Consumed(EnvelopeCodec(p).dec(old(r.Rest())), e)
  {
    hide DecArg, ReadsFromFront;
    var version := r.ReadArg(UNSIGNED);
    if version.None? {
      return None;
    }
    var to := r.Take(p.addr);
    if to.None? {
      return None;
    }
    var from := r.Take(p.addr);
    if from.None? {
      return None;
    }
    var nonce := r.ReadArg(UNSIGNED);
    if nonce.None? {
      return None;
    }
    var value := r.Take(p.bigInt);
    e := if value.Some? then Some((version.value, (to.value, (from.value, (nonce.value, value.value))))) else None;
  }

  method UnmarshalTerms(p: Base, r: Reader) returns (t: Option<Terms>)
    requires r.Valid() && MessagePartsFromFront(p)
    modifies r
    ensures r.Valid() && r.Consumed(TermsCodec(p).dec(old(r.Rest())), t)
  {
    hide DecArg, DecInt64, DecBlob, ReadsFromFront;
    var gasLimit := r.ReadInt64();
    if gasLimit.None? {
      return None;
    }
    var gasFeeCap := r.Take(p.bigInt);
    if gasFeeCap.None? {
      return None;
    }
    var gasPremium := r.Take(p.bigInt);
    if gasPremium.None? {
      return None;
    }
    var methodNum := r.ReadArg(UNSIGNED);
    if methodNum.None? {
      return None;
    }
    var params := r.ReadBlob(BYTE_STRING, p.byteArrayMaxLen);
    t := if params.Some?
         then Some((gasLimit.value, (gasFeeCap.value, (gasPremium.value, (methodNum.value, params.value))))) else None;
  }

  method UnmarshalMessage(p: Base, r: Reader) returns (m: Option<Message>)
    requires r.Valid() && MessagePartsFromFront(p)
    modifies r
    ensures r.Valid() && r.Consumed(MessageCodec(p).dec(old(r.Rest())), m)
  {
    hide DecArg, EnvelopeCodec, TermsCodec, MessageOf;
    var ok := r.ReadFieldCount(10);
    if !ok {
      return None;
    }
    var envelope := UnmarshalEnvelope(p, r);
    if envelope.None? {
      return None;
    }
    var terms := UnmarshalTerms(p, r);
    m := if terms.Some? then Some(MessageOf((envelope.value, terms.value))) else None;
  }

  method UnmarshalSignedMessage(p: Base, r: Reader) returns (m: Option<SignedMessage>)
    requires r.Valid() && SignedPartsFromFront(p)
    modifies r
    ensures r.Valid() && r.Consumed(SignedMessageCodec(p).dec(old(r.Rest())), m)
  {
    hide DecArg, MessageCodec, ReadsFromFront;
    var ok := r.ReadFieldCount(2);
    if !ok {
      return None;
    }
    var message := UnmarshalMessage(p, r);
    if message.None? {
      return None;
    }
    var signature := r.Take(p.signature);
    m := if signature.Some? then Some(SignedMessage(message.value, signature.value)) else None;
  }

  /** The BLS messages: each is read as such, so none is nil. */
  method ReadMessages(p: Base, r: Reader) returns (xs: Option<seq<Option<Message>>>)
    requires r.Valid() && MessagePartsFromFront(p)
    modifies r
    ensures r.Valid() && r.Consumed(DecSlice(p.maxLength, Element(MessageCodec(p)), old(r.Rest())), xs)
  {
    hide DecAll, DecSlice, DecCount, Prefixed, MessageCodec;
    SliceCount(p.maxLength, Element(MessageCodec(p)), r.Rest());
    var n := r.ReadCount(p.maxLength);
    if n.None? {
      return None;
    }
    ghost var all := DecAll(Element(MessageCodec(p)), n.value, r.Rest());
    var read: seq<Option<Message>> := [];
    PrefixedNone(all);
    for i := 0 to n.value
      invariant r.Valid() && all == Prefixed(read, DecAll(Element(MessageCodec(p)), n.value - i, r.Rest()))
    {
      ReadingNext(Element(MessageCodec(p)), read, n.value - i, r.Rest());
      var x := UnmarshalMessage(p, r);
      if x.None? {
        return None;
      }
      read := read + [Some(x.value)];
    }
    ReadingDone(Element(MessageCodec(p)), read, r.Rest());
    return Some(read);
  }

  /** The secp256k1 messages. */
  method ReadSignedMessages(p: Base, r: Reader) returns (xs: Option<seq<Option<SignedMessage>>>)
    requires r.Valid() && SignedPartsFromFront(p)
    modifies r
    ensures r.Valid() && r.Consumed(DecSlice(p.maxLength, Element(SignedMessageCodec(p)), old(r.Rest())), xs)
  {
    hide DecAll, DecSlice, DecCount, Prefixed, SignedMessageCodec;
    SliceCount(p.maxLength, Element(SignedMessageCodec(p)), r.Rest());
    var n := r.ReadCount(p.maxLength);
    if n.None? {
      return None;
    }
    ghost var all := DecAll(Element(SignedMessageCodec(p)), n.value, r.Rest());
    var read: seq<Option<SignedMessage>> := [];
    PrefixedNone(all);
    for i := 0 to n.value
      invariant r.Valid() && all == Prefixed(read, DecAll(Element(SignedMessageCodec(p)), n.value - i, r.Rest()))
    {
      ReadingNext(Element(SignedMessageCodec(p)), read, n.value - i, r.Rest());
      var x := UnmarshalSignedMessage(p, r);
      if x.None? {
        return None;
      }
      read := read + [Some(x.value)];
    }
    ReadingDone(Element(SignedMessageCodec(p)), read, r.Rest());
    return Some(read);
  }

  /** The inner loop over the index list of one block. */
  method ReadIndices(p: Base, r: Reader) returns (xs: Option<seq<uint64>>)
    requires r.Valid()
    modifies r
    ensures r.Valid() && r.Consumed(DecSlice(p.maxLength, Arg(UNSIGNED), old(r.Rest())), xs)
  {
    hide DecAll, DecSlice, DecCount, Prefixed, DecArg;
    SliceCount(p.maxLength, Arg(UNSIGNED), r.Rest());
    var n := r.ReadCount(p.maxLength);
    if n.None? {
      return None;
    }
    ghost var all := DecAll(Arg(UNSIGNED), n.value, r.Rest());
    var read: seq<uint64> := [];
    PrefixedNone(all);
    for i := 0 to n.value
      invariant r.Valid() && all == Prefixed(read, DecAll(Arg(UNSIGNED), n.value - i, r.Rest()))
    {
      ReadingNext(Arg(UNSIGNED), read, n.value - i, r.Rest());
      var x := r.ReadArg(UNSIGNED);
      if x.None? {
        return None;
      }
      read := read + [x.value];
    }
    ReadingDone(Arg(UNSIGNED), read, r.Rest());
    return Some(read);
  }

  /** The outer loop, over the blocks. */
  method ReadIncludes(p: Base, r: Reader) returns (xs: Option<seq<seq<uint64>>>)
    requires r.Valid()
    modifies r
    ensures r.Valid() && r.Consumed(DecSlice(p.maxLength, Slice(p.maxLength, Arg(UNSIGNED)), old(r.Rest())), xs)
  {
    hide DecAll, DecSlice, DecCount, Prefixed, Arg;
    SliceCount(p.maxLength, Slice(p.maxLength, Arg(UNSIGNED)), r.Rest());
    var n := r.ReadCount(p.maxLength);
    if n.None? {
      return None;
    }
    ghost var all := DecAll(Slice(p.maxLength, Arg(UNSIGNED)), n.value, r.Rest());
    var read: seq<seq<uint64>> := [];
    PrefixedNone(all);
    for i := 0 to n.value
      invariant r.Valid() && all == Prefixed(read, DecAll(Slice(p.maxLength, Arg(UNSIGNED)), n.value - i, r.Rest()))
    {
      ReadingNext(Slice(p.maxLength, Arg(UNSIGNED)), read, n.value - i, r.Rest());
      var x := ReadIndices(p, r);
      if x.None? {
        return None;
      }
      read := read + [x.value];
    }
    ReadingDone(Slice(p.maxLength, Arg(UNSIGNED)), read, r.Rest());
    return Some(read);
  }

  method UnmarshalCompactedFields(p: Base, r: Reader) returns (t: Option<CompactedTuple>)
    requires r.Valid() && SignedPartsFromFront(p)
    modifies r
    ensures r.Valid() && r.Consumed(CompactedTupleCodec(p).dec(old(r.Rest())), t)
  {
    hide DecSlice, MessageCodec, Element, CompactedRest, Both;
    TwoInARow(Slice(p.maxLength, Element(MessageCodec(p))), CompactedRest(p), r.Rest());
    var bls := ReadMessages(p, r);
    if bls.None? {
      return None;
    }
    var rest := UnmarshalCompactedRest(p, r);
    t := if rest.Some? then Some((bls.value, rest.value)) else None;
  }

  method UnmarshalCompactedRest(p: Base, r: Reader)
    returns (t: Option<(seq<seq<uint64>>, (seq<Option<SignedMessage>>, seq<seq<uint64>>))>)
    requires r.Valid() && SignedPartsFromFront(p)
    modifies r
    ensures r.Valid() && r.Consumed(CompactedRest(p).dec(old(r.Rest())), t)
  {
    hide DecSlice, SignedMessageCodec, Element, Arg, Both;
    ThreeInARow(Includes(p), Slice(p.maxLength, Element(SignedMessageCodec(p))), Includes(p), r.Rest());
    var blsIncludes := ReadIncludes(p, r);
    if blsIncludes.None? {
      return None;
    }
    var secpk := ReadSignedMessages(p, r);
    if secpk.None? {
      return None;
    }
    var secpkIncludes := ReadIncludes(p, r);
    t := if secpkIncludes.Some? then Some((blsIncludes.value, (secpk.value, secpkIncludes.value))) else None;
  }

  method UnmarshalCompactedMessages(p: Base, r: Reader) returns (m: Option<CompactedMessages>)
    requires r.Valid() && SignedPartsFromFront(p)
    modifies r
    ensures r.Valid() && r.Consumed(CompactedCodec(p).dec(old(r.Rest())), m)
  {
    hide DecArg, CompactedTupleCodec, CompactedOf;
    var ok := r.ReadFieldCount(4);
    if !ok {
      return None;
    }
    var t := UnmarshalCompactedFields(p, r);
    m := if t.Some? then Some(CompactedOf(t.value)) else None;
  }

  /** The headers of a block set. */
  method ReadHeaders(p: Base, r: Reader) returns (xs: Option<seq<Option<BlockHeader>>>)
    requires r.Valid() && PartsFromFront(p)
    modifies r
    ensures r.Valid() && r.Consumed(DecSlice(p.maxLength, Element(HeaderCodec(p)), old(r.Rest())), xs)
  {
    hide DecAll, DecSlice, DecCount, Prefixed, HeaderCodec;
    SliceCount(p.maxLength, Element(HeaderCodec(p)), r.Rest());
    var n := r.ReadCount(p.maxLength);
    if n.None? {
      return None;
    }
    ghost var all := DecAll(Element(HeaderCodec(p)), n.value, r.Rest());
    var read: seq<Option<BlockHeader>> := [];
    PrefixedNone(all);
    for i := 0 to n.value
      invariant r.Valid() && all == Prefixed(read, DecAll(Element(HeaderCodec(p)), n.value - i, r.Rest()))
    {
      ReadingNext(Element(HeaderCodec(p)), read, n.value - i, r.Rest());
      var x := UnmarshalBlockHeader(p, r);
      if x.None? {
        return None;
      }
      read := read + [Some(x.value)];
    }
    ReadingDone(Element(HeaderCodec(p)), read, r.Rest());
    return Some(read);
  }

  /** The messages of a block set, if there are any. */
  method ReadCompactedPointer(p: Base, r: Reader) returns (x: Option<Option<CompactedMessages>>)
    requires r.Valid() && SignedPartsFromFront(p)
    modifies r
    ensures r.Valid() && r.Consumed(DecPointer(CompactedCodec(p), old(r.Rest())), x)
  {
    hide CompactedCodec;
    var isNull := r.ReadNull();
    if isNull.None? {
      return None;
    }
    if isNull.value {
      return Some(None);
    }
    var read := UnmarshalCompactedMessages(p, r);
    x := if read.Some? then Some(Some(read.value)) else None;
  }

  method UnmarshalBSTipSet(p: Base, r: Reader) returns (s: Option<BSTipSet>)
    requires r.Valid() && PartsFromFront(p)
    modifies r
    ensures r.Valid() && r.Consumed(BSTipSetCodec(p).dec(old(r.Rest())), s)
  {
    hide DecArg, DecSlice, DecPointer, HeaderCodec, CompactedCodec, Element;
    var ok := r.ReadFieldCount(2);
    if !ok {
      return None;
    }
    var blocks := ReadHeaders(p, r);
    if blocks.None? {
      return None;
    }
    var messages := ReadCompactedPointer(p, r);
    s := if messages.Some? then Some(BSTipSet(blocks.value, messages.value)) else None;
  }

  method UnmarshalSyncMessage(p: Base, r: Reader) returns (m: Option<SyncMessage>)
    requires r.Valid() && ReadsFromFront(p.cid)
    modifies r
    ensures r.Valid() && r.Consumed(SyncMessageCodec(p).dec(old(r.Rest())), m)
  {
    hide DecArg, DecSlice, ReadsFromFront;
    var ok := r.ReadFieldCount(3);
    if !ok {
      return None;
    }
    var head := r.TakeSlice(p.maxLength, p.cid);
    if head.None? {
      return None;
    }
    var length := r.ReadArg(UNSIGNED);
    if length.None? {
      return None;
    }
    var options := r.ReadArg(UNSIGNED);
    m := if options.Some? then Some(SyncMessage(head.value, length.value, options.value)) else None;
  }

  /** The block sets of a response. */
  method ReadBlockSets(p: Base, r: Reader) returns (xs: Option<seq<Option<BSTipSet>>>)
    requires r.Valid() && PartsFromFront(p)
    modifies r
    ensures r.Valid() && r.Consumed(DecSlice(p.maxLength, Element(BSTipSetCodec(p)), old(r.Rest())), xs)
  {
    hide DecAll, DecSlice, DecCount, Prefixed, BSTipSetCodec;
    SliceCount(p.maxLength, Element(BSTipSetCodec(p)), r.Rest());
    var n := r.ReadCount(p.maxLength);
    if n.None? {
      return None;
    }
    ghost var all := DecAll(Element(BSTipSetCodec(p)), n.value, r.Rest());
    var read: seq<Option<BSTipSet>> := [];
    PrefixedNone(all);
    for i := 0 to n.value
      invariant r.Valid() && all == Prefixed(read, DecAll(Element(BSTipSetCodec(p)), n.value - i, r.Rest()))
    {
      ReadingNext(Element(BSTipSetCodec(p)), read, n.value - i, r.Rest());
      var x := UnmarshalBSTipSet(p, r);
      if x.None? {
        return None;
      }
      read := read + [Some(x.value)];
    }
    ReadingDone(Element(BSTipSetCodec(p)), read, r.Rest());
    return Some(read);
  }

  method UnmarshalChainFields(p: Base, r: Reader) returns (t: Option<(uint64, (Bytes, seq<Option<BSTipSet>>))>)
    requires r.Valid() && PartsFromFront(p)
    modifies r
    ensures r.Valid() && r.Consumed(ChainTupleCodec(p).dec(old(r.Rest())), t)
  {
    hide DecArg, DecSlice, DecBlob, BSTipSetCodec, Element, ReadsFromFront, Both;
    ThreeInARow(Arg(UNSIGNED), Blob(TEXT_STRING, p.maxLength), Slice(p.maxLength, Element(BSTipSetCodec(p))), r.Rest());
    var status := r.ReadArg(UNSIGNED);
    if status.None? {
      return None;
    }
    var errorMessage := r.ReadBlob(TEXT_STRING, p.maxLength);
    if errorMessage.None? {
      return None;
    }
    var chain := ReadBlockSets(p, r);
    t := if chain.Some? then Some((status.value, (errorMessage.value, chain.value))) else None;
  }

  method UnmarshalChainMessage(p: Base, r: Reader) returns (m: Option<ChainMessage>)
    requires r.Valid() && PartsFromFront(p)
    modifies r
    ensures r.Valid() && r.Consumed(ChainMessageCodec(p).dec(old(r.Rest())), m)
  {
    hide DecArg, ChainTupleCodec, ChainOf;
    var ok := r.ReadFieldCount(3);
    if !ok {
      return None;
    }
    var t := UnmarshalChainFields(p, r);
    m := if t.Some? then Some(ChainOf(t.value)) else None;
  }
}
