/** The generated marshallers, writing: the counterpart of CborTuples. */
module CborWriting {
  import opened Common
  import opened ChainTypes
  import opened Cbor
  import opened CborStream
  import opened CborChain
  import opened CborExchange

  /** Adjacent pieces, however they were put together. */
  lemma Regroup(s: Bytes, a: Bytes, b: Bytes)
    ensures s + (a + b) == s + a + b
  {}

  lemma Row2<A, B>(s: Bytes, a: Codec<A>, b: Codec<B>, t: (A, B))
    ensures var e := Both(a, b).enc(t);
      && (e.Some? <==> a.enc(t.0).Some? && b.enc(t.1).Some?)
      && (e.Some? ==> s + e.value == s + a.enc(t.0).value + b.enc(t.1).value)
  {
    if Both(a, b).enc(t).Some? {
      Regroup(s, a.enc(t.0).value, b.enc(t.1).value);
    }
  }

  lemma Row3<A, B, C>(s: Bytes, a: Codec<A>, b: Codec<B>, c: Codec<C>, t: (A, (B, C)))
    ensures var e := Both(a, Both(b, c)).enc(t);
      && (e.Some? <==> a.enc(t.0).Some? && b.enc(t.1.0).Some? && c.enc(t.1.1).Some?)
      && (e.Some? ==> s + e.value == s + a.enc(t.0).value + b.enc(t.1.0).value + c.enc(t.1.1).value)
  {
    Row2(s, a, Both(b, c), t);
    if a.enc(t.0).Some? {
      Row2(s + a.enc(t.0).value, b, c, t.1);
    }
  }

  lemma Row4<A, B, C, D>(s: Bytes, a: Codec<A>, b: Codec<B>, c: Codec<C>, d: Codec<D>, t: (A, (B, (C, D))))
    ensures var e := Both(a, Both(b, Both(c, d))).enc(t);
      && (e.Some? <==> a.enc(t.0).Some? && b.enc(t.1.0).Some? && c.enc(t.1.1.0).Some? && d.enc(t.1.1.1).Some?)
      && (e.Some? ==>
            s + e.value
            == s + a.enc(t.0).value + b.enc(t.1.0).value + c.enc(t.1.1.0).value + d.enc(t.1.1.1).value)
  {
    Row2(s, a, Both(b, Both(c, d)), t);
    if a.enc(t.0).Some? {
      Row3(s + a.enc(t.0).value, b, c, d, t.1);
    }
  }

  lemma Row5<A, B, C, D, E>(s: Bytes, a: Codec<A>, b: Codec<B>, c: Codec<C>, d: Codec<D>, f: Codec<E>,
                            t: (A, (B, (C, (D, E)))))
    ensures var e := Both(a, Both(b, Both(c, Both(d, f)))).enc(t);
      && (e.Some? <==> a.enc(t.0).Some? && b.enc(t.1.0).Some? && c.enc(t.1.1.0).Some? && d.enc(t.1.1.1.0).Some?
                       && f.enc(t.1.1.1.1).Some?)
      && (e.Some? ==>
            s + e.value
            == s + a.enc(t.0).value + b.enc(t.1.0).value + c.enc(t.1.1.0).value + d.enc(t.1.1.1.0).value
                 + f.enc(t.1.1.1.1).value)
  {
    Row2(s, a, Both(b, Both(c, Both(d, f))), t);
    if a.enc(t.0).Some? {
      Row4(s + a.enc(t.0).value, b, c, d, f, t.1);
    }
  }

  /** A tuple is its array head and then its fields. */
  lemma Headed<A>(s: Bytes, n: uint64, c: Codec<A>, x: A)
    ensures Fields(n, c).enc(x).Some? <==> c.enc(x).Some?
    ensures c.enc(x).Some? ==> s + Fields(n, c).enc(x).value == s + EncHead(ARRAY, n) + c.enc(x).value
  {
    if c.enc(x).Some? {
      Regroup(s, EncHead(ARRAY, n), c.enc(x).value);
    }
  }

  method MarshalTicket(p: Base, w: Writer, t: Ticket) returns (ok: bool)
    modifies w
    ensures ok == TicketCodec(p).enc(t).Some?
    ensures ok ==> w.buf == old(w.buf) + TicketCodec(p).enc(t).value
  {
    hide EncHead, EncBlob, Both, Fields;
    Headed(w.buf, 1, Blob(BYTE_STRING, p.byteArrayMaxLen), t.vrfProof);
    w.WriteHead(ARRAY, 1);
    ok := w.WriteBlob(BYTE_STRING, p.byteArrayMaxLen, t.vrfProof);
  }

  method MarshalElectionProof(p: Base, w: Writer, e: ElectionProof) returns (ok: bool)
    modifies w
    ensures ok == ElectionProofCodec(p).enc(e).Some?
    ensures ok ==> w.buf == old(w.buf) + ElectionProofCodec(p).enc(e).value
  {
    hide EncHead, EncBlob, EncInt64, Both, Fields;
    Headed(w.buf, 2, Both(Int64(), Blob(BYTE_STRING, p.byteArrayMaxLen)), (e.winCount, e.vrfProof));
    w.WriteHead(ARRAY, 2);
    Row2(w.buf, Int64(), Blob(BYTE_STRING, p.byteArrayMaxLen), (e.winCount, e.vrfProof));
    w.WriteInt64(e.winCount);
    ok := w.WriteBlob(BYTE_STRING, p.byteArrayMaxLen, e.vrfProof);
  }

  method MarshalBeaconEntry(p: Base, w: Writer, e: BeaconEntry) returns (ok: bool)
    modifies w
    ensures ok == BeaconEntryCodec(p).enc(e).Some?
    ensures ok ==> w.buf == old(w.buf) + BeaconEntryCodec(p).enc(e).value
  {
    hide EncHead, EncBlob, Both, Fields;
    Headed(w.buf, 2, Both(Arg(UNSIGNED), Blob(BYTE_STRING, p.byteArrayMaxLen)), (e.round, e.data));
    w.WriteHead(ARRAY, 2);
    Row2(w.buf, Arg(UNSIGNED), Blob(BYTE_STRING, p.byteArrayMaxLen), (e.round, e.data));
    w.WriteHead(UNSIGNED, e.round);
    ok := w.WriteBlob(BYTE_STRING, p.byteArrayMaxLen, e.data);
  }

  /** A ticket, or the null byte for none. */
  method MarshalTicketPointer(p: Base, w: Writer, x: Option<Ticket>) returns (ok: bool)
    modifies w
    ensures ok == EncPointer(TicketCodec(p), x).Some?
    ensures ok ==> w.buf == old(w.buf) + EncPointer(TicketCodec(p), x).value
  {
    hide TicketCodec;
    if x.None? {
      w.Write([NULL_BYTE]);
      return true;
    }
    ok := MarshalTicket(p, w, x.value);
  }

  /** An election proof, or the null byte for none. */
  method MarshalElectionProofPointer(p: Base, w: Writer, x: Option<ElectionProof>) returns (ok: bool)
    modifies w
    ensures ok == EncPointer(ElectionProofCodec(p), x).Some?
    ensures ok ==> w.buf == old(w.buf) + EncPointer(ElectionProofCodec(p), x).value
  {
    hide ElectionProofCodec;
    if x.None? {
      w.Write([NULL_BYTE]);
      return true;
    }
    ok := MarshalElectionProof(p, w, x.value);
  }

  /** The beacon entries, written one by one. */
  method MarshalBeaconEntries(p: Base, w: Writer, xs: seq<BeaconEntry>) returns (ok: bool)
    modifies w
    ensures ok == EncSlice(p.maxLength, BeaconEntryCodec(p), xs).Some?
    ensures ok ==> w.buf == old(w.buf) + EncSlice(p.maxLength, BeaconEntryCodec(p), xs).value
  {
    hide EncAll, Joined, EncHead, BeaconEntryCodec;
    if |xs| > p.maxLength {
      return false;
    }
    w.WriteHead(ARRAY, |xs|);
    ghost var start, done := w.buf, [];
    WritingStarts(BeaconEntryCodec(p), xs);
    for i := 0 to |xs|
      invariant w.buf == start + done
      invariant EncAll(BeaconEntryCodec(p), xs) == Joined(done, EncAll(BeaconEntryCodec(p), xs[i..]))
    {
      WritingNext(BeaconEntryCodec(p), xs, i, done);
      ok := MarshalBeaconEntry(p, w, xs[i]);
      if !ok {
        return false;
      }
      done := done + BeaconEntryCodec(p).enc(xs[i]).value;
    }
    WritingDone(p.maxLength, BeaconEntryCodec(p), xs, old(w.buf), done);
    return true;
  }

  method MarshalClaim(p: Base, w: Writer, c: Claim) returns (ok: bool)
    modifies w
    ensures ok == ClaimCodec(p).enc(c).Some?
    ensures ok ==> w.buf == old(w.buf) + ClaimCodec(p).enc(c).value
  {
    hide TicketCodec, ElectionProofCodec, BeaconEntryCodec, EncPointer, EncSlice, Both;
    Row4(w.buf, p.addr, Pointer(TicketCodec(p)),
         Pointer(ElectionProofCodec(p)), Slice(p.maxLength, BeaconEntryCodec(p)), c);
    ok := w.Put(p.addr, c.0);
    if !ok {
      return false;
    }
    ok := MarshalTicketPointer(p, w, c.1.0);
    if !ok {
      return false;
    }
    ok := MarshalElectionProofPointer(p, w, c.1.1.0);
    if !ok {
      return false;
    }
    ok := MarshalBeaconEntries(p, w, c.1.1.1);
  }

  method MarshalLineage(p: Base, w: Writer, l: Lineage) returns (ok: bool)
    modifies w
    ensures ok == LineageCodec(p).enc(l).Some?
    ensures ok ==> w.buf == old(w.buf) + LineageCodec(p).enc(l).value
  {
    hide EncSlice, EncInt64, Both;
    Row4(w.buf, Slice(p.maxLength, p.postProof), Slice(p.maxLength, p.cid), p.bigInt, Int64(), l);
    ok := w.PutSlice(p.maxLength, p.postProof, l.0);
    if !ok {
      return false;
    }
    ok := w.PutSlice(p.maxLength, p.cid, l.1.0);
    if !ok {
      return false;
    }
    ok := w.Put(p.bigInt, l.1.1.0);
    if !ok {
      return false;
    }
    w.WriteInt64(l.1.1.1);
    return true;
  }

  method MarshalRoots(p: Base, w: Writer, r: Roots) returns (ok: bool)
    modifies w
    ensures ok == RootsCodec(p).enc(r).Some?
    ensures ok ==> w.buf == old(w.buf) + RootsCodec(p).enc(r).value
  {
    hide EncPointer, Both;
    Row4(w.buf, p.cid, p.cid, p.cid, Pointer(p.signature), r);
    ok := w.Put(p.cid, r.0);
    if !ok {
      return false;
    }
    ok := w.Put(p.cid, r.1.0);
    if !ok {
      return false;
    }
    ok := w.Put(p.cid, r.1.1.0);
    if !ok {
      return false;
    }
    ok := w.PutPointer(p.signature, r.1.1.1);
  }

  method MarshalSeal(p: Base, w: Writer, s: Seal) returns (ok: bool)
    modifies w
    ensures ok == SealCodec(p).enc(s).Some?
    ensures ok ==> w.buf == old(w.buf) + SealCodec(p).enc(s).value
  {
    hide EncPointer, EncHead, Both;
    Row4(w.buf, Arg(UNSIGNED), Pointer(p.signature), Arg(UNSIGNED), p.bigInt, s);
    w.WriteHead(UNSIGNED, s.0);
    ok := w.PutPointer(p.signature, s.1.0);
    if !ok {
      return false;
    }
    w.WriteHead(UNSIGNED, s.1.1.0);
    ok := w.Put(p.bigInt, s.1.1.1);
  }

  method MarshalBlockHeader(p: Base, w: Writer, b: BlockHeader) returns (ok: bool)
    modifies w
    ensures ok == HeaderCodec(p).enc(b).Some?
    ensures ok ==> w.buf == old(w.buf) + HeaderCodec(p).enc(b).value
  {
    hide EncHead, ClaimCodec, LineageCodec, RootsCodec, SealCodec, TupleOf, Both, Fields;
    Headed(w.buf, 16, Both(ClaimCodec(p), Both(LineageCodec(p), Both(RootsCodec(p), SealCodec(p)))), TupleOf(b));
    w.WriteHead(ARRAY, 16);
    Row4(w.buf, ClaimCodec(p), LineageCodec(p), RootsCodec(p), SealCodec(p), TupleOf(b));
    ok := MarshalClaim(p, w, TupleOf(b).0);
    if !ok {
      return false;
    }
    ok := MarshalLineage(p, w, TupleOf(b).1.0);
    if !ok {
      return false;
    }
    ok := MarshalRoots(p, w, TupleOf(b).1.1.0);
    if !ok {
      return false;
    }
    ok := MarshalSeal(p, w, TupleOf(b).1.1.1);
  }

  method MarshalEnvelope(p: Base, w: Writer, e: Envelope) returns (ok: bool)
    modifies w
    ensures ok == EnvelopeCodec(p).enc(e).Some?
    ensures ok ==> w.buf == old(w.buf) + EnvelopeCodec(p).enc(e).value
  {
    hide EncHead, Both;
    Row5(w.buf, Arg(UNSIGNED), p.addr, p.addr, Arg(UNSIGNED), p.bigInt, e);
    w.WriteHead(UNSIGNED, e.0);
    ok := w.Put(p.addr, e.1.0);
    if !ok {
      return false;
    }
    ok := w.Put(p.addr, e.1.1.0);
    if !ok {
      return false;
    }
    w.WriteHead(UNSIGNED, e.1.1.1.0);
    ok := w.Put(p.bigInt, e.1.1.1.1);
  }

  method MarshalTerms(p: Base, w: Writer, t: Terms) returns (ok: bool)
    modifies w
    ensures ok == TermsCodec(p).enc(t).Some?
    ensures ok ==> w.buf == old(w.buf) + TermsCodec(p).enc(t).value
  {
    hide EncHead, EncInt64, EncBlob, Both;
    Row5(w.buf, Int64(), p.bigInt, p.bigInt, Arg(UNSIGNED), Blob(BYTE_STRING, p.byteArrayMaxLen), t);
    w.WriteInt64(t.0);
    ok := w.Put(p.bigInt, t.1.0);
    if !ok {
      return false;
    }
    ok := w.Put(p.bigInt, t.1.1.0);
    if !ok {
      return false;
    }
    w.WriteHead(UNSIGNED, t.1.1.1.0);
    ok := w.WriteBlob(BYTE_STRING, p.byteArrayMaxLen, t.1.1.1.1);
  }

  method MarshalMessage(p: Base, w: Writer, m: Message) returns (ok: bool)
    modifies w
    ensures ok == MessageCodec(p).enc(m).Some?
    ensures ok ==> w.buf == old(w.buf) + MessageCodec(p).enc(m).value
  {
    hide EncHead, EnvelopeCodec, TermsCodec, PartsOf, Both, Fields;
    Headed(w.buf, 10, Both(EnvelopeCodec(p), TermsCodec(p)), PartsOf(m));
    w.WriteHead(ARRAY, 10);
    Row2(w.buf, EnvelopeCodec(p), TermsCodec(p), PartsOf(m));
    ok := MarshalEnvelope(p, w, PartsOf(m).0);
    if !ok {
      return false;
    }
    ok := MarshalTerms(p, w, PartsOf(m).1);
  }

  method MarshalSignedMessage(p: Base, w: Writer, m: SignedMessage) returns (ok: bool)
    modifies w
    ensures ok == SignedMessageCodec(p).enc(m).Some?
    ensures ok ==> w.buf == old(w.buf) + SignedMessageCodec(p).enc(m).value
  {
    hide EncHead, MessageCodec, Both, Fields;
    Headed(w.buf, 2, Both(MessageCodec(p), p.signature), (m.message, m.signature));
    w.WriteHead(ARRAY, 2);
    Row2(w.buf, MessageCodec(p), p.signature, (m.message, m.signature));
    ok := MarshalMessage(p, w, m.message);
    if !ok {
      return false;
    }
    ok := w.Put(p.signature, m.signature);
  }

  /** A message behind a pointer, which may be nil. */
  method MarshalMessagePointer(p: Base, w: Writer, x: Option<Message>) returns (ok: bool)
    modifies w
    ensures ok == EncPointer(MessageCodec(p), x).Some?
    ensures ok ==> w.buf == old(w.buf) + EncPointer(MessageCodec(p), x).value
  {
    hide MessageCodec;
    if x.None? {
      w.Write([NULL_BYTE]);
      return true;
    }
    ok := MarshalMessage(p, w, x.value);
  }

  /** The BLS messages. */
  method MarshalMessages(p: Base, w: Writer, xs: seq<Option<Message>>) returns (ok: bool)
    modifies w
    ensures ok == EncSlice(p.maxLength, Element(MessageCodec(p)), xs).Some?
    ensures ok ==> w.buf == old(w.buf) + EncSlice(p.maxLength, Element(MessageCodec(p)), xs).value
  {
    hide EncAll, Joined, EncHead, MessageCodec;
    if |xs| > p.maxLength {
      return false;
    }
    w.WriteHead(ARRAY, |xs|);
    ghost var start, done := w.buf, [];
    WritingStarts(Element(MessageCodec(p)), xs);
    for i := 0 to |xs|
      invariant w.buf == start + done
      invariant EncAll(Element(MessageCodec(p)), xs) == Joined(done, EncAll(Element(MessageCodec(p)), xs[i..]))
    {
      WritingNext(Element(MessageCodec(p)), xs, i, done);
      ok := MarshalMessagePointer(p, w, xs[i]);
      if !ok {
        return false;
      }
      done := done + Element(MessageCodec(p)).enc(xs[i]).value;
    }
    WritingDone(p.maxLength, Element(MessageCodec(p)), xs, old(w.buf), done);
    return true;
  }

  /** A signed message behind a pointer, which may be nil. */
  method MarshalSignedMessagePointer(p: Base, w: Writer, x: Option<SignedMessage>) returns (ok: bool)
    modifies w
    ensures ok == EncPointer(SignedMessageCodec(p), x).Some?
    ensures ok ==> w.buf == old(w.buf) + EncPointer(SignedMessageCodec(p), x).value
  {
    hide SignedMessageCodec;
    if x.None? {
      w.Write([NULL_BYTE]);
      return true;
    }
    ok := MarshalSignedMessage(p, w, x.value);
  }

  /** The secp256k1 messages. */
  method MarshalSignedMessages(p: Base, w: Writer, xs: seq<Option<SignedMessage>>) returns (ok: bool)
    modifies w
    ensures ok == EncSlice(p.maxLength, Element(SignedMessageCodec(p)), xs).Some?
    ensures ok ==> w.buf == old(w.buf) + EncSlice(p.maxLength, Element(SignedMessageCodec(p)), xs).value
  {
    hide EncAll, Joined, EncHead, SignedMessageCodec;
    if |xs| > p.maxLength {
      return false;
    }
    w.WriteHead(ARRAY, |xs|);
    ghost var start, done := w.buf, [];
    WritingStarts(Element(SignedMessageCodec(p)), xs);
    for i := 0 to |xs|
      invariant w.buf == start + done
      invariant EncAll(Element(SignedMessageCodec(p)), xs)
             == Joined(done, EncAll(Element(SignedMessageCodec(p)), xs[i..]))
    {
      WritingNext(Element(SignedMessageCodec(p)), xs, i, done);
      ok := MarshalSignedMessagePointer(p, w, xs[i]);
      if !ok {
        return false;
      }
      done := done + Element(SignedMessageCodec(p)).enc(xs[i]).value;
    }
    WritingDone(p.maxLength, Element(SignedMessageCodec(p)), xs, old(w.buf), done);
    return true;
  }

  /** The inner loop over the index list of one block. */
  method MarshalIndices(p: Base, w: Writer, xs: seq<uint64>) returns (ok: bool)
    modifies w
    ensures ok == EncSlice(p.maxLength, Arg(UNSIGNED), xs).Some?
    ensures ok ==> w.buf == old(w.buf) + EncSlice(p.maxLength, Arg(UNSIGNED), xs).value
  {
    hide EncAll, Joined, EncHead;
    if |xs| > p.maxLength {
      return false;
    }
    w.WriteHead(ARRAY, |xs|);
    ghost var start, done := w.buf, [];
    WritingStarts(Arg(UNSIGNED), xs);
    for i := 0 to |xs|
      invariant w.buf == start + done
      invariant EncAll(Arg(UNSIGNED), xs) == Joined(done, EncAll(Arg(UNSIGNED), xs[i..]))
    {
      WritingNext(Arg(UNSIGNED), xs, i, done);
      w.WriteHead(UNSIGNED, xs[i]);
      done := done + Arg(UNSIGNED).enc(xs[i]).value;
    }
    WritingDone(p.maxLength, Arg(UNSIGNED), xs, old(w.buf), done);
    return true;
  }

  /** The outer loop, over the blocks. */
  method MarshalIncludes(p: Base, w: Writer, xs: seq<seq<uint64>>) returns (ok: bool)
    modifies w
    ensures ok == EncSlice(p.maxLength, Slice(p.maxLength, Arg(UNSIGNED)), xs).Some?
    ensures ok ==> w.buf == old(w.buf) + EncSlice(p.maxLength, Slice(p.maxLength, Arg(UNSIGNED)), xs).value
  {
    hide EncAll, Joined, EncHead, Arg;
    if |xs| > p.maxLength {
      return false;
    }
    w.WriteHead(ARRAY, |xs|);
    ghost var start, done := w.buf, [];
    WritingStarts(Slice(p.maxLength, Arg(UNSIGNED)), xs);
    for i := 0 to |xs|
      invariant w.buf == start + done
      invariant EncAll(Slice(p.maxLength, Arg(UNSIGNED)), xs)
             == Joined(done, EncAll(Slice(p.maxLength, Arg(UNSIGNED)), xs[i..]))
    {
      WritingNext(Slice(p.maxLength, Arg(UNSIGNED)), xs, i, done);
      ok := MarshalIndices(p, w, xs[i]);
      if !ok {
        return false;
      }
      done := done + Slice(p.maxLength, Arg(UNSIGNED)).enc(xs[i]).value;
    }
    WritingDone(p.maxLength, Slice(p.maxLength, Arg(UNSIGNED)), xs, old(w.buf), done);
    return true;
  }

  method MarshalCompactedMessages(p: Base, w: Writer, m: CompactedMessages) returns (ok: bool)
    modifies w
    ensures ok == CompactedCodec(p).enc(m).Some?
    ensures ok ==> w.buf == old(w.buf) + CompactedCodec(p).enc(m).value
  {
    hide EncHead, EncSlice, MessageCodec, SignedMessageCodec, Element, Arg, Both, Fields;
    Headed(w.buf, 4, CompactedTupleCodec(p), CompactedParts(m));
    w.WriteHead(ARRAY, 4);
    Row4(w.buf, Slice(p.maxLength, Element(MessageCodec(p))), Slice(p.maxLength, Slice(p.maxLength, Arg(UNSIGNED))),
         Slice(p.maxLength, Element(SignedMessageCodec(p))), Slice(p.maxLength, Slice(p.maxLength, Arg(UNSIGNED))),
         CompactedParts(m));
    ok := MarshalMessages(p, w, m.bls);
    if !ok {
      return false;
    }
    ok := MarshalIncludes(p, w, m.blsIncludes);
    if !ok {
      return false;
    }
    ok := MarshalSignedMessages(p, w, m.secpk);
    if !ok {
      return false;
    }
    ok := MarshalIncludes(p, w, m.secpkIncludes);
  }

  /** A header behind a pointer, which may be nil. */
  method MarshalHeaderPointer(p: Base, w: Writer, x: Option<BlockHeader>) returns (ok: bool)
    modifies w
    ensures ok == EncPointer(HeaderCodec(p), x).Some?
    ensures ok ==> w.buf == old(w.buf) + EncPointer(HeaderCodec(p), x).value
  {
    hide HeaderCodec;
    if x.None? {
      w.Write([NULL_BYTE]);
      return true;
    }
    ok := MarshalBlockHeader(p, w, x.value);
  }

  /** The headers of a block set. */
  method MarshalHeaders(p: Base, w: Writer, xs: seq<Option<BlockHeader>>) returns (ok: bool)
    modifies w
    ensures ok == EncSlice(p.maxLength, Element(HeaderCodec(p)), xs).Some?
    ensures ok ==> w.buf == old(w.buf) + EncSlice(p.maxLength, Element(HeaderCodec(p)), xs).value
  {
    hide EncAll, Joined, EncHead, HeaderCodec;
    if |xs| > p.maxLength {
      return false;
    }
    w.WriteHead(ARRAY, |xs|);
    ghost var start, done := w.buf, [];
    WritingStarts(Element(HeaderCodec(p)), xs);
    for i := 0 to |xs|
      invariant w.buf == start + done
      invariant EncAll(Element(HeaderCodec(p)), xs) == Joined(done, EncAll(Element(HeaderCodec(p)), xs[i..]))
    {
      WritingNext(Element(HeaderCodec(p)), xs, i, done);
      ok := MarshalHeaderPointer(p, w, xs[i]);
      if !ok {
        return false;
      }
      done := done + Element(HeaderCodec(p)).enc(xs[i]).value;
    }
    WritingDone(p.maxLength, Element(HeaderCodec(p)), xs, old(w.buf), done);
    return true;
  }

  /** The messages of a block set, or the null byte for none. */
  method MarshalCompactedPointer(p: Base, w: Writer, x: Option<CompactedMessages>) returns (ok: bool)
    modifies w
    ensures ok == EncPointer(CompactedCodec(p), x).Some?
    ensures ok ==> w.buf == old(w.buf) + EncPointer(CompactedCodec(p), x).value
  {
    hide CompactedCodec;
    if x.None? {
      w.Write([NULL_BYTE]);
      return true;
    }
    ok := MarshalCompactedMessages(p, w, x.value);
  }

  method MarshalBSTipSet(p: Base, w: Writer, s: BSTipSet) returns (ok: bool)
    modifies w
    ensures ok == BSTipSetCodec(p).enc(s).Some?
    ensures ok ==> w.buf == old(w.buf) + BSTipSetCodec(p).enc(s).value
  {
    hide EncHead, EncSlice, EncPointer, HeaderCodec, CompactedCodec, Element, Both, Fields;
    Headed(w.buf, 2, TipSetTupleCodec(p), BSTipSetParts(s));
    w.WriteHead(ARRAY, 2);
    Row2(w.buf, Slice(p.maxLength, Element(HeaderCodec(p))), Pointer(CompactedCodec(p)), BSTipSetParts(s));
    ok := MarshalHeaders(p, w, s.blocks);
    if !ok {
      return false;
    }
    ok := MarshalCompactedPointer(p, w, s.messages);
  }

  method MarshalSyncMessage(p: Base, w: Writer, m: SyncMessage) returns (ok: bool)
    modifies w
    ensures ok == SyncMessageCodec(p).enc(m).Some?
    ensures ok ==> w.buf == old(w.buf) + SyncMessageCodec(p).enc(m).value
  {
    hide EncHead, EncSlice, Both, Fields;
    Headed(w.buf, 3, SyncTupleCodec(p), SyncParts(m));
    w.WriteHead(ARRAY, 3);
    Row3(w.buf, Slice(p.maxLength, p.cid), Arg(UNSIGNED), Arg(UNSIGNED), SyncParts(m));
    ok := w.PutSlice(p.maxLength, p.cid, m.head);
    if !ok {
      return false;
    }
    w.WriteHead(UNSIGNED, m.length);
    w.WriteHead(UNSIGNED, m.options);
    return true;
  }

  /** A block set behind a pointer, which may be nil. */
  method MarshalBlockSetPointer(p: Base, w: Writer, x: Option<BSTipSet>) returns (ok: bool)
    modifies w
    ensures ok == EncPointer(BSTipSetCodec(p), x).Some?
    ensures ok ==> w.buf == old(w.buf) + EncPointer(BSTipSetCodec(p), x).value
  {
    hide BSTipSetCodec;
    if x.None? {
      w.Write([NULL_BYTE]);
      return true;
    }
    ok := MarshalBSTipSet(p, w, x.value);
  }

  /** The block sets of a response. */
  method MarshalBlockSets(p: Base, w: Writer, xs: seq<Option<BSTipSet>>) returns (ok: bool)
    modifies w
    ensures ok == EncSlice(p.maxLength, Element(BSTipSetCodec(p)), xs).Some?
    ensures ok ==> w.buf == old(w.buf) + EncSlice(p.maxLength, Element(BSTipSetCodec(p)), xs).value
  {
    hide EncAll, Joined, EncHead, BSTipSetCodec;
    if |xs| > p.maxLength {
      return false;
    }
    w.WriteHead(ARRAY, |xs|);
    ghost var start, done := w.buf, [];
    WritingStarts(Element(BSTipSetCodec(p)), xs);
    for i := 0 to |xs|
      invariant w.buf == start + done
      invariant EncAll(Element(BSTipSetCodec(p)), xs) == Joined(done, EncAll(Element(BSTipSetCodec(p)), xs[i..]))
    {
      WritingNext(Element(BSTipSetCodec(p)), xs, i, done);
      ok := MarshalBlockSetPointer(p, w, xs[i]);
      if !ok {
        return false;
      }
      done := done + Element(BSTipSetCodec(p)).enc(xs[i]).value;
    }
    WritingDone(p.maxLength, Element(BSTipSetCodec(p)), xs, old(w.buf), done);
    return true;
  }

  method MarshalChainMessage(p: Base, w: Writer, m: ChainMessage) returns (ok: bool)
    modifies w
    ensures ok == ChainMessageCodec(p).enc(m).Some?
    ensures ok ==> w.buf == old(w.buf) + ChainMessageCodec(p).enc(m).value
  {
    hide EncHead, EncSlice, EncBlob, BSTipSetCodec, Element, Both, Fields;
    Headed(w.buf, 3, ChainTupleCodec(p), ChainParts(m));
    w.WriteHead(ARRAY, 3);
    Row3(w.buf, Arg(UNSIGNED),
         Blob(TEXT_STRING, p.maxLength), Slice(p.maxLength, Element(BSTipSetCodec(p))), ChainParts(m));
    w.WriteHead(UNSIGNED, m.status);
    ok := w.WriteBlob(TEXT_STRING, p.maxLength, m.errorMessage);
    if !ok {
      return false;
    }
    ok := MarshalBlockSets(p, w, m.chain);
  }
}
