/** The tuple encodings of block headers and messages. */
module CborChain {
  import opened Common
  import opened ChainTypes
  import opened Cbor

  /**
   * What comes from other packages: the codecs of the values they define, and the limits of the CBOR
   * library on slices and on byte arrays.
   */
  datatype Base = Base(
    addr: Codec<Addr>,
    cid: Codec<Cid>,
    bigInt: Codec<BigInt>,
    signature: Codec<Signature>,
    postProof: Codec<PoStProof>,
    maxLength: uint64,
    byteArrayMaxLen: uint64)

  /**
   * The parts are self-delimiting. They need not be canonical: one value may be read from several byte
   * strings. Nor need they be total: a writer may take values that its reader refuses.
   */
  ghost predicate BaseLawful(p: Base) {
    SignedBaseLawful(p) && NeverNull(p.signature) && Lawful(p.cid) && Lawful(p.postProof)
  }

  ghost predicate SignedBaseLawful(p: Base) {
    MessageBaseLawful(p) && Lawful(p.signature)
  }

  ghost predicate MessageBaseLawful(p: Base) {
    Lawful(p.addr) && Lawful(p.bigInt)
  }

  /** What more is needed where there is to be one way to write a value. */
  ghost predicate BaseCanonical(p: Base) {
    SignedBaseCanonical(p) && Canonical(p.cid) && Canonical(p.postProof)
  }

  ghost predicate SignedBaseCanonical(p: Base) {
    MessageBaseCanonical(p) && Canonical(p.signature)
  }

  ghost predicate MessageBaseCanonical(p: Base) {
    Canonical(p.addr) && Canonical(p.bigInt)
  }

  // ----- tickets, proofs, beacon entries -----

  function TicketCodec(p: Base): Codec<Ticket> {
    Via(Fields(1, Blob(BYTE_STRING, p.byteArrayMaxLen)), (v: Bytes) => Ticket(v), (t: Ticket) => t.vrfProof)
  }

  lemma TicketLawful(p: Base)
    ensures Lawful(TicketCodec(p)) && Canonical(TicketCodec(p)) && Total(TicketCodec(p))
    ensures NeverNull(TicketCodec(p)) && RefusesNull(TicketCodec(p))
  {
    var blob := Blob(BYTE_STRING, p.byteArrayMaxLen);
    BlobLawful(BYTE_STRING, p.byteArrayMaxLen);
    FieldsLawful(1, blob);
    ViaLawful(Fields(1, blob), (v: Bytes) => Ticket(v), (t: Ticket) => t.vrfProof);
  }

  function ElectionProofCodec(p: Base): Codec<ElectionProof> {
    Via(Fields(2, Both(Int64(), Blob(BYTE_STRING, p.byteArrayMaxLen))),
        (v: (int64, Bytes)) => ElectionProof(v.0, v.1), (e: ElectionProof) => (e.winCount, e.vrfProof))
  }

  lemma ElectionProofLawful(p: Base)
    ensures Lawful(ElectionProofCodec(p)) && Canonical(ElectionProofCodec(p)) && Total(ElectionProofCodec(p))
    ensures NeverNull(ElectionProofCodec(p)) && RefusesNull(ElectionProofCodec(p))
  {
    var blob := Blob(BYTE_STRING, p.byteArrayMaxLen);
    BlobLawful(BYTE_STRING, p.byteArrayMaxLen);
    Int64Lawful();
    BothLawful(Int64(), blob);
    FieldsLawful(2, Both(Int64(), blob));
    ViaLawful(Fields(2, Both(Int64(), blob)),
              (v: (int64, Bytes)) => ElectionProof(v.0, v.1), (e: ElectionProof) => (e.winCount, e.vrfProof));
  }

  function BeaconEntryCodec(p: Base): Codec<BeaconEntry> {
    Via(Fields(2, Both(Arg(UNSIGNED), Blob(BYTE_STRING, p.byteArrayMaxLen))),
        (v: (uint64, Bytes)) => BeaconEntry(v.0, v.1), (e: BeaconEntry) => (e.round, e.data))
  }

  lemma BeaconEntryLawful(p: Base)
    ensures Lawful(BeaconEntryCodec(p)) && Canonical(BeaconEntryCodec(p)) && Total(BeaconEntryCodec(p))
  {
    var blob := Blob(BYTE_STRING, p.byteArrayMaxLen);
    BlobLawful(BYTE_STRING, p.byteArrayMaxLen);
    ArgLawful(UNSIGNED);
    BothLawful(Arg(UNSIGNED), blob);
    FieldsLawful(2, Both(Arg(UNSIGNED), blob));
    ViaLawful(Fields(2, Both(Arg(UNSIGNED), blob)),
              (v: (uint64, Bytes)) => BeaconEntry(v.0, v.1), (e: BeaconEntry) => (e.round, e.data));
  }

  // ----- block headers: sixteen fields, in four groups -----

  type Claim = (Addr, (Option<Ticket>, (Option<ElectionProof>, seq<BeaconEntry>)))
  type Lineage = (seq<PoStProof>, (seq<Cid>, (BigInt, int64)))
  type Roots = (Cid, (Cid, (Cid, Option<Signature>)))
  type Seal = (uint64, (Option<Signature>, (uint64, BigInt)))

  function ClaimCodec(p: Base): Codec<Claim> {
    Both(p.addr, Both(Pointer(TicketCodec(p)),
      Both(Pointer(ElectionProofCodec(p)), Slice(p.maxLength, BeaconEntryCodec(p)))))
  }

  lemma ClaimLawful(p: Base)
    requires BaseLawful(p)
    ensures Lawful(ClaimCodec(p))
    ensures BaseCanonical(p) ==> Canonical(ClaimCodec(p))
  {
    hide TicketCodec, ElectionProofCodec, BeaconEntryCodec, Both, Pointer, Slice;
    hide Lawful, Canonical, Total, NeverNull, RefusesNull;
    TicketLawful(p);
    ElectionProofLawful(p);
    BeaconEntryLawful(p);
    PointerLawful(TicketCodec(p));
    PointerLawful(ElectionProofCodec(p));
    SliceLawful(p.maxLength, BeaconEntryCodec(p));
    BothLawful(Pointer(ElectionProofCodec(p)), Slice(p.maxLength, BeaconEntryCodec(p)));
    BothLawful(Pointer(TicketCodec(p)), Both(Pointer(ElectionProofCodec(p)), Slice(p.maxLength, BeaconEntryCodec(p))));
    BothLawful(p.addr, Both(Pointer(TicketCodec(p)),
                            Both(Pointer(ElectionProofCodec(p)), Slice(p.maxLength, BeaconEntryCodec(p)))));
  }

  function LineageCodec(p: Base): Codec<Lineage> {
    Both(Slice(p.maxLength, p.postProof), Both(Slice(p.maxLength, p.cid), Both(p.bigInt, Int64())))
  }

  lemma LineageLawful(p: Base)
    requires BaseLawful(p)
    ensures Lawful(LineageCodec(p))
    ensures BaseCanonical(p) ==> Canonical(LineageCodec(p))
  {
    hide Lawful, Canonical, Total, NeverNull, RefusesNull, Both, Slice, Int64;
    Int64Lawful();
    SliceLawful(p.maxLength, p.postProof);
    SliceLawful(p.maxLength, p.cid);
    BothLawful(p.bigInt, Int64());
    BothLawful(Slice(p.maxLength, p.cid), Both(p.bigInt, Int64()));
    BothLawful(Slice(p.maxLength, p.postProof), Both(Slice(p.maxLength, p.cid), Both(p.bigInt, Int64())));
  }

  function RootsCodec(p: Base): Codec<Roots> {
    Both(p.cid, Both(p.cid, Both(p.cid, Pointer(p.signature))))
  }

  lemma RootsLawful(p: Base)
    requires BaseLawful(p)
    ensures Lawful(RootsCodec(p))
    ensures BaseCanonical(p) ==> Canonical(RootsCodec(p))
  {
    hide Lawful, Canonical, Total, NeverNull, RefusesNull, Both, Pointer;
    PointerLawful(p.signature);
    BothLawful(p.cid, Pointer(p.signature));
    BothLawful(p.cid, Both(p.cid, Pointer(p.signature)));
    BothLawful(p.cid, Both(p.cid, Both(p.cid, Pointer(p.signature))));
  }

  function SealCodec(p: Base): Codec<Seal> {
    Both(Arg(UNSIGNED), Both(Pointer(p.signature), Both(Arg(UNSIGNED), p.bigInt)))
  }

  lemma SealLawful(p: Base)
    requires BaseLawful(p)
    ensures Lawful(SealCodec(p))
    ensures BaseCanonical(p) ==> Canonical(SealCodec(p))
  {
    hide Lawful, Canonical, Total, NeverNull, RefusesNull, Both, Pointer, Arg;
    ArgLawful(UNSIGNED);
    PointerLawful(p.signature);
    BothLawful(Arg(UNSIGNED), p.bigInt);
    BothLawful(Pointer(p.signature), Both(Arg(UNSIGNED), p.bigInt));
    BothLawful(Arg(UNSIGNED), Both(Pointer(p.signature), Both(Arg(UNSIGNED), p.bigInt)));
  }

  type HeaderTuple = (Claim, (Lineage, (Roots, Seal)))

  function HeaderOf(t: HeaderTuple): BlockHeader {
    var (claim, (lineage, (roots, seal))) := t;
    BlockHeader(claim.0, claim.1.0, claim.1.1.0, claim.1.1.1,
                lineage.0, lineage.1.0, lineage.1.1.0, lineage.1.1.1,
                roots.0, roots.1.0, roots.1.1.0, roots.1.1.1,
                seal.0, seal.1.0, seal.1.1.0, seal.1.1.1)
  }

  function TupleOf(b: BlockHeader): HeaderTuple {
    ((b.miner, (b.ticket, (b.electionProof, b.beaconEntries))),
     ((b.winPoStProof, (b.parents, (b.parentWeight, b.height))),
      ((b.parentStateRoot, (b.parentMessageReceipts, (b.messages, b.blsAggregate))),
       (b.timestamp, (b.blockSig, (b.forkSignaling, b.parentBaseFee))))))
  }

  function HeaderCodec(p: Base): Codec<BlockHeader> {
    Via(Fields(16, Both(ClaimCodec(p), Both(LineageCodec(p), Both(RootsCodec(p), SealCodec(p))))), HeaderOf, TupleOf)
  }

  lemma HeaderLawful(p: Base)
    requires BaseLawful(p)
    ensures Lawful(HeaderCodec(p)) && NeverNull(HeaderCodec(p)) && RefusesNull(HeaderCodec(p))
    ensures BaseCanonical(p) ==> Canonical(HeaderCodec(p))
  {
    hide Lawful, Canonical, Total, NeverNull, RefusesNull;
    hide Both, Fields, Via, ClaimCodec, LineageCodec, RootsCodec, SealCodec;
    ClaimLawful(p);
    LineageLawful(p);
    RootsLawful(p);
    SealLawful(p);
    var tail := Both(RootsCodec(p), SealCodec(p));
    BothLawful(RootsCodec(p), SealCodec(p));
    BothLawful(LineageCodec(p), tail);
    BothLawful(ClaimCodec(p), Both(LineageCodec(p), tail));
    FieldsLawful(16, Both(ClaimCodec(p), Both(LineageCodec(p), tail)));
    ViaLawful(Fields(16, Both(ClaimCodec(p), Both(LineageCodec(p), tail))), HeaderOf, TupleOf);
  }

  /** The parts of a header are values that their readers take. */
  predicate ReadableHeader(p: Base, b: BlockHeader) {
    && p.addr.dom(b.miner) && p.bigInt.dom(b.parentWeight) && p.bigInt.dom(b.parentBaseFee)
    && (forall i :: 0 <= i < |b.winPoStProof| ==> p.postProof.dom(b.winPoStProof[i]))
    && (forall i :: 0 <= i < |b.parents| ==> p.cid.dom(b.parents[i]))
    && p.cid.dom(b.parentStateRoot) && p.cid.dom(b.parentMessageReceipts) && p.cid.dom(b.messages)
    && (b.blsAggregate.Some? ==> p.signature.dom(b.blsAggregate.value))
    && (b.blockSig.Some? ==> p.signature.dom(b.blockSig.value))
  }

  lemma HeaderDomain(p: Base, b: BlockHeader)
    ensures HeaderCodec(p).dom(b) <==> ReadableHeader(p, b)
  {
    hide ClaimCodec, LineageCodec;
    var (claim, (lineage, (roots, seal))) := TupleOf(b);
    ClaimDomain(p, claim);
    LineageDomain(p, lineage);
    assert HeaderCodec(p).dom(b)
        == (ClaimCodec(p).dom(claim) && LineageCodec(p).dom(lineage)
            && RootsCodec(p).dom(roots) && SealCodec(p).dom(seal));
  }

  lemma LineageDomain(p: Base, l: Lineage)
    ensures LineageCodec(p).dom(l) <==>
      && (forall i :: 0 <= i < |l.0| ==> p.postProof.dom(l.0[i]))
      && (forall i :: 0 <= i < |l.1.0| ==> p.cid.dom(l.1.0[i]))
      && p.bigInt.dom(l.1.1.0)
  {}

  lemma ClaimDomain(p: Base, c: Claim)
    ensures ClaimCodec(p).dom(c) <==> p.addr.dom(c.0)
  {}

  // ----- messages -----

  type Envelope = (uint64, (Addr, (Addr, (uint64, BigInt))))
  type Terms = (int64, (BigInt, (BigInt, (uint64, Bytes))))

  function EnvelopeCodec(p: Base): Codec<Envelope> {
    Both(Arg(UNSIGNED), Both(p.addr, Both(p.addr, Both(Arg(UNSIGNED), p.bigInt))))
  }

  lemma EnvelopeLawful(p: Base)
    requires MessageBaseLawful(p)
    ensures Lawful(EnvelopeCodec(p))
    ensures MessageBaseCanonical(p) ==> Canonical(EnvelopeCodec(p))
  {
    hide Lawful, Canonical, Total, NeverNull, RefusesNull, Both, Arg;
    ArgLawful(UNSIGNED);
    BothLawful(Arg(UNSIGNED), p.bigInt);
    BothLawful(p.addr, Both(Arg(UNSIGNED), p.bigInt));
    BothLawful(p.addr, Both(p.addr, Both(Arg(UNSIGNED), p.bigInt)));
    BothLawful(Arg(UNSIGNED), Both(p.addr, Both(p.addr, Both(Arg(UNSIGNED), p.bigInt))));
  }

  function TermsCodec(p: Base): Codec<Terms> {
    Both(Int64(), Both(p.bigInt, Both(p.bigInt, Both(Arg(UNSIGNED), Blob(BYTE_STRING, p.byteArrayMaxLen)))))
  }

  lemma TermsLawful(p: Base)
    requires MessageBaseLawful(p)
    ensures Lawful(TermsCodec(p))
    ensures MessageBaseCanonical(p) ==> Canonical(TermsCodec(p))
  {
    hide Lawful, Canonical, Total, NeverNull, RefusesNull, Both, Arg, Blob, Int64;
    var blob := Blob(BYTE_STRING, p.byteArrayMaxLen);
    Int64Lawful();
    ArgLawful(UNSIGNED);
    BlobLawful(BYTE_STRING, p.byteArrayMaxLen);
    BothLawful(Arg(UNSIGNED), blob);
    BothLawful(p.bigInt, Both(Arg(UNSIGNED), blob));
    BothLawful(p.bigInt, Both(p.bigInt, Both(Arg(UNSIGNED), blob)));
    BothLawful(Int64(), Both(p.bigInt, Both(p.bigInt, Both(Arg(UNSIGNED), blob))));
  }

  function MessageOf(t: (Envelope, Terms)): Message {
    var (envelope, terms) := t;
    Message(envelope.0, envelope.1.0, envelope.1.1.0, envelope.1.1.1.0, envelope.1.1.1.1,
            terms.0, terms.1.0, terms.1.1.0, terms.1.1.1.0, terms.1.1.1.1)
  }

  function PartsOf(m: Message): (Envelope, Terms) {
    ((m.version, (m.to, (m.from, (m.nonce, m.value)))),
     (m.gasLimit, (m.gasFeeCap, (m.gasPremium, (m.methodNum, m.params)))))
  }

  function MessageCodec(p: Base): Codec<Message> {
    Via(Fields(10, Both(EnvelopeCodec(p), TermsCodec(p))), MessageOf, PartsOf)
  }

  lemma MessageLawful(p: Base)
    requires MessageBaseLawful(p)
    ensures Lawful(MessageCodec(p))
    ensures NeverNull(MessageCodec(p)) && RefusesNull(MessageCodec(p))
    ensures MessageBaseCanonical(p) ==> Canonical(MessageCodec(p))
  {
    hide Lawful, Canonical, Total, NeverNull, RefusesNull, Both, Fields, Via, EnvelopeCodec, TermsCodec;
    EnvelopeLawful(p);
    TermsLawful(p);
    BothLawful(EnvelopeCodec(p), TermsCodec(p));
    FieldsLawful(10, Both(EnvelopeCodec(p), TermsCodec(p)));
    ViaLawful(Fields(10, Both(EnvelopeCodec(p), TermsCodec(p))), MessageOf, PartsOf);
  }

  function SignedMessageCodec(p: Base): Codec<SignedMessage> {
    Via(Fields(2, Both(MessageCodec(p), p.signature)),
        (t: (Message, Signature)) => SignedMessage(t.0, t.1), (m: SignedMessage) => (m.message, m.signature))
  }

  lemma SignedMessageLawful(p: Base)
    requires SignedBaseLawful(p)
    ensures Lawful(SignedMessageCodec(p))
    ensures NeverNull(SignedMessageCodec(p)) && RefusesNull(SignedMessageCodec(p))
    ensures SignedBaseCanonical(p) ==> Canonical(SignedMessageCodec(p))
  {
    hide Lawful, Canonical, Total, NeverNull, RefusesNull, Both, Fields, Via, MessageCodec;
    MessageLawful(p);
    BothLawful(MessageCodec(p), p.signature);
    FieldsLawful(2, Both(MessageCodec(p), p.signature));
    ViaLawful(Fields(2, Both(MessageCodec(p), p.signature)),
              (t: (Message, Signature)) => SignedMessage(t.0, t.1), (m: SignedMessage) => (m.message, m.signature));
  }

  predicate ReadableMessage(p: Base, m: Message) {
    && p.addr.dom(m.to) && p.addr.dom(m.from)
    && p.bigInt.dom(m.value) && p.bigInt.dom(m.gasFeeCap) && p.bigInt.dom(m.gasPremium)
  }

  lemma MessageDomain(p: Base, m: Message)
    ensures MessageCodec(p).dom(m) <==> ReadableMessage(p, m)
  {
    var (envelope, terms) := PartsOf(m);
    assert EnvelopeCodec(p).dom(envelope) == (p.addr.dom(m.to) && p.addr.dom(m.from) && p.bigInt.dom(m.value));
    assert TermsCodec(p).dom(terms) == (p.bigInt.dom(m.gasFeeCap) && p.bigInt.dom(m.gasPremium));
    hide EnvelopeCodec, TermsCodec;
    assert MessageCodec(p).dom(m) == (EnvelopeCodec(p).dom(envelope) && TermsCodec(p).dom(terms));
  }

  predicate ReadableSignedMessage(p: Base, m: SignedMessage) {
    ReadableMessage(p, m.message) && p.signature.dom(m.signature)
  }

  lemma SignedMessageDomain(p: Base, m: SignedMessage)
    ensures SignedMessageCodec(p).dom(m) <==> ReadableSignedMessage(p, m)
  {
    hide MessageCodec;
    MessageDomain(p, m.message);
  }
}
