/** The tuple encodings of chain exchange requests and responses. */
module CborExchange {
  import opened Common
  import opened ChainTypes
  import opened Cbor
  import opened CborChain

  function Includes(p: Base): Codec<seq<seq<uint64>>> {
    Slice(p.maxLength, Slice(p.maxLength, Arg(UNSIGNED)))
  }

  lemma IncludesLawful(p: Base)
    ensures Lawful(Includes(p)) && Canonical(Includes(p)) && Total(Includes(p))
  {
    hide Lawful, Canonical, Total, NeverNull, RefusesNull, Slice, Arg;
    ArgLawful(UNSIGNED);
    SliceLawful(p.maxLength, Arg(UNSIGNED));
    SliceLawful(p.maxLength, Slice(p.maxLength, Arg(UNSIGNED)));
  }

  type CompactedTuple =
    (seq<Option<Message>>, (seq<seq<uint64>>, (seq<Option<SignedMessage>>, seq<seq<uint64>>)))

  function CompactedTupleCodec(p: Base): Codec<CompactedTuple> {
    Both(Slice(p.maxLength, Element(MessageCodec(p))), CompactedRest(p))
  }

  function CompactedRest(p: Base): Codec<(seq<seq<uint64>>, (seq<Option<SignedMessage>>, seq<seq<uint64>>))> {
    Both(Includes(p), Both(Slice(p.maxLength, Element(SignedMessageCodec(p))), Includes(p)))
  }

  function CompactedOf(t: CompactedTuple): CompactedMessages {
    CompactedMessages(t.0, t.1.0, t.1.1.0, t.1.1.1)
  }

  function CompactedParts(m: CompactedMessages): CompactedTuple {
    (m.bls, (m.blsIncludes, (m.secpk, m.secpkIncludes)))
  }

  function CompactedCodec(p: Base): Codec<CompactedMessages> {
    Via(Fields(4, CompactedTupleCodec(p)), CompactedOf, CompactedParts)
  }

  lemma CompactedLawful(p: Base)
    requires SignedBaseLawful(p)
    ensures Lawful(CompactedCodec(p)) && NeverNull(CompactedCodec(p)) && RefusesNull(CompactedCodec(p))
    ensures SignedBaseCanonical(p) ==> Canonical(CompactedCodec(p))
  {
    hide Lawful, Canonical, Total, NeverNull, RefusesNull;
    hide Both, Fields, Via, Slice, Element, MessageCodec, SignedMessageCodec, Includes;
    MessageLawful(p);
    SignedMessageLawful(p);
    IncludesLawful(p);
    ElementLawful(MessageCodec(p));
    ElementLawful(SignedMessageCodec(p));
    var bls := Slice(p.maxLength, Element(MessageCodec(p)));
    var secpk := Slice(p.maxLength, Element(SignedMessageCodec(p)));
    SliceLawful(p.maxLength, Element(MessageCodec(p)));
    SliceLawful(p.maxLength, Element(SignedMessageCodec(p)));
    BothLawful(secpk, Includes(p));
    BothLawful(Includes(p), Both(secpk, Includes(p)));
    BothLawful(bls, Both(Includes(p), Both(secpk, Includes(p))));
    FieldsLawful(4, CompactedTupleCodec(p));
    ViaLawful(Fields(4, CompactedTupleCodec(p)), CompactedOf, CompactedParts);
  }

  function TipSetTupleCodec(p: Base): Codec<(seq<Option<BlockHeader>>, Option<CompactedMessages>)> {
    Both(Slice(p.maxLength, Element(HeaderCodec(p))), Pointer(CompactedCodec(p)))
  }

  function BSTipSetOf(t: (seq<Option<BlockHeader>>, Option<CompactedMessages>)): BSTipSet {
    BSTipSet(t.0, t.1)
  }

  function BSTipSetParts(s: BSTipSet): (seq<Option<BlockHeader>>, Option<CompactedMessages>) {
    (s.blocks, s.messages)
  }

  function BSTipSetCodec(p: Base): Codec<BSTipSet> {
    Via(Fields(2, TipSetTupleCodec(p)), BSTipSetOf, BSTipSetParts)
  }

  lemma BSTipSetLawful(p: Base)
    requires BaseLawful(p)
    ensures Lawful(BSTipSetCodec(p)) && NeverNull(BSTipSetCodec(p)) && RefusesNull(BSTipSetCodec(p))
    ensures BaseCanonical(p) ==> Canonical(BSTipSetCodec(p))
  {
    hide Lawful, Canonical, Total, NeverNull, RefusesNull;
    hide Both, Fields, Via, Slice, Element, Pointer, HeaderCodec, CompactedCodec;
    HeaderLawful(p);
    CompactedLawful(p);
    ElementLawful(HeaderCodec(p));
    SliceLawful(p.maxLength, Element(HeaderCodec(p)));
    PointerLawful(CompactedCodec(p));
    BothLawful(Slice(p.maxLength, Element(HeaderCodec(p))), Pointer(CompactedCodec(p)));
    FieldsLawful(2, TipSetTupleCodec(p));
    ViaLawful(Fields(2, TipSetTupleCodec(p)), BSTipSetOf, BSTipSetParts);
  }

  function SyncTupleCodec(p: Base): Codec<(seq<Cid>, (uint64, uint64))> {
    Both(Slice(p.maxLength, p.cid), Both(Arg(UNSIGNED), Arg(UNSIGNED)))
  }

  function SyncOf(t: (seq<Cid>, (uint64, uint64))): SyncMessage {
    SyncMessage(t.0, t.1.0, t.1.1)
  }

  function SyncParts(m: SyncMessage): (seq<Cid>, (uint64, uint64)) {
    (m.head, (m.length, m.options))
  }

  function SyncMessageCodec(p: Base): Codec<SyncMessage> {
    Via(Fields(3, SyncTupleCodec(p)), SyncOf, SyncParts)
  }

  lemma SyncMessageLawful(p: Base)
    requires Lawful(p.cid)
    ensures Lawful(SyncMessageCodec(p))
    ensures Canonical(p.cid) ==> Canonical(SyncMessageCodec(p))
  {
    hide Lawful, Canonical, Total, NeverNull, RefusesNull;
    hide Both, Fields, Via, Slice, Arg;
    ArgLawful(UNSIGNED);
    SliceLawful(p.maxLength, p.cid);
    BothLawful(Arg(UNSIGNED), Arg(UNSIGNED));
    BothLawful(Slice(p.maxLength, p.cid), Both(Arg(UNSIGNED), Arg(UNSIGNED)));
    FieldsLawful(3, SyncTupleCodec(p));
    ViaLawful(Fields(3, SyncTupleCodec(p)), SyncOf, SyncParts);
  }

  function ChainTupleCodec(p: Base): Codec<(uint64, (Bytes, seq<Option<BSTipSet>>))> {
    Both(Arg(UNSIGNED), Both(Blob(TEXT_STRING, p.maxLength), Slice(p.maxLength, Element(BSTipSetCodec(p)))))
  }

  function ChainOf(t: (uint64, (Bytes, seq<Option<BSTipSet>>))): ChainMessage {
    ChainMessage(t.0, t.1.0, t.1.1)
  }

  function ChainParts(m: ChainMessage): (uint64, (Bytes, seq<Option<BSTipSet>>)) {
    (m.status, (m.errorMessage, m.chain))
  }

  function ChainMessageCodec(p: Base): Codec<ChainMessage> {
    Via(Fields(3, ChainTupleCodec(p)), ChainOf, ChainParts)
  }

  lemma ChainMessageLawful(p: Base)
    requires BaseLawful(p)
    ensures Lawful(ChainMessageCodec(p)) && NeverNull(ChainMessageCodec(p)) && RefusesNull(ChainMessageCodec(p))
    ensures BaseCanonical(p) ==> Canonical(ChainMessageCodec(p))
  {
    hide Lawful, Canonical, Total, NeverNull, RefusesNull;
    hide Both, Fields, Via, Slice, Element, Blob, Arg, BSTipSetCodec;
    var text, tipsets := Blob(TEXT_STRING, p.maxLength), Slice(p.maxLength, Element(BSTipSetCodec(p)));
    BSTipSetLawful(p);
    ArgLawful(UNSIGNED);
    BlobLawful(TEXT_STRING, p.maxLength);
    ElementLawful(BSTipSetCodec(p));
    SliceLawful(p.maxLength, Element(BSTipSetCodec(p)));
    BothLawful(text, tipsets);
    BothLawful(Arg(UNSIGNED), Both(text, tipsets));
    FieldsLawful(3, ChainTupleCodec(p));
    ViaLawful(Fields(3, ChainTupleCodec(p)), ChainOf, ChainParts);
  }

  // ----- what the laws come to -----

  /** Elements that are not nil and can be read. */
  predicate AllReadable<T>(dom: T -> bool, xs: seq<Option<T>>) {
    forall i :: 0 <= i < |xs| ==> xs[i].Some? && dom(xs[i].value)
  }

  predicate ReadableCompacted(p: Base, m: CompactedMessages) {
    && AllReadable((x: Message) => ReadableMessage(p, x), m.bls)
    && AllReadable((x: SignedMessage) => ReadableSignedMessage(p, x), m.secpk)
  }

  predicate ReadableTipSet(p: Base, s: BSTipSet) {
    && AllReadable((x: BlockHeader) => ReadableHeader(p, x), s.blocks)
    && (s.messages.Some? ==> ReadableCompacted(p, s.messages.value))
  }

  /**
   * What a response must be to come back: no pointer slice, at any depth, has a nil element, and the
   * values that other packages define are ones that their readers take.
   */
  predicate Readable(p: Base, m: ChainMessage) {
    AllReadable((x: BSTipSet) => ReadableTipSet(p, x), m.chain)
  }

  lemma ElementsDomain<T(!new)>(p: Base, c: Codec<T>, dom: T -> bool, xs: seq<Option<T>>)
    requires forall x :: c.dom(x) == dom(x)
    ensures Slice(p.maxLength, Element(c)).dom(xs) <==> AllReadable(dom, xs)
  {}

  lemma CompactedDomain(p: Base, m: CompactedMessages)
    ensures CompactedCodec(p).dom(m) <==> ReadableCompacted(p, m)
  {
    hide MessageCodec, SignedMessageCodec, Includes, Slice, Element, AllReadable;
    hide Lawful, Canonical, ReadableMessage, ReadableSignedMessage;
    IncludesLawful(p);
    TotalAt(Includes(p), m.blsIncludes);
    TotalAt(Includes(p), m.secpkIncludes);
    forall x: Message
      ensures MessageCodec(p).dom(x) == ReadableMessage(p, x)
    {
      MessageDomain(p, x);
    }
    forall x: SignedMessage
      ensures SignedMessageCodec(p).dom(x) == ReadableSignedMessage(p, x)
    {
      SignedMessageDomain(p, x);
    }
    ElementsDomain(p, MessageCodec(p), (x: Message) => ReadableMessage(p, x), m.bls);
    ElementsDomain(p, SignedMessageCodec(p), (x: SignedMessage) => ReadableSignedMessage(p, x), m.secpk);
    assert CompactedCodec(p).dom(m) == CompactedTupleCodec(p).dom(CompactedParts(m));
  }

  lemma TotalAt<T(!new)>(c: Codec<T>, x: T)
    requires Total(c)
    ensures c.dom(x)
  {}

  lemma TipSetDomain(p: Base, s: BSTipSet)
    ensures BSTipSetCodec(p).dom(s) <==> ReadableTipSet(p, s)
  {
    hide HeaderCodec, CompactedCodec, Slice, Element, AllReadable, ReadableHeader, ReadableCompacted;
    forall x: BlockHeader
      ensures HeaderCodec(p).dom(x) == ReadableHeader(p, x)
    {
      HeaderDomain(p, x);
    }
    ElementsDomain(p, HeaderCodec(p), (x: BlockHeader) => ReadableHeader(p, x), s.blocks);
    if s.messages.Some? {
      CompactedDomain(p, s.messages.value);
    }
    assert BSTipSetCodec(p).dom(s) == TipSetTupleCodec(p).dom(BSTipSetParts(s));
  }

  lemma ChainDomain(p: Base, m: ChainMessage)
    ensures ChainMessageCodec(p).dom(m) <==> Readable(p, m)
  {
    hide BSTipSetCodec, Slice, Element, AllReadable, ReadableTipSet, Arg, Blob, Lawful, Canonical;
    forall x: BSTipSet
      ensures BSTipSetCodec(p).dom(x) == ReadableTipSet(p, x)
    {
      TipSetDomain(p, x);
    }
    ElementsDomain(p, BSTipSetCodec(p), (x: BSTipSet) => ReadableTipSet(p, x), m.chain);
    ArgLawful(UNSIGNED);
    BlobLawful(TEXT_STRING, p.maxLength);
    TotalAt(Arg(UNSIGNED), m.status);
    TotalAt(Blob(TEXT_STRING, p.maxLength), m.errorMessage);
    assert ChainMessageCodec(p).dom(m) == ChainTupleCodec(p).dom(ChainParts(m));
  }

  lemma SyncDomain(p: Base, m: SyncMessage)
    ensures SyncMessageCodec(p).dom(m) <==> forall i :: 0 <= i < |m.head| ==> p.cid.dom(m.head[i])
  {
    var head := Slice(p.maxLength, p.cid);
    assert head.dom(m.head) <==> forall i :: 0 <= i < |m.head| ==> p.cid.dom(m.head[i]);
    hide Slice, Arg;
    ArgLawful(UNSIGNED);
    TotalAt(Arg(UNSIGNED), m.length);
    TotalAt(Arg(UNSIGNED), m.options);
    assert SyncMessageCodec(p).dom(m) == SyncTupleCodec(p).dom(SyncParts(m));
  }

  predicate NoNilInCompacted(m: CompactedMessages) {
    NoNil(m.bls) && NoNil(m.secpk)
  }

  predicate NoNilInTipSet(s: BSTipSet) {
    NoNil(s.blocks) && (s.messages.Some? ==> NoNilInCompacted(s.messages.value))
  }

  /** None of the pointer slices of a response, at any depth, has a nil element. */
  predicate NoNilElements(m: ChainMessage) {
    forall i :: 0 <= i < |m.chain| ==> m.chain[i].Some? && NoNilInTipSet(m.chain[i].value)
  }

  /** Where every value of the parts can be read, nil elements are all that can be wrong. */
  lemma ReadableIffNoNil(p: Base, m: ChainMessage)
    ensures Readable(p, m) ==> NoNilElements(m)
    ensures Total(p.addr) && Total(p.cid) && Total(p.bigInt) && Total(p.signature) && Total(p.postProof) ==>
      (Readable(p, m) <==> NoNilElements(m))
  {
    if Total(p.addr) && Total(p.cid) && Total(p.bigInt) && Total(p.signature) && Total(p.postProof) {
      assert forall b :: ReadableHeader(p, b);
      assert forall x :: ReadableMessage(p, x);
      assert forall x :: ReadableSignedMessage(p, x);
    }
  }

  /**
   * Whatever follows it on the wire, a response that can be marshalled is read back as itself,
   * leaving exactly what followed, if it is readable; any other is refused.
   */
  lemma ResponseRoundTrip(p: Base, m: ChainMessage, rest: Bytes)
    requires BaseLawful(p) && ChainMessageCodec(p).enc(m).Some?
    ensures ChainMessageCodec(p).dec(ChainMessageCodec(p).enc(m).value + rest)
         == if Readable(p, m) then Some((m, rest)) else None
  {
    hide ChainMessageCodec, Readable;
    ChainMessageLawful(p);
    ChainDomain(p, m);
  }

  /**
   * Where the parts have one encoding each, so have responses: what is read has no nil element and is
   * what it would be printed as.
   */
  lemma ResponseIsCanonical(p: Base, b: Bytes)
    requires BaseLawful(p) && BaseCanonical(p) && ChainMessageCodec(p).dec(b).Some?
    ensures var (m, rest) := ChainMessageCodec(p).dec(b).value;
            Readable(p, m) && ChainMessageCodec(p).enc(m).Some? && b == ChainMessageCodec(p).enc(m).value + rest
  {
    hide ChainMessageCodec, Readable, BaseCanonical;
    ChainMessageLawful(p);
    ChainDomain(p, ChainMessageCodec(p).dec(b).value.0);
  }

  /** Encodings of responses that can be read are injective and prefix-free. */
  lemma ResponsesArePrefixFree(p: Base, m: ChainMessage, m': ChainMessage, rest: Bytes)
    requires BaseLawful(p) && Readable(p, m)
    requires ChainMessageCodec(p).enc(m).Some? && ChainMessageCodec(p).enc(m').Some?
    requires ChainMessageCodec(p).enc(m').value == ChainMessageCodec(p).enc(m).value + rest
    ensures m == m' && rest == []
  {
    hide ChainMessageCodec, Readable;
    ChainMessageLawful(p);
    ChainDomain(p, m);
    PrefixFree(ChainMessageCodec(p), m, m', rest);
  }
}
