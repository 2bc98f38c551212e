/**
 * What goes over the wire, byte for byte: the head of each tuple and then its fields, each by its name on
 * the record, in the order they are written.
 */
module CborLayout {
  import opened Common
  import opened ChainTypes
  import opened Cbor
  import opened CborChain
  import opened CborExchange
  import opened CborWriting

  // ----- heads and plain values -----

  /** Bytes as one number, the highest first. */
  function Two(a: int, b: int): int {
    a * 0x100 + b
  }

  function Four(a: int, b: int, c: int, d: int): int {
    Two(a, b) * 0x1_0000 + Two(c, d)
  }

  /** A head in numbers: major type and size in the first byte, the argument behind it, highest byte first. */
  lemma HeadBytes(major: Major, arg: uint64)
    ensures var b := EncHead(major, arg);
      && (arg < 24 ==> b == [major * 32 + arg])
      && (24 <= arg < 0x100 ==> b == [major * 32 + 24, arg])
      && (0x100 <= arg < 0x1_0000 ==> |b| == 3 && b[0] == major * 32 + 25 && Two(b[1], b[2]) == arg)
      && (0x1_0000 <= arg < 0x1_0000_0000 ==>
            |b| == 5 && b[0] == major * 32 + 26 && Four(b[1], b[2], b[3], b[4]) == arg)
      && (0x1_0000_0000 <= arg ==>
            |b| == 9 && b[0] == major * 32 + 27
            && Four(b[1], b[2], b[3], b[4]) * 0x1_0000_0000 + Four(b[5], b[6], b[7], b[8]) == arg)
  {
    if arg < 0x100 {
      OneByte(arg);
    }
    TwoBytes(arg);
    FourBytes(arg);
    var high := arg / 0x1_0000_0000;
    FourBytes(high);
    EightBytes(arg);
  }

  lemma OneByte(v: nat)
    requires v < 0x100
    ensures ToBytes(1, v) == [v]
  {
    assert ToBytes(0, v / 256) == [];
  }

  lemma LastByte(k: nat, v: nat)
    requires k > 0
    ensures ToBytes(k, v) == ToBytes(k - 1, v / 256) + [v % 256]
  {}

  lemma TwoBytes(v: nat)
    ensures |ToBytes(2, v)| == 2
    ensures v < 0x1_0000 ==> Two(ToBytes(2, v)[0], ToBytes(2, v)[1]) == v
  {
    if v < 0x1_0000 {
      LastByte(2, v);
      OneByte(v / 256);
    }
  }

  lemma FourBytes(v: nat)
    ensures |ToBytes(4, v)| == 4
    ensures v < 0x1_0000_0000 ==>
      var b := ToBytes(4, v);
      Four(b[0], b[1], b[2], b[3]) == v
  {
    if v < 0x1_0000_0000 {
      LastByte(4, v);
      LastByte(3, v / 256);
      TwoBytes(v / 256 / 256);
    }
  }

  lemma EightBytes(v: nat)
    requires v < TWO_64
    ensures var b := ToBytes(8, v);
            |b| == 8 && b[..4] == ToBytes(4, v / 0x1_0000_0000)
            && Four(b[4], b[5], b[6], b[7]) == v % 0x1_0000_0000
  {
    var v1 := v / 256;
    var v2 := v1 / 256;
    var v3 := v2 / 256;
    var v4 := v3 / 256;
    LastByte(8, v);
    LastByte(7, v1);
    LastByte(6, v2);
    LastByte(5, v3);
    assert v4 == v / 0x1_0000_0000;
    assert ToBytes(8, v) == ToBytes(4, v4) + [v3 % 256, v2 % 256, v1 % 256, v % 256];
  }

  /** What a value is written as, where it can be written at all. */
  function Printed<T>(c: Codec<T>, x: T): Bytes {
    if c.enc(x).Some? then c.enc(x).value else []
  }

  /** A signed number: major type 0, or 1 with one less than its absolute value. */
  function IntBytes(x: int64): Bytes {
    if x >= 0 then EncHead(0, x) else EncHead(1, -1 - x)
  }

  lemma Int64Layout(x: int64)
    ensures EncInt64(x) == IntBytes(x)
  {
    hide EncHead, NegativeArg;
    if x < 0 {
      NegativeArgExact(x);
    }
  }

  /** A byte string, major type 2, or a text, major type 3. */
  function StringBytes(major: Major, s: Bytes): Bytes
    requires |s| < TWO_64
  {
    EncHead(major, |s|) + s
  }

  lemma BlobLayout(major: Major, max: uint64, s: Bytes)
    ensures EncBlob(major, max, s).Some? <==> |s| <= max
    ensures |s| <= max ==> Printed(Blob(major, max), s) == StringBytes(major, s)
  {}

  /** A pointer: the null byte for none. */
  function PointerBytes<T>(c: Codec<T>, x: Option<T>): Bytes {
    if x.None? then [0xf6] else Printed(c, x.value)
  }

  predicate PointerWrites<T>(c: Codec<T>, x: Option<T>) {
    x.Some? ==> c.enc(x.value).Some?
  }

  lemma PointerLayout<T>(c: Codec<T>, x: Option<T>)
    ensures Pointer(c).enc(x).Some? <==> PointerWrites(c, x)
    ensures Element(c).enc(x).Some? <==> PointerWrites(c, x)
    ensures PointerWrites(c, x) ==> Printed(Pointer(c), x) == PointerBytes(c, x)
    ensures PointerWrites(c, x) ==> Printed(Element(c), x) == PointerBytes(c, x)
  {}

  /** Byte strings one after the other. */
  function Flat(s: seq<Bytes>): Bytes {
    if s == [] then [] else Flat(s[..|s| - 1]) + s[|s| - 1]
  }

  /** A list: how many elements, and then each of them in order. */
  function ListBytes<T>(c: Codec<T>, xs: seq<T>): Bytes
    requires |xs| < TWO_64
  {
    EncHead(4, |xs|) + Flat(Map((x: T) => Printed(c, x), xs))
  }

  predicate ListWrites<T>(max: uint64, c: Codec<T>, xs: seq<T>) {
    |xs| <= max && forall i :: 0 <= i < |xs| ==> c.enc(xs[i]).Some?
  }

  lemma ListLayout<T>(max: uint64, c: Codec<T>, xs: seq<T>)
    ensures Slice(max, c).enc(xs).Some? <==> ListWrites(max, c, xs)
    ensures ListWrites(max, c, xs) ==> Printed(Slice(max, c), xs) == ListBytes(c, xs)
  {
    hide EncHead, EncAll, Flat, Map;
    AllLayout(c, xs);
  }

  lemma AllLayout<T>(c: Codec<T>, xs: seq<T>)
    ensures EncAll(c, xs).Some? <==> forall i :: 0 <= i < |xs| ==> c.enc(xs[i]).Some?
    ensures EncAll(c, xs).Some? ==> EncAll(c, xs).value == Flat(Map((x: T) => Printed(c, x), xs))
  {
    hide EncAll, Flat, Map;
    AllWrites(c, xs);
    if EncAll(c, xs).Some? {
      AllBytes(c, (x: T) => Printed(c, x), xs);
    }
  }

  lemma {:induction false} AllWrites<T>(c: Codec<T>, xs: seq<T>)
    ensures EncAll(c, xs).Some? <==> forall i :: 0 <= i < |xs| ==> c.enc(xs[i]).Some?
  {
    if xs != [] {
      AllWrites(c, xs[1..]);
      assert xs == [xs[0]] + xs[1..];
    }
  }

  lemma {:induction false} AllBytes<T>(c: Codec<T>, f: T -> Bytes, xs: seq<T>)
    requires EncAll(c, xs).Some? && forall x :: f(x) == Printed(c, x)
    ensures EncAll(c, xs).value == Flat(Map(f, xs))
  {
    hide Flat;
    if xs == [] {
      FlatNone();
    } else {
      AllBytes(c, f, xs[1..]);
      assert Map(f, xs) == [f(xs[0])] + Map(f, xs[1..]);
      FlatFirst(f(xs[0]), Map(f, xs[1..]));
    }
  }

  lemma FlatNone()
    ensures Flat([]) == []
  {}

  lemma {:induction false} FlatFirst(b: Bytes, s: seq<Bytes>)
    ensures Flat([b] + s) == b + Flat(s)
  {
    if s == [] {
      assert [b][..0] == [];
    } else {
      var n := |s| - 1;
      assert ([b] + s)[..n + 1] == [b] + s[..n];
      FlatFirst(b, s[..n]);
    }
  }

  // ----- tickets, proofs, beacon entries -----

  lemma TicketLayout(p: Base, t: Ticket)
    ensures TicketCodec(p).enc(t).Some? <==> |t.vrfProof| <= p.byteArrayMaxLen
    ensures TicketCodec(p).enc(t).Some? ==>
      TicketCodec(p).enc(t).value == [129] + StringBytes(2, t.vrfProof)
  {
    hide EncBlob, StringBytes;
    BlobLayout(2, p.byteArrayMaxLen, t.vrfProof);
    HeadBytes(ARRAY, 1);
  }

  lemma ElectionProofLayout(p: Base, e: ElectionProof)
    ensures ElectionProofCodec(p).enc(e).Some? <==> |e.vrfProof| <= p.byteArrayMaxLen
    ensures ElectionProofCodec(p).enc(e).Some? ==>
      ElectionProofCodec(p).enc(e).value == [130] + IntBytes(e.winCount) + StringBytes(2, e.vrfProof)
  {
    hide EncBlob, EncHead, EncInt64, IntBytes, StringBytes;
    BlobLayout(2, p.byteArrayMaxLen, e.vrfProof);
    Int64Layout(e.winCount);
    HeadBytes(ARRAY, 2);
    if |e.vrfProof| <= p.byteArrayMaxLen {
      Regroup([130], IntBytes(e.winCount), StringBytes(2, e.vrfProof));
    }
  }

  lemma BeaconEntryLayout(p: Base, e: BeaconEntry)
    ensures BeaconEntryCodec(p).enc(e).Some? <==> |e.data| <= p.byteArrayMaxLen
    ensures BeaconEntryCodec(p).enc(e).Some? ==>
      BeaconEntryCodec(p).enc(e).value == [130] + EncHead(0, e.round) + StringBytes(2, e.data)
  {
    hide EncBlob, EncHead, StringBytes;
    BlobLayout(2, p.byteArrayMaxLen, e.data);
    HeadBytes(ARRAY, 2);
    if |e.data| <= p.byteArrayMaxLen {
      Regroup([130], EncHead(0, e.round), StringBytes(2, e.data));
    }
  }

  // ----- messages -----

  predicate MessageWrites(p: Base, m: Message) {
    && p.addr.enc(m.to).Some? && p.addr.enc(m.from).Some? && p.bigInt.enc(m.value).Some?
    && p.bigInt.enc(m.gasFeeCap).Some? && p.bigInt.enc(m.gasPremium).Some? && |m.params| <= p.byteArrayMaxLen
  }

  function MessageBytes(p: Base, m: Message): Bytes
    requires |m.params| < TWO_64
  {
    [138] + EncHead(0, m.version) + Printed(p.addr, m.to) + Printed(p.addr, m.from) + EncHead(0, m.nonce)
    + Printed(p.bigInt, m.value) + IntBytes(m.gasLimit) + Printed(p.bigInt, m.gasFeeCap)
    + Printed(p.bigInt, m.gasPremium) + EncHead(0, m.methodNum) + StringBytes(2, m.params)
  }

  lemma MessageLayout(p: Base, m: Message)
    ensures MessageCodec(p).enc(m).Some? <==> MessageWrites(p, m)
    ensures MessageWrites(p, m) ==> MessageCodec(p).enc(m).value == MessageBytes(p, m)
  {
    hide EncBlob, EncHead, EncInt64, IntBytes, StringBytes, Both, Fields;
    var (envelope, terms) := PartsOf(m);
    var blob := Blob(2, p.byteArrayMaxLen);
    HeadBytes(ARRAY, 10);
    BlobLayout(2, p.byteArrayMaxLen, m.params);
    Int64Layout(m.gasLimit);
    Starts(10, Both(EnvelopeCodec(p), TermsCodec(p)), (envelope, terms), 138);
    Row2([138], EnvelopeCodec(p), TermsCodec(p), (envelope, terms));
    Row5([138], Arg(0), p.addr, p.addr, Arg(0), p.bigInt, envelope);
    if EnvelopeCodec(p).enc(envelope).Some? {
      Row5([138] + EnvelopeCodec(p).enc(envelope).value, Int64(), p.bigInt, p.bigInt, Arg(0), blob, terms);
    }
  }

  /** A tuple starts with its head byte, and goes on with its fields. */
  lemma Starts<A>(n: uint64, c: Codec<A>, x: A, first: byte)
    requires n < 24 && first == 128 + n
    ensures Fields(n, c).enc(x).Some? <==> c.enc(x).Some?
    ensures c.enc(x).Some? ==> Fields(n, c).enc(x).value == [first] + c.enc(x).value
  {
    HeadBytes(ARRAY, n);
  }

  lemma SignedMessageLayout(p: Base, m: SignedMessage)
    ensures SignedMessageCodec(p).enc(m).Some? <==> MessageWrites(p, m.message) && p.signature.enc(m.signature).Some?
    ensures SignedMessageCodec(p).enc(m).Some? ==>
      SignedMessageCodec(p).enc(m).value == [130] + MessageBytes(p, m.message) + Printed(p.signature, m.signature)
  {
    hide MessageCodec, MessageWrites, MessageBytes, Both, Fields;
    MessageLayout(p, m.message);
    Starts(2, Both(MessageCodec(p), p.signature), (m.message, m.signature), 130);
    Row2([130], MessageCodec(p), p.signature, (m.message, m.signature));
  }

  // ----- block headers -----

  predicate HeaderWrites(p: Base, b: BlockHeader) {
    && p.addr.enc(b.miner).Some?
    && (b.ticket.Some? ==> |b.ticket.value.vrfProof| <= p.byteArrayMaxLen)
    && (b.electionProof.Some? ==> |b.electionProof.value.vrfProof| <= p.byteArrayMaxLen)
    && ListWrites(p.maxLength, BeaconEntryCodec(p), b.beaconEntries)
    && ListWrites(p.maxLength, p.postProof, b.winPoStProof) && ListWrites(p.maxLength, p.cid, b.parents)
    && p.bigInt.enc(b.parentWeight).Some?
    && p.cid.enc(b.parentStateRoot).Some? && p.cid.enc(b.parentMessageReceipts).Some?
    && p.cid.enc(b.messages).Some?
    && PointerWrites(p.signature, b.blsAggregate) && PointerWrites(p.signature, b.blockSig)
    && p.bigInt.enc(b.parentBaseFee).Some?
  }

  function HeaderBytes(p: Base, b: BlockHeader): Bytes
    requires |b.beaconEntries| < TWO_64 && |b.winPoStProof| < TWO_64 && |b.parents| < TWO_64
  {
    [144] + Printed(p.addr, b.miner) + PointerBytes(TicketCodec(p), b.ticket)
    + PointerBytes(ElectionProofCodec(p), b.electionProof) + ListBytes(BeaconEntryCodec(p), b.beaconEntries)
    + ListBytes(p.postProof, b.winPoStProof) + ListBytes(p.cid, b.parents)
    + Printed(p.bigInt, b.parentWeight) + IntBytes(b.height)
    + Printed(p.cid, b.parentStateRoot) + Printed(p.cid, b.parentMessageReceipts) + Printed(p.cid, b.messages)
    + PointerBytes(p.signature, b.blsAggregate)
    + EncHead(0, b.timestamp) + PointerBytes(p.signature, b.blockSig) + EncHead(0, b.forkSignaling)
    + Printed(p.bigInt, b.parentBaseFee)
  }

  lemma HeaderLayout(p: Base, b: BlockHeader)
    ensures HeaderCodec(p).enc(b).Some? <==> HeaderWrites(p, b)
    ensures HeaderWrites(p, b) ==> HeaderCodec(p).enc(b).value == HeaderBytes(p, b)
  {
    hide EncHead, IntBytes, ListBytes, PointerBytes, PointerWrites, ListWrites, Printed, Both, Fields;
    hide ClaimCodec, LineageCodec, RootsCodec, SealCodec;
    var (claim, (lineage, (roots, seal))) := TupleOf(b);
    var tail := Both(LineageCodec(p), Both(RootsCodec(p), SealCodec(p)));
    Starts(16, Both(ClaimCodec(p), tail), (claim, (lineage, (roots, seal))), 144);
    Row4([144], ClaimCodec(p), LineageCodec(p), RootsCodec(p), SealCodec(p), (claim, (lineage, (roots, seal))));
    var before: Bytes := [144];
    ClaimLayout(p, before, claim);
    if ClaimCodec(p).enc(claim).Some? {
      before := before + ClaimCodec(p).enc(claim).value;
      LineageLayout(p, before, lineage);
      if LineageCodec(p).enc(lineage).Some? {
        before := before + LineageCodec(p).enc(lineage).value;
        RootsLayout(p, before, roots);
        if RootsCodec(p).enc(roots).Some? {
          before := before + RootsCodec(p).enc(roots).value;
          SealLayout(p, before, seal);
        }
      }
    }
    TicketPointerWrites(p, b);
  }

  lemma TicketPointerWrites(p: Base, b: BlockHeader)
    ensures PointerWrites(TicketCodec(p), b.ticket)
       <==> (b.ticket.Some? ==> |b.ticket.value.vrfProof| <= p.byteArrayMaxLen)
    ensures PointerWrites(ElectionProofCodec(p), b.electionProof)
       <==> (b.electionProof.Some? ==> |b.electionProof.value.vrfProof| <= p.byteArrayMaxLen)
  {
    hide TicketCodec, ElectionProofCodec;
    if b.ticket.Some? {
      TicketLayout(p, b.ticket.value);
    }
    if b.electionProof.Some? {
      ElectionProofLayout(p, b.electionProof.value);
    }
  }

  lemma ClaimLayout(p: Base, s: Bytes, c: Claim)
    ensures var e := ClaimCodec(p).enc(c);
      && (e.Some? <==>
            && p.addr.enc(c.0).Some? && PointerWrites(TicketCodec(p), c.1.0)
            && PointerWrites(ElectionProofCodec(p), c.1.1.0)
            && ListWrites(p.maxLength, BeaconEntryCodec(p), c.1.1.1))
      && (e.Some? ==>
            s + e.value == s + Printed(p.addr, c.0) + PointerBytes(TicketCodec(p), c.1.0)
                         + PointerBytes(ElectionProofCodec(p), c.1.1.0) + ListBytes(BeaconEntryCodec(p), c.1.1.1))
  {
    hide TicketCodec, ElectionProofCodec, BeaconEntryCodec, EncHead, EncSlice, EncPointer;
    hide ListBytes, PointerBytes, PointerWrites, ListWrites, Both, Pointer, Slice;
    PointerLayout(TicketCodec(p), c.1.0);
    PointerLayout(ElectionProofCodec(p), c.1.1.0);
    ListLayout(p.maxLength, BeaconEntryCodec(p), c.1.1.1);
    Row4(s, p.addr, Pointer(TicketCodec(p)), Pointer(ElectionProofCodec(p)),
         Slice(p.maxLength, BeaconEntryCodec(p)), c);
  }

  lemma LineageLayout(p: Base, s: Bytes, l: Lineage)
    ensures var e := LineageCodec(p).enc(l);
      && (e.Some? <==>
            && ListWrites(p.maxLength, p.postProof, l.0) && ListWrites(p.maxLength, p.cid, l.1.0)
            && p.bigInt.enc(l.1.1.0).Some?)
      && (e.Some? ==>
            s + e.value == s + ListBytes(p.postProof, l.0) + ListBytes(p.cid, l.1.0)
                         + Printed(p.bigInt, l.1.1.0) + IntBytes(l.1.1.1))
  {
    hide EncHead, EncSlice, EncInt64, IntBytes, ListBytes, ListWrites, Both, Slice;
    ListLayout(p.maxLength, p.postProof, l.0);
    ListLayout(p.maxLength, p.cid, l.1.0);
    Int64Layout(l.1.1.1);
    Row4(s, Slice(p.maxLength, p.postProof), Slice(p.maxLength, p.cid), p.bigInt, Int64(), l);
  }

  lemma RootsLayout(p: Base, s: Bytes, r: Roots)
    ensures var e := RootsCodec(p).enc(r);
      && (e.Some? <==>
            && p.cid.enc(r.0).Some? && p.cid.enc(r.1.0).Some? && p.cid.enc(r.1.1.0).Some?
            && PointerWrites(p.signature, r.1.1.1))
      && (e.Some? ==>
            s + e.value == s + Printed(p.cid, r.0) + Printed(p.cid, r.1.0) + Printed(p.cid, r.1.1.0)
                         + PointerBytes(p.signature, r.1.1.1))
  {
    hide EncPointer, PointerBytes, PointerWrites, Both, Pointer;
    PointerLayout(p.signature, r.1.1.1);
    Row4(s, p.cid, p.cid, p.cid, Pointer(p.signature), r);
  }

  lemma SealLayout(p: Base, s: Bytes, l: Seal)
    ensures var e := SealCodec(p).enc(l);
      && (e.Some? <==> PointerWrites(p.signature, l.1.0) && p.bigInt.enc(l.1.1.1).Some?)
      && (e.Some? ==>
            s + e.value == s + EncHead(0, l.0) + PointerBytes(p.signature, l.1.0) + EncHead(0, l.1.1.0)
                         + Printed(p.bigInt, l.1.1.1))
  {
    hide EncHead, EncPointer, PointerBytes, PointerWrites, Both, Pointer;
    PointerLayout(p.signature, l.1.0);
    Row4(s, Arg(0), Pointer(p.signature), Arg(0), p.bigInt, l);
  }

  // ----- chain exchange -----

  /** Two levels of lists of numbers. */
  lemma IncludesLayout(p: Base, xs: seq<seq<uint64>>)
    ensures Includes(p).enc(xs).Some? <==>
      |xs| <= p.maxLength && forall i :: 0 <= i < |xs| ==> |xs[i]| <= p.maxLength
    ensures Includes(p).enc(xs).Some? ==>
      Printed(Includes(p), xs) == ListBytes(Slice(p.maxLength, Arg(0)), xs)
    ensures forall ys: seq<uint64> :: |ys| <= p.maxLength ==>
      Printed(Slice(p.maxLength, Arg(0)), ys) == ListBytes(Arg(0), ys)
  {
    hide ListBytes, Slice;
    forall ys: seq<uint64>
      ensures Slice(p.maxLength, Arg(0)).enc(ys).Some? <==> |ys| <= p.maxLength
      ensures |ys| <= p.maxLength ==> Printed(Slice(p.maxLength, Arg(0)), ys) == ListBytes(Arg(0), ys)
    {
      ListLayout(p.maxLength, Arg(0), ys);
    }
    ListLayout(p.maxLength, Slice(p.maxLength, Arg(0)), xs);
  }

  predicate CompactedWrites(p: Base, m: CompactedMessages) {
    && ListWrites(p.maxLength, Element(MessageCodec(p)), m.bls)
    && Includes(p).enc(m.blsIncludes).Some?
    && ListWrites(p.maxLength, Element(SignedMessageCodec(p)), m.secpk)
    && Includes(p).enc(m.secpkIncludes).Some?
  }

  function CompactedBytes(p: Base, m: CompactedMessages): Bytes
    requires |m.bls| < TWO_64 && |m.secpk| < TWO_64
  {
    [132] + ListBytes(Element(MessageCodec(p)), m.bls) + Printed(Includes(p), m.blsIncludes)
    + ListBytes(Element(SignedMessageCodec(p)), m.secpk) + Printed(Includes(p), m.secpkIncludes)
  }

  lemma CompactedLayout(p: Base, m: CompactedMessages)
    ensures CompactedCodec(p).enc(m).Some? <==> CompactedWrites(p, m)
    ensures CompactedWrites(p, m) ==> CompactedCodec(p).enc(m).value == CompactedBytes(p, m)
  {
    hide MessageCodec, SignedMessageCodec, Element, Includes, ListBytes, ListWrites, Both, Fields, Slice;
    var bls, secpk := Slice(p.maxLength, Element(MessageCodec(p))), Slice(p.maxLength, Element(SignedMessageCodec(p)));
    ListLayout(p.maxLength, Element(MessageCodec(p)), m.bls);
    ListLayout(p.maxLength, Element(SignedMessageCodec(p)), m.secpk);
    Starts(4, CompactedTupleCodec(p), CompactedParts(m), 132);
    Row4([132], bls, Includes(p), secpk, Includes(p), (m.bls, (m.blsIncludes, (m.secpk, m.secpkIncludes))));
  }

  lemma BSTipSetLayout(p: Base, s: BSTipSet)
    ensures BSTipSetCodec(p).enc(s).Some? <==>
      ListWrites(p.maxLength, Element(HeaderCodec(p)), s.blocks) && PointerWrites(CompactedCodec(p), s.messages)
    ensures BSTipSetCodec(p).enc(s).Some? ==>
      BSTipSetCodec(p).enc(s).value
      == [130] + ListBytes(Element(HeaderCodec(p)), s.blocks) + PointerBytes(CompactedCodec(p), s.messages)
  {
    hide HeaderCodec, CompactedCodec, Element, ListBytes, ListWrites, PointerBytes, PointerWrites;
    hide Both, Fields, Slice, Pointer;
    ListLayout(p.maxLength, Element(HeaderCodec(p)), s.blocks);
    PointerLayout(CompactedCodec(p), s.messages);
    Starts(2, TipSetTupleCodec(p), BSTipSetParts(s), 130);
    Row2([130], Slice(p.maxLength, Element(HeaderCodec(p))), Pointer(CompactedCodec(p)), (s.blocks, s.messages));
  }

  lemma SyncMessageLayout(p: Base, m: SyncMessage)
    ensures SyncMessageCodec(p).enc(m).Some? <==> ListWrites(p.maxLength, p.cid, m.head)
    ensures SyncMessageCodec(p).enc(m).Some? ==>
      SyncMessageCodec(p).enc(m).value
      == [131] + ListBytes(p.cid, m.head) + EncHead(0, m.length) + EncHead(0, m.options)
  {
    hide EncHead, ListBytes, ListWrites, Both, Fields, Slice;
    ListLayout(p.maxLength, p.cid, m.head);
    Starts(3, SyncTupleCodec(p), SyncParts(m), 131);
    Row3([131], Slice(p.maxLength, p.cid), Arg(0), Arg(0), (m.head, (m.length, m.options)));
  }

  lemma ChainMessageLayout(p: Base, m: ChainMessage)
    ensures ChainMessageCodec(p).enc(m).Some? <==>
      |m.errorMessage| <= p.maxLength && ListWrites(p.maxLength, Element(BSTipSetCodec(p)), m.chain)
    ensures ChainMessageCodec(p).enc(m).Some? ==>
      ChainMessageCodec(p).enc(m).value
      == [131] + EncHead(0, m.status) + StringBytes(3, m.errorMessage) + ListBytes(Element(BSTipSetCodec(p)), m.chain)
  {
    hide EncHead, EncBlob, StringBytes, BSTipSetCodec, Element, ListBytes, ListWrites, Both, Fields, Slice;
    BlobLayout(3, p.maxLength, m.errorMessage);
    ListLayout(p.maxLength, Element(BSTipSetCodec(p)), m.chain);
    Starts(3, ChainTupleCodec(p), ChainParts(m), 131);
    Row3([131], Arg(0), Blob(3, p.maxLength), Slice(p.maxLength, Element(BSTipSetCodec(p))),
         (m.status, (m.errorMessage, m.chain)));
  }
}
