/**
 * Why the parts must be canonical for the whole to be: a big integer that can be written in two ways
 * gives every header and every response around it two encodings.
 */
module CborPadding {
  import opened Common
  import opened ChainTypes
  import opened Cbor
  import opened CborChain
  import opened CborExchange

  /** These bytes are read as this value, whatever follows them. */
  ghost predicate Reads<T(!new)>(c: Codec<T>, s: Bytes, x: T) {
    forall rest: Bytes :: c.dec(s + rest) == Some((x, rest))
  }

  /** The value y has z inside it: its bytes are those of z between front and back, however z is written. */
  ghost predicate Around<A(!new), B(!new)>(c: Codec<A>, q: Codec<B>, front: Bytes, back: Bytes, z: B, y: A) {
    && c.enc(y) == (if q.enc(z).Some? then Some(front + q.enc(z).value + back) else None)
    && forall s: Bytes :: Reads(q, s, z) ==> Reads(c, front + s + back, y)
  }

  /** A reader whose result does not depend on what it leaves. */
  ghost predicate ReadsNoFurther<T(!new)>(c: Codec<T>) {
    forall b :: c.dec(b).Some? ==>
      var (x, rest) := c.dec(b).value;
      IsSuffix(rest, b) && Reads(c, b[..|b| - |rest|], x)
  }

  // ----- values around a value -----

  lemma AroundSelf<B(!new)>(q: Codec<B>, z: B)
    ensures Around(q, q, [], [], z, z)
  {
    forall s: Bytes | Reads(q, s, z)
      ensures Reads(q, [] + s + [], z)
    {
      assert [] + s + [] == s;
    }
    if q.enc(z).Some? {
      assert [] + q.enc(z).value + [] == q.enc(z).value;
    }
  }

  lemma AroundSecond<A(!new), B(!new), C(!new)>(
      a: Codec<A>, b: Codec<B>, q: Codec<C>, front: Bytes, back: Bytes, z: C, x: A, y: B)
    requires ReadsBack(a) && a.dom(x) && a.enc(x).Some? && Around(b, q, front, back, z, y)
    ensures Around(Both(a, b), q, a.enc(x).value + front, back, z, (x, y))
  {
    var e := a.enc(x).value;
    forall s: Bytes, rest: Bytes | Reads(q, s, z)
      ensures Both(a, b).dec(e + front + s + back + rest) == Some(((x, y), rest))
    {
      assert Reads(b, front + s + back, y);
      assert e + front + s + back + rest == e + (front + s + back + rest);
      assert a.dec(e + (front + s + back + rest)) == Some((x, front + s + back + rest));
    }
    if q.enc(z).Some? {
      assert e + (front + q.enc(z).value + back) == e + front + q.enc(z).value + back;
    }
  }

  lemma AroundFirst<A(!new), B(!new), C(!new)>(
      a: Codec<A>, b: Codec<B>, q: Codec<C>, front: Bytes, back: Bytes, z: C, x: A, y: B)
    requires Around(a, q, front, back, z, x) && ReadsBack(b) && b.dom(y) && b.enc(y).Some?
    ensures Around(Both(a, b), q, front, back + b.enc(y).value, z, (x, y))
  {
    var e := b.enc(y).value;
    forall s: Bytes, rest: Bytes | Reads(q, s, z)
      ensures Both(a, b).dec(front + s + (back + e) + rest) == Some(((x, y), rest))
    {
      assert Reads(a, front + s + back, x);
      assert front + s + (back + e) + rest == front + s + back + (e + rest);
      assert b.dec(e + rest) == Some((y, rest));
    }
    if q.enc(z).Some? {
      assert front + q.enc(z).value + back + e == front + q.enc(z).value + (back + e);
    }
  }

  lemma AroundFields<A(!new), C(!new)>(
      n: uint64, c: Codec<A>, q: Codec<C>, front: Bytes, back: Bytes, z: C, y: A)
    requires Around(c, q, front, back, z, y)
    ensures Around(Fields(n, c), q, EncHead(ARRAY, n) + front, back, z, y)
  {
    hide EncHead, DecHead;
    var e := EncHead(ARRAY, n);
    forall s: Bytes, rest: Bytes | Reads(q, s, z)
      ensures Fields(n, c).dec(e + front + s + back + rest) == Some((y, rest))
    {
      assert Reads(c, front + s + back, y);
      assert e + front + s + back + rest == e + (front + s + back + rest);
      HeadReadsBack(ARRAY, n, front + s + back + rest);
    }
    if q.enc(z).Some? {
      assert e + (front + q.enc(z).value + back) == e + front + q.enc(z).value + back;
    }
  }

  lemma AroundOne<A(!new), C(!new)>(
      max: uint64, c: Codec<A>, q: Codec<C>, front: Bytes, back: Bytes, z: C, y: A)
    requires Around(c, q, front, back, z, y) && 1 <= max
    ensures Around(Slice(max, c), q, EncHead(ARRAY, 1) + front, back, z, [y])
  {
    hide EncHead, DecHead;
    var e := EncHead(ARRAY, 1);
    forall s: Bytes, rest: Bytes | Reads(q, s, z)
      ensures Slice(max, c).dec(e + front + s + back + rest) == Some(([y], rest))
    {
      assert Reads(c, front + s + back, y);
      assert e + front + s + back + rest == e + (front + s + back + rest);
      HeadReadsBack(ARRAY, 1, front + s + back + rest);
      assert DecArg(ARRAY, e + (front + s + back + rest)) == Some((1, front + s + back + rest));
      assert DecAll(c, 0, rest) == Some(([], rest));
      assert [y] + [] == [y];
      assert DecAll(c, 1, front + s + back + rest) == Some(([y], rest));
    }
    assert EncAll(c, [y]) == if c.enc(y).Some? then Some(c.enc(y).value + []) else None;
    if q.enc(z).Some? {
      assert e + (front + q.enc(z).value + back + []) == e + front + q.enc(z).value + back;
    }
  }

  lemma AroundElement<A(!new), C(!new)>(c: Codec<A>, q: Codec<C>, front: Bytes, back: Bytes, z: C, y: A)
    requires Around(c, q, front, back, z, y)
    ensures Around(Element(c), q, front, back, z, Some(y))
  {
    forall s: Bytes | Reads(q, s, z)
      ensures Reads(Element(c), front + s + back, Some(y))
    {
      assert Reads(c, front + s + back, y);
    }
  }

  lemma AroundVia<A(!new), B(!new), C(!new)>(
      c: Codec<A>, to: A -> B, from: B -> A, q: Codec<C>, front: Bytes, back: Bytes, z: C, y: A)
    requires Around(c, q, front, back, z, y) && from(to(y)) == y
    ensures Around(Via(c, to, from), q, front, back, z, to(y))
  {
    forall s: Bytes | Reads(q, s, z)
      ensures Reads(Via(c, to, from), front + s + back, to(y))
    {
      assert Reads(c, front + s + back, y);
    }
  }

  // ----- what that means for the whole -----

  /** Other bytes for the part are other bytes for the whole. */
  lemma OtherBytes<A(!new), B(!new)>(
      c: Codec<A>, q: Codec<B>, front: Bytes, back: Bytes, z: B, y: A, s: Bytes)
    requires Around(c, q, front, back, z, y) && Reads(q, s, z) && q.enc(z) != Some(s)
    ensures c.dec(front + s + back) == Some((y, [])) && c.enc(y) != Some(front + s + back)
    ensures !Canonical(c)
  {
    var b := front + s + back;
    assert Reads(c, b, y);
    assert b + [] == b;
    if c.enc(y) == Some(b) {
      SameMiddle(front, q.enc(z).value, s, back);
    }
    if Canonical(c) {
      CanonicalPrints(c, b, y);
    }
  }

  lemma CanonicalPrints<A(!new)>(c: Codec<A>, b: Bytes, y: A)
    requires Canonical(c) && c.dec(b) == Some((y, []))
    ensures c.enc(y) == Some(b)
  {
    assert c.enc(y).value + [] == c.enc(y).value;
  }

  lemma PrintedAndRead<B(!new)>(q: Codec<B>, s: Bytes, z: B)
    requires ReadsBack(q) && Reads(q, s, z) && q.enc(z) == Some(s)
    ensures q.dom(z)
  {
    assert q.dec(s + []) == if q.dom(z) then Some((z, [])) else None;
  }

  /** A part that is not canonical is read, somewhere, from bytes it is not printed as. */
  lemma NotCanonical<B(!new)>(q: Codec<B>) returns (s: Bytes, z: B)
    requires ReadsNoFurther(q) && ReadsBack(q) && !Canonical(q)
    ensures Reads(q, s, z) && q.enc(z) != Some(s)
  {
    var b :| q.dec(b).Some? && !(
      && q.dom(q.dec(b).value.0)
      && q.enc(q.dec(b).value.0).Some?
      && b == q.enc(q.dec(b).value.0).value + q.dec(b).value.1);
    var rest := q.dec(b).value.1;
    z := q.dec(b).value.0;
    s := b[..|b| - |rest|];
    assert b == s + rest;
    if q.enc(z) == Some(s) {
      PrintedAndRead(q, s, z);
    }
  }

  lemma SameMiddle(front: Bytes, s: Bytes, s': Bytes, back: Bytes)
    requires front + s + back == front + s' + back
    ensures s == s'
  {
    var b := front + s + back;
    assert |s| == |s'|;
    assert b[|front|..|front| + |s|] == s;
    assert b == front + s' + back && b[|front|..|front| + |s'|] == s';
  }

  // ----- headers -----

  /** The bytes of a header end with those of its base fee. */
  lemma AroundBaseFee(p: Base, b: BlockHeader, fee: BigInt) returns (front: Bytes)
    requires BaseLawful(p) && ReadableHeader(p, b) && HeaderCodec(p).enc(b).Some?
    ensures Around(HeaderCodec(p), p.bigInt, front, [], fee, b.(parentBaseFee := fee))
  {
    hide Around, Lawful, Canonical, Total, NeverNull, RefusesNull;
    hide ClaimCodec, LineageCodec, RootsCodec, ReadableHeader;
    var (claim, (lineage, (roots, seal))) := TupleOf(b);
    var seal' := (seal.0, (seal.1.0, (seal.1.1.0, fee)));
    ClaimLawful(p);
    LineageLawful(p);
    RootsLawful(p);
    HeaderDomain(p, b);
    assert HeaderCodec(p).dom(b)
        == (ClaimCodec(p).dom(claim) && LineageCodec(p).dom(lineage)
            && RootsCodec(p).dom(roots) && SealCodec(p).dom(seal));
    front := AroundSealFee(p, seal, fee);
    PartReads(RootsCodec(p), roots);
    AroundSecond(RootsCodec(p), SealCodec(p), p.bigInt, front, [], fee, roots, seal');
    front := RootsCodec(p).enc(roots).value + front;
    var tail := Both(RootsCodec(p), SealCodec(p));
    PartReads(LineageCodec(p), lineage);
    AroundSecond(LineageCodec(p), tail, p.bigInt, front, [], fee, lineage, (roots, seal'));
    front := LineageCodec(p).enc(lineage).value + front;
    PartReads(ClaimCodec(p), claim);
    AroundSecond(ClaimCodec(p), Both(LineageCodec(p), tail), p.bigInt, front, [], fee,
                 claim, (lineage, (roots, seal')));
    front := ClaimCodec(p).enc(claim).value + front;
    var all := Both(ClaimCodec(p), Both(LineageCodec(p), tail));
    AroundFields(16, all, p.bigInt, front, [], fee, (claim, (lineage, (roots, seal'))));
    front := EncHead(ARRAY, 16) + front;
    AroundVia(Fields(16, all), HeaderOf, TupleOf, p.bigInt, front, [], fee, (claim, (lineage, (roots, seal'))));
  }

  lemma PartReads<T(!new)>(c: Codec<T>, x: T)
    requires Lawful(c) && c.dom(x)
    ensures ReadsBack(c) && c.dom(x)
  {}

  lemma AroundSealFee(p: Base, seal: Seal, fee: BigInt) returns (front: Bytes)
    requires BaseLawful(p) && SealCodec(p).dom(seal) && SealCodec(p).enc(seal).Some?
    ensures Around(SealCodec(p), p.bigInt, front, [], fee, (seal.0, (seal.1.0, (seal.1.1.0, fee))))
  {
    hide Around, Lawful, Canonical, Total, NeverNull, RefusesNull, Pointer, Arg;
    ArgLawful(UNSIGNED);
    PointerLawful(p.signature);
    TotalAt(Arg(UNSIGNED), seal.0);
    TotalAt(Arg(UNSIGNED), seal.1.1.0);
    PartReads(Arg(UNSIGNED), seal.0);
    PartReads(Pointer(p.signature), seal.1.0);
    PartReads(Arg(UNSIGNED), seal.1.1.0);
    AroundSelf(p.bigInt, fee);
    var fork := Both(Arg(UNSIGNED), p.bigInt);
    AroundSecond(Arg(UNSIGNED), p.bigInt, p.bigInt, [], [], fee, seal.1.1.0, fee);
    front := Arg(UNSIGNED).enc(seal.1.1.0).value + [];
    AroundSecond(Pointer(p.signature), fork, p.bigInt, front, [], fee, seal.1.0, (seal.1.1.0, fee));
    front := Pointer(p.signature).enc(seal.1.0).value + front;
    AroundSecond(Arg(UNSIGNED), Both(Pointer(p.signature), fork), p.bigInt, front, [], fee,
                 seal.0, (seal.1.0, (seal.1.1.0, fee)));
    front := Arg(UNSIGNED).enc(seal.0).value + front;
  }

  // ----- responses -----

  /** A response with one block and no messages. */
  function ResponseOf(b: BlockHeader): ChainMessage {
    ChainMessage(0, [], [Some(BSTipSet([Some(b)], None))])
  }

  lemma AroundHeader(p: Base, front: Bytes, fee: BigInt, b: BlockHeader) returns (front': Bytes, back: Bytes)
    requires BaseLawful(p) && 1 <= p.maxLength && Around(HeaderCodec(p), p.bigInt, front, [], fee, b)
    ensures Around(ChainMessageCodec(p), p.bigInt, front', back, fee, ResponseOf(b))
  {
    hide Around, Lawful, Canonical, Total, NeverNull, RefusesNull;
    hide HeaderCodec, CompactedCodec, Element, Slice, Arg, Blob, EncHead;
    // The block set.
    AroundElement(HeaderCodec(p), p.bigInt, front, [], fee, b);
    AroundOne(p.maxLength, Element(HeaderCodec(p)), p.bigInt, front, [], fee, Some(b));
    var blocks, none := Slice(p.maxLength, Element(HeaderCodec(p))), Pointer(CompactedCodec(p));
    front', back := EncHead(ARRAY, 1) + front, [];
    NoMessages(p);
    AroundFirst(blocks, none, p.bigInt, front', back, fee, [Some(b)], None);
    back := back + none.enc(None).value;
    AroundFields(2, Both(blocks, none), p.bigInt, front', back, fee, ([Some(b)], None));
    front' := EncHead(ARRAY, 2) + front';
    AroundVia(Fields(2, Both(blocks, none)), BSTipSetOf, BSTipSetParts, p.bigInt, front', back, fee, ([Some(b)], None));
    // The response.
    var blockSet := BSTipSet([Some(b)], None);
    AroundElement(BSTipSetCodec(p), p.bigInt, front', back, fee, blockSet);
    AroundOne(p.maxLength, Element(BSTipSetCodec(p)), p.bigInt, front', back, fee, Some(blockSet));
    front' := EncHead(ARRAY, 1) + front';
    front' := AroundChain(p, front', back, fee, [Some(blockSet)]);
  }

  lemma NoMessages(p: Base)
    requires BaseLawful(p)
    ensures ReadsBack(Pointer(CompactedCodec(p))) && Pointer(CompactedCodec(p)).dom(None)
    ensures Pointer(CompactedCodec(p)).enc(None).Some?
  {
    hide CompactedCodec, Canonical, NeverNull, RefusesNull, ReadsFromFront;
    CompactedLawful(p);
    PointerLawful(CompactedCodec(p));
  }

  lemma AroundChain(p: Base, front: Bytes, back: Bytes, fee: BigInt, chain: seq<Option<BSTipSet>>)
    returns (front': Bytes)
    requires Around(Slice(p.maxLength, Element(BSTipSetCodec(p))), p.bigInt, front, back, fee, chain)
    ensures Around(ChainMessageCodec(p), p.bigInt, front', back, fee, ChainMessage(0, [], chain))
  {
    hide Around, Lawful, Canonical, Total, NeverNull, RefusesNull, BSTipSetCodec, Element, Slice, EncHead;
    var text, tipsets := Blob(TEXT_STRING, p.maxLength), Slice(p.maxLength, Element(BSTipSetCodec(p)));
    BlobLawful(TEXT_STRING, p.maxLength);
    ArgLawful(UNSIGNED);
    TotalAt(text, []);
    TotalAt(Arg(UNSIGNED), 0);
    PartReads(text, []);
    PartReads(Arg(UNSIGNED), 0);
    AroundSecond(text, tipsets, p.bigInt, front, back, fee, [], chain);
    front' := text.enc([]).value + front;
    AroundSecond(Arg(UNSIGNED), Both(text, tipsets), p.bigInt, front', back, fee, 0, ([], chain));
    front' := Arg(UNSIGNED).enc(0).value + front';
    AroundFields(3, ChainTupleCodec(p), p.bigInt, front', back, fee, (0, ([], chain)));
    front' := EncHead(ARRAY, 3) + front';
    AroundVia(Fields(3, ChainTupleCodec(p)), ChainOf, ChainParts, p.bigInt, front', back, fee, (0, ([], chain)));
  }

  // ----- one value, two encodings -----

  /**
   * Padding in one big integer: a header whose base fee can also be read from other bytes can be read
   * from other bytes itself, and so can a response with that header, and neither is printed as them.
   */
  lemma PaddingBreaksCanonicity(p: Base, b: BlockHeader, padded: Bytes) returns (s: Bytes, r: Bytes)
    requires BaseLawful(p) && 1 <= p.maxLength && ReadableHeader(p, b) && HeaderCodec(p).enc(b).Some?
    requires Reads(p.bigInt, padded, b.parentBaseFee) && p.bigInt.enc(b.parentBaseFee) != Some(padded)
    ensures HeaderCodec(p).dec(s) == Some((b, [])) && HeaderCodec(p).enc(b) != Some(s)
    ensures ChainMessageCodec(p).dec(r) == Some((ResponseOf(b), []))
    ensures ChainMessageCodec(p).enc(ResponseOf(b)) != Some(r)
  {
    hide Around, Reads, BaseLawful, HeaderCodec, ChainMessageCodec, Canonical, ReadableHeader;
    var front := AroundBaseFee(p, b, b.parentBaseFee);
    OtherBytes(HeaderCodec(p), p.bigInt, front, [], b.parentBaseFee, b, padded);
    s := front + padded + [];
    var front', back := AroundHeader(p, front, b.parentBaseFee, b);
    OtherBytes(ChainMessageCodec(p), p.bigInt, front', back, b.parentBaseFee, ResponseOf(b), padded);
    r := front' + padded + back;
  }

  /**
   * The exact condition, given that the other parts are canonical and some header can be marshalled and
   * read back: headers and responses have one encoding each if and only if big integers have.
   */
  lemma CanonicalIff(p: Base, b: BlockHeader)
    requires BaseLawful(p) && 1 <= p.maxLength && ReadableHeader(p, b) && HeaderCodec(p).enc(b).Some?
    requires Canonical(p.addr) && Canonical(p.cid) && Canonical(p.signature) && Canonical(p.postProof)
    requires ReadsNoFurther(p.bigInt)
    ensures Canonical(HeaderCodec(p)) <==> Canonical(p.bigInt)
    ensures Canonical(ChainMessageCodec(p)) <==> Canonical(p.bigInt)
  {
    hide Around, Reads, HeaderCodec, ChainMessageCodec, Canonical, ReadableHeader;
    if Canonical(p.bigInt) {
      HeaderLawful(p);
      ChainMessageLawful(p);
    } else {
      var padded, fee := NotCanonical(p.bigInt);
      var front := AroundBaseFee(p, b, fee);
      OtherBytes(HeaderCodec(p), p.bigInt, front, [], fee, b.(parentBaseFee := fee), padded);
      var front', back := AroundHeader(p, front, fee, b.(parentBaseFee := fee));
      OtherBytes(ChainMessageCodec(p), p.bigInt, front', back, fee, ResponseOf(b.(parentBaseFee := fee)), padded);
    }
  }
}
