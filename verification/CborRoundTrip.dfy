/** There and back: what the marshallers and the unmarshallers do to each other, over real streams. */
module CborRoundTrip {
  import opened Common
  import opened ChainTypes
  import opened Cbor
  import opened CborStream
  import opened CborChain
  import opened CborExchange
  import opened CborTuples
  import opened CborWriting

  /** Writes a response in front of other bytes and reads it back. */
  method ResponseThereAndBack(p: Base, m: ChainMessage, rest: Bytes)
    returns (written: bool, back: Option<ChainMessage>, left: Bytes)
    requires BaseLawful(p)
    ensures written == ChainMessageCodec(p).enc(m).Some?
    ensures written && Readable(p, m) ==> back == Some(m) && left == rest
    ensures written && !Readable(p, m) ==> back == None
  {
    hide ChainMessageCodec, Readable, BaseLawful, PartsFromFront;
    LawfulPartsFromFront(p);
    back, left := None, rest;
    var w := new Writer();
    written := MarshalChainMessage(p, w, m);
    if written {
      ResponseRoundTrip(p, m, rest);
      assert w.buf == ChainMessageCodec(p).enc(m).value;
      w.Write(rest);
      var r := new Reader(w.buf);
      assert r.Rest() == ChainMessageCodec(p).enc(m).value + rest;
      back := UnmarshalChainMessage(p, r);
      if back.Some? {
        left := r.data[r.pos..];
      }
    }
  }

  /** Reads a response off any bytes and writes it again: the same bytes come out, if the parts are canonical. */
  method ResponseBackAndThere(p: Base, b: Bytes)
    returns (m: Option<ChainMessage>, written: Bytes, left: Bytes)
    requires BaseLawful(p) && BaseCanonical(p)
    ensures m.Some? <==> ChainMessageCodec(p).dec(b).Some?
    ensures m.Some? ==> Readable(p, m.value) && b == written + left
  {
    hide ChainMessageCodec, Readable, BaseLawful, BaseCanonical, PartsFromFront;
    LawfulPartsFromFront(p);
    var r := new Reader(b);
    m := UnmarshalChainMessage(p, r);
    if m.None? {
      return None, [], b;
    }
    ResponseIsCanonical(p, b);
    left := r.data[r.pos..];
    var w := new Writer();
    var ok := MarshalChainMessage(p, w, m.value);
    written := w.buf;
    assert ok && written == ChainMessageCodec(p).enc(m.value).value;
  }

  /** Writes a request in front of other bytes and reads it back. */
  method RequestThereAndBack(p: Base, m: SyncMessage, rest: Bytes)
    returns (written: bool, back: Option<SyncMessage>, left: Bytes)
    requires Lawful(p.cid)
    ensures written == SyncMessageCodec(p).enc(m).Some?
    ensures written && (forall i :: 0 <= i < |m.head| ==> p.cid.dom(m.head[i])) ==> back == Some(m) && left == rest
    ensures written && !(forall i :: 0 <= i < |m.head| ==> p.cid.dom(m.head[i])) ==> back == None
  {
    hide SyncMessageCodec;
    back, left := None, rest;
    var w := new Writer();
    written := MarshalSyncMessage(p, w, m);
    if written {
      SyncMessageLawful(p);
      SyncDomain(p, m);
      assert w.buf == SyncMessageCodec(p).enc(m).value;
      w.Write(rest);
      var r := new Reader(w.buf);
      assert r.Rest() == SyncMessageCodec(p).enc(m).value + rest;
      back := UnmarshalSyncMessage(p, r);
      if back.Some? {
        left := r.data[r.pos..];
      }
    }
  }

  /** Writes a block header in front of other bytes and reads it back. */
  method HeaderThereAndBack(p: Base, b: BlockHeader, rest: Bytes)
    returns (written: bool, back: Option<BlockHeader>, left: Bytes)
    requires BaseLawful(p)
    ensures written == HeaderCodec(p).enc(b).Some?
    ensures written && ReadableHeader(p, b) ==> back == Some(b) && left == rest
    ensures written && !ReadableHeader(p, b) ==> back == None
  {
    hide HeaderCodec, BaseLawful, ReadableHeader, PartsFromFront;
    LawfulPartsFromFront(p);
    back, left := None, rest;
    var w := new Writer();
    written := MarshalBlockHeader(p, w, b);
    if written {
      HeaderLawful(p);
      HeaderDomain(p, b);
      assert w.buf == HeaderCodec(p).enc(b).value;
      w.Write(rest);
      var r := new Reader(w.buf);
      assert r.Rest() == HeaderCodec(p).enc(b).value + rest;
      back := UnmarshalBlockHeader(p, r);
      if back.Some? {
        left := r.data[r.pos..];
      }
    }
  }
}
