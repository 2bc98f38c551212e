/** Reading and writing the encodings step by step, over a reader with one byte of push-back and a writer. */
module CborStream {
  import opened Common
  import opened Cbor

  /** An input being consumed. */
  class Reader {
    const data: Bytes
    var pos: nat

    constructor (data: Bytes)
      ensures this.data == data && Valid() && Rest() == data
    {
      this.data := data;
      this.pos := 0;
    }

    ghost predicate Valid()
      reads this
    {
      pos <= |data|
    }

    ghost function Rest(): Bytes
      requires Valid()
      reads this
    {
      data[pos..]
    }

    /** The reader has done what the parser does: failed with it, or moved past what it read. */
    ghost predicate Consumed<T(!new)>(d: Option<(T, Bytes)>, r: Option<T>)
      reads this
    {
      match d
      case None => r.None?
      case Some((x, rest)) => r == Some(x) && Valid() && Rest() == rest
    }

    method ReadByte() returns (r: Option<byte>)
      requires Valid()
      modifies this
      ensures Valid()
      ensures r.None? <==> old(Rest()) == []
      ensures r.None? ==> Rest() == old(Rest())
      ensures r.Some? ==> old(Rest()) == [r.value] + Rest() && pos == old(pos) + 1
    {
      if pos == |data| {
        return None;
      }
      r := Some(data[pos]);
      pos := pos + 1;
    }

    /** Gives back the byte read last. */
    method UnreadByte()
      requires Valid() && pos > 0
      modifies this
      ensures Valid() && pos == old(pos) - 1 && Rest() == [data[pos]] + old(Rest())
    {
      pos := pos - 1;
    }

    /** Reads exactly n bytes, or fails. */
    method ReadFull(n: nat) returns (r: Option<Bytes>)
      requires Valid()
      modifies this
      ensures Valid()
      ensures r.Some? <==> n <= |old(Rest())|
      ensures r.Some? ==> r.value == old(Rest())[..n] && Rest() == old(Rest())[n..]
    {
      if |data| - pos < n {
        return None;
      }
      r := Some(data[pos..pos + n]);
      pos := pos + n;
    }

    /** A part whose reader belongs to another package. */
    method Take<T(!new)>(c: Codec<T>) returns (r: Option<T>)
      requires Valid() && ReadsFromFront(c)
      modifies this
      ensures Valid() && Consumed(c.dec(old(Rest())), r)
    {
      match c.dec(data[pos..]) {
        case None => r := None;
        case Some((x, rest)) =>
          pos := |data| - |rest|;
          r := Some(x);
      }
    }

    method ReadHead() returns (r: Option<(Major, uint64)>)
      requires Valid()
      modifies this
      ensures Valid() && Consumed(DecHead(old(Rest())), r)
    {
      ghost var s := Rest();
      var first := ReadByte();
      if first.None? {
        return None;
      }
      var low := first.value % 32;
      if low < 24 {
        return Some((first.value / 32, low));
      }
      if low > 27 {
        return None;
      }
      var width := WidthFor(low);
      ghost var q := Rest();
      assert s[1..] == q;
      var more := ReadFull(width);
      if more.None? {
        return None;
      }
      assert s[1..1 + width] == q[..width] && s[1 + width..] == q[width..];
      Widths();
      var arg := FromBytes(more.value);
      if WidthOf(arg) != width {
        return None;
      }
      return Some((first.value / 32, arg));
    }

    method ReadArg(major: Major) returns (r: Option<uint64>)
      requires Valid()
      modifies this
      ensures Valid() && Consumed(DecArg(major, old(Rest())), r)
    {
      var head := ReadHead();
      r := if head.Some? && head.value.0 == major then Some(head.value.1) else None;
    }

    method ReadInt64() returns (r: Option<int64>)
      requires Valid()
      modifies this
      ensures Valid() && Consumed(DecInt64(old(Rest())), r)
    {
      var head := ReadHead();
      if head.None? {
        return None;
      }
      var extra := ToInt64(head.value.1);
      if head.value.0 == UNSIGNED {
        if extra < 0 { return None; }
        return Some(extra);
      } else if head.value.0 == NEGATIVE {
        if extra < 0 { return None; }
        return Some(-1 - extra);
      } else {
        return None;
      }
    }

    method ReadBlob(major: Major, max: uint64) returns (r: Option<Bytes>)
      requires Valid()
      modifies this
      ensures Valid() && Consumed(DecBlob(major, max, old(Rest())), r)
    {
      var n := ReadArg(major);
      if n.None? || n.value > max {
        return None;
      }
      r := ReadFull(n.value);
    }

    /** The head of a tuple, which must announce the right number of fields. */
    method ReadFieldCount(n: uint64) returns (ok: bool)
      requires Valid()
      modifies this
      ensures Valid()
      ensures ok <==> DecArg(ARRAY, old(Rest())).Some? && DecArg(ARRAY, old(Rest())).value.0 == n
      ensures ok ==> Rest() == DecArg(ARRAY, old(Rest())).value.1
    {
      var k := ReadArg(ARRAY);
      ok := k.Some? && k.value == n;
    }

    /** Reads one byte ahead to see whether a pointer is nil, and gives it back unless it is the null byte. */
    method ReadNull() returns (isNull: Option<bool>)
      requires Valid()
      modifies this
      ensures Valid()
      ensures isNull.None? <==> old(Rest()) == []
      ensures isNull == Some(true) ==> old(Rest())[0] == NULL_BYTE && Rest() == old(Rest())[1..]
      ensures isNull == Some(false) ==> old(Rest())[0] != NULL_BYTE && Rest() == old(Rest())
    {
      var b := ReadByte();
      if b.None? {
        return None;
      }
      if b.value == NULL_BYTE {
        return Some(true);
      }
      UnreadByte();
      return Some(false);
    }

    /** A pointer to a part whose reader belongs to another package. */
    method TakePointer<T(!new)>(c: Codec<T>) returns (r: Option<Option<T>>)
      requires Valid() && ReadsFromFront(c)
      modifies this
      ensures Valid() && Consumed(DecPointer(c, old(Rest())), r)
    {
      var isNull := ReadNull();
      if isNull.None? {
        return None;
      }
      if isNull.value {
        return Some(None);
      }
      var x := Take(c);
      r := if x.Some? then Some(Some(x.value)) else None;
    }

    /** The head of a slice, and its limit. */
    method ReadCount(max: uint64) returns (n: Option<uint64>)
      requires Valid()
      modifies this
      ensures Valid() && Consumed(DecCount(max, old(Rest())), n)
    {
      n := ReadArg(ARRAY);
      if n.Some? && n.value > max {
        return None;
      }
    }

    /** A slice of parts whose reader belongs to another package. */
    method TakeSlice<T(!new)>(max: uint64, c: Codec<T>) returns (r: Option<seq<T>>)
      requires Valid() && ReadsFromFront(c)
      modifies this
      ensures Valid() && Consumed(DecSlice(max, c, old(Rest())), r)
    {
      hide DecAll, DecCount, Prefixed, ReadsFromFront;
      SliceCount(max, c, Rest());
      var n := ReadCount(max);
      if n.None? {
        return None;
      }
      ghost var all := DecAll(c, n.value, Rest());
      var xs: seq<T> := [];
      PrefixedNone(all);
      for i := 0 to n.value
        invariant Valid() && all == Prefixed(xs, DecAll(c, n.value - i, Rest()))
      {
        ReadingNext(c, xs, n.value - i, Rest());
        var x := Take(c);
        if x.None? {
          return None;
        }
        xs := xs + [x.value];
      }
      ReadingDone(c, xs, Rest());
      return Some(xs);
    }
  }

  // ----- reading a slice -----

  function DecCount(max: uint64, s: Bytes): Option<(uint64, Bytes)> {
    match DecArg(ARRAY, s)
    case None => None
    case Some((n, r)) => if n > max then None else Some((n, r))
  }

  lemma SliceCount<T>(max: uint64, c: Codec<T>, s: Bytes)
    ensures match DecCount(max, s)
            case None => DecSlice(max, c, s) == None
            case Some((n, r)) => DecSlice(max, c, s) == DecAll(c, n, r)
  {}

  /** A list read in two parts. */
  function Prefixed<T>(xs: seq<T>, d: Option<(seq<T>, Bytes)>): Option<(seq<T>, Bytes)> {
    match d
    case None => None
    case Some((ys, rest)) => Some((xs + ys, rest))
  }

  lemma PrefixedNone<T>(d: Option<(seq<T>, Bytes)>)
    ensures Prefixed([], d) == d
  {
    if d.Some? {
      assert [] + d.value.0 == d.value.0;
    }
  }

  /** One element more has been read, or reading fails where the parser does. */
  lemma ReadingNext<T>(c: Codec<T>, xs: seq<T>, n: nat, s: Bytes)
    requires n > 0
    ensures match c.dec(s)
            case None => Prefixed(xs, DecAll(c, n, s)) == None
            case Some((x, r)) => Prefixed(xs, DecAll(c, n, s)) == Prefixed(xs + [x], DecAll(c, n - 1, r))
  {
    if c.dec(s).Some? {
      var (x, r) := c.dec(s).value;
      var d := DecAll(c, n - 1, r);
      if d.Some? {
        assert xs + ([x] + d.value.0) == xs + [x] + d.value.0;
      }
    }
  }

  lemma ReadingDone<T>(c: Codec<T>, xs: seq<T>, s: Bytes)
    ensures Prefixed(xs, DecAll(c, 0, s)) == Some((xs, s))
  {
    assert xs + [] == xs;
  }

  // ----- writing a slice -----

  /** Output written in two parts. */
  function Joined(done: Bytes, e: Option<Bytes>): Option<Bytes> {
    if e.Some? then Some(done + e.value) else None
  }

  lemma WritingStarts<T>(c: Codec<T>, xs: seq<T>)
    ensures EncAll(c, xs) == Joined([], EncAll(c, xs[0..]))
  {
    assert xs[0..] == xs;
    if EncAll(c, xs).Some? {
      assert [] + EncAll(c, xs).value == EncAll(c, xs).value;
    }
  }

  lemma WritingNext<T>(c: Codec<T>, xs: seq<T>, i: nat, done: Bytes)
    requires i < |xs|
    ensures Joined(done, EncAll(c, xs[i..]))
         == if c.enc(xs[i]).Some? then Joined(done + c.enc(xs[i]).value, EncAll(c, xs[i + 1..])) else None
  {
    assert xs[i..][1..] == xs[i + 1..];
    if c.enc(xs[i]).Some? && EncAll(c, xs[i + 1..]).Some? {
      var e, f := c.enc(xs[i]).value, EncAll(c, xs[i + 1..]).value;
      assert done + (e + f) == done + e + f;
    }
  }

  /** The bytes of a slice, after some others: its head, then its elements. */
  lemma WritingDone<T>(max: uint64, c: Codec<T>, xs: seq<T>, before: Bytes, done: Bytes)
    requires |xs| <= max && EncAll(c, xs) == Joined(done, EncAll(c, xs[|xs|..]))
    ensures EncSlice(max, c, xs).Some?
    ensures before + EncHead(ARRAY, |xs|) + done == before + EncSlice(max, c, xs).value
  {
    hide EncHead;
    assert xs[|xs|..] == [];
    assert done + [] == done;
    assert before + EncHead(ARRAY, |xs|) + done == before + (EncHead(ARRAY, |xs|) + done);
  }

  /** An output being appended to. */
  class Writer {
    var buf: Bytes

    constructor ()
      ensures buf == []
    {
      buf := [];
    }

    method Write(b: Bytes)
      modifies this
      ensures buf == old(buf) + b
    {
      buf := buf + b;
    }

    /** A part whose writer belongs to another package. */
    method Put<T>(c: Codec<T>, x: T) returns (ok: bool)
      modifies this
      ensures ok == c.enc(x).Some?
      ensures ok ==> buf == old(buf) + c.enc(x).value
    {
      var e := c.enc(x);
      if e.None? {
        return false;
      }
      Write(e.value);
      return true;
    }

    /** Picks the shortest form. */
    method WriteHead(major: Major, arg: uint64)
      modifies this
      ensures buf == old(buf) + EncHead(major, arg)
    {
      if arg < 24 {
        Write([major * 32 + arg]);
      } else if arg < 0x100 {
        Write([major * 32 + 24] + ToBytes(1, arg));
      } else if arg < 0x1_0000 {
        Write([major * 32 + 25] + ToBytes(2, arg));
      } else if arg < 0x1_0000_0000 {
        Write([major * 32 + 26] + ToBytes(4, arg));
      } else {
        Write([major * 32 + 27] + ToBytes(8, arg));
      }
    }

    method WriteInt64(x: int64)
      modifies this
      ensures buf == old(buf) + EncInt64(x)
    {
      if x >= 0 {
        WriteHead(UNSIGNED, x);
      } else {
        WriteHead(NEGATIVE, NegativeArg(x));
      }
    }

    method WriteBlob(major: Major, max: uint64, s: Bytes) returns (ok: bool)
      modifies this
      ensures ok == EncBlob(major, max, s).Some?
      ensures ok ==> buf == old(buf) + EncBlob(major, max, s).value
    {
      if |s| > max {
        return false;
      }
      WriteHead(major, |s|);
      Write(s);
      return true;
    }

    /** A pointer to a part whose writer belongs to another package. */
    method PutPointer<T>(c: Codec<T>, x: Option<T>) returns (ok: bool)
      modifies this
      ensures ok == EncPointer(c, x).Some?
      ensures ok ==> buf == old(buf) + EncPointer(c, x).value
    {
      if x.None? {
        Write([NULL_BYTE]);
        return true;
      }
      ok := Put(c, x.value);
    }

    /** A slice of parts whose writer belongs to another package. */
    method PutSlice<T>(max: uint64, c: Codec<T>, xs: seq<T>) returns (ok: bool)
      modifies this
      ensures ok == EncSlice(max, c, xs).Some?
      ensures ok ==> buf == old(buf) + EncSlice(max, c, xs).value
    {
      hide EncAll, Joined, EncHead;
      if |xs| > max {
        return false;
      }
      WriteHead(ARRAY, |xs|);
      ghost var start, done := buf, [];
      WritingStarts(c, xs);
      for i := 0 to |xs|
        invariant buf == start + done && EncAll(c, xs) == Joined(done, EncAll(c, xs[i..]))
      {
        WritingNext(c, xs, i, done);
        ok := Put(c, xs[i]);
        if !ok {
          return false;
        }
        done := done + c.enc(xs[i]).value;
      }
      WritingDone(max, c, xs, old(buf), done);
      return true;
    }
  }
}
