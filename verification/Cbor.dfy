/**
 * The part of CBOR the tuple encodings use: heads in shortest form (sections 3 and 4.2.1 of
 * RFC 8949), and ways to build a codec for a whole from codecs for its parts.
 */
module Cbor {
  import opened Common

  // ----- codecs and their laws -----

  /** A printer, a parser that leaves what it did not read, and the values that survive the trip. */
  datatype Codec<!T> = Codec(dom: T -> bool, enc: T -> Option<Bytes>, dec: Bytes -> Option<(T, Bytes)>)

  /** What was printed is read back, or else refused, whatever follows it. */
  ghost predicate ReadsBack<T(!new)>(c: Codec<T>) {
    forall x, rest: Bytes :: c.enc(x).Some? ==>
      c.dec(c.enc(x).value + rest) == if c.dom(x) then Some((x, rest)) else None
  }

  ghost predicate IsSuffix(rest: Bytes, b: Bytes) {
    |rest| <= |b| && rest == b[|b| - |rest|..]
  }

  /** A reader goes through its input front to back: what it leaves is the end of what it got. */
  ghost predicate ReadsFromFront<T(!new)>(c: Codec<T>) {
    forall b :: c.dec(b).Some? ==> IsSuffix(c.dec(b).value.1, b)
  }

  /** What every self-delimiting encoding keeps. There may still be several ways to write a value. */
  ghost predicate Lawful<T(!new)>(c: Codec<T>) {
    ReadsBack(c) && ReadsFromFront(c)
  }

  /** What is read is what would have been printed: there is one way to write a value. */
  ghost predicate Canonical<T(!new)>(c: Codec<T>) {
    forall b :: c.dec(b).Some? ==>
      && c.dom(c.dec(b).value.0)
      && c.enc(c.dec(b).value.0).Some?
      && b == c.enc(c.dec(b).value.0).value + c.dec(b).value.1
  }

  const NULL_BYTE: byte := 0xf6

  ghost predicate StartsNull(s: Bytes) {
    s != [] && s[0] == NULL_BYTE
  }

  /** No value is printed as, or starting with, the byte that stands for a nil pointer. */
  ghost predicate NeverNull<T(!new)>(c: Codec<T>) {
    forall x :: c.enc(x).Some? ==> c.enc(x).value != [] && !StartsNull(c.enc(x).value)
  }

  /** And none is read from it. */
  ghost predicate RefusesNull<T(!new)>(c: Codec<T>) {
    forall s :: StartsNull(s) ==> c.dec(s) == None
  }

  ghost predicate Total<T(!new)>(c: Codec<T>) {
    forall x :: c.dom(x)
  }

  /** Encodings are prefix-free: of two values, neither encoding begins with the other. */
  lemma PrefixFree<T(!new)>(c: Codec<T>, x: T, y: T, rest: Bytes)
    requires ReadsBack(c) && c.dom(x) && c.enc(x).Some? && c.enc(y).Some?
    requires c.enc(y).value == c.enc(x).value + rest
    ensures x == y && rest == []
  {
    assert c.dec(c.enc(x).value + rest) == Some((x, rest));
    assert c.enc(y).value + [] == c.enc(y).value;
    assert c.dec(c.enc(y).value + []) == if c.dom(y) then Some((y, [])) else None;
  }

  lemma SuffixOfSuffix(s: Bytes, r: Bytes, b: Bytes)
    requires IsSuffix(s, r) && IsSuffix(r, b)
    ensures IsSuffix(s, b)
  {}

  lemma SuffixOfSum(a: Bytes, r: Bytes)
    ensures IsSuffix(r, a + r)
  {}

  // ----- numbers in network order -----

  function Pow256(k: nat): (p: nat)
    ensures p > 0
  {
    if k == 0 then 1 else 256 * Pow256(k - 1)
  }

  function ToBytes(k: nat, v: nat): (b: Bytes)
    ensures |b| == k
  {
    if k == 0 then [] else ToBytes(k - 1, v / 256) + [v % 256]
  }

  function FromBytes(b: Bytes): (v: nat)
    ensures v < Pow256(|b|)
  {
    if b == [] then 0 else FromBytes(b[..|b| - 1]) * 256 + b[|b| - 1]
  }

  lemma {:induction false} ReadsWhatWasWritten(k: nat, v: nat)
    requires v < Pow256(k)
    ensures FromBytes(ToBytes(k, v)) == v
  {
    if k > 0 {
      ReadsWhatWasWritten(k - 1, v / 256);
      assert ToBytes(k, v)[..k - 1] == ToBytes(k - 1, v / 256);
    }
  }

  lemma {:induction false} WritesWhatWasRead(b: Bytes)
    ensures ToBytes(|b|, FromBytes(b)) == b
  {
    if b != [] {
      WritesWhatWasRead(b[..|b| - 1]);
      assert b == b[..|b| - 1] + [b[|b| - 1]];
    }
  }

  lemma Widths()
    ensures Pow256(1) == 0x100 && Pow256(2) == 0x1_0000
    ensures Pow256(4) == 0x1_0000_0000 && Pow256(8) == TWO_64
  {
    assert Pow256(3) == 256 * Pow256(2);
    assert Pow256(5) == 256 * Pow256(4);
    assert Pow256(6) == 256 * Pow256(5);
    assert Pow256(7) == 256 * Pow256(6);
    assert Pow256(8) == 256 * Pow256(7);
  }

  // ----- heads -----

  type Major = m: int | 0 <= m < 8

  const UNSIGNED: Major := 0
  const NEGATIVE: Major := 1
  const BYTE_STRING: Major := 2
  const TEXT_STRING: Major := 3
  const ARRAY: Major := 4

  /** How many bytes follow the initial byte of the shortest head for an argument. */
  function WidthOf(arg: uint64): nat {
    if arg < 24 then 0 else if arg < 0x100 then 1 else if arg < 0x1_0000 then 2
    else if arg < 0x1_0000_0000 then 4 else 8
  }

  function LowBits(width: nat): nat {
    if width == 1 then 24 else if width == 2 then 25 else if width == 4 then 26 else 27
  }

  function EncHead(major: Major, arg: uint64): (b: Bytes)
    ensures b != [] && b[0] / 32 == major
  {
    if arg < 24 then [major * 32 + arg]
    else [major * 32 + LowBits(WidthOf(arg))] + ToBytes(WidthOf(arg), arg)
  }

  function WidthFor(low: nat): nat {
    if low == 24 then 1 else if low == 25 then 2 else if low == 26 then 4 else 8
  }

  /** Reads a head; longer forms of an argument that has a shorter one are refused. */
  function DecHead(b: Bytes): Option<((Major, uint64), Bytes)> {
    if b == [] then None
    else
      var low := b[0] % 32;
      if low < 24 then Some(((b[0] / 32, low), b[1..]))
      else if low > 27 || |b| < 1 + WidthFor(low) then None
      else
        Widths();
        var arg := FromBytes(b[1..1 + WidthFor(low)]);
        if WidthOf(arg) != WidthFor(low) then None
        else Some(((b[0] / 32, arg), b[1 + WidthFor(low)..]))
  }

  lemma HeadReadsBack(major: Major, arg: uint64, rest: Bytes)
    ensures DecHead(EncHead(major, arg) + rest) == Some(((major, arg), rest))
  {
    var b := EncHead(major, arg) + rest;
    if arg < 24 {
      assert b[1..] == rest;
    } else {
      var w := WidthOf(arg);
      Widths();
      assert b[1..1 + w] == ToBytes(w, arg);
      assert b[1 + w..] == rest;
      ReadsWhatWasWritten(w, arg);
    }
  }

  lemma HeadIsCanonical(b: Bytes)
    requires DecHead(b).Some?
    ensures var ((major, arg), rest) := DecHead(b).value;
            b == EncHead(major, arg) + rest
  {
    var low := b[0] % 32;
    if low < 24 {
      assert b == [b[0]] + b[1..];
    } else {
      var w := WidthFor(low);
      WritesWhatWasRead(b[1..1 + w]);
      assert b == [b[0]] + b[1..1 + w] + b[1 + w..];
    }
  }

  // ----- leaves -----

  /** A number of a given major type. */
  function Arg(major: Major): Codec<uint64> {
    Codec(_ => true, v => Some(EncHead(major, v)), b => DecArg(major, b))
  }

  function DecArg(major: Major, b: Bytes): Option<(uint64, Bytes)> {
    match DecHead(b)
    case None => None
    case Some(h) => if h.0.0 == major then Some((h.0.1, h.1)) else None
  }

  lemma ArgLawful(major: Major)
    ensures Lawful(Arg(major)) && Canonical(Arg(major)) && Total(Arg(major))
    ensures major < 7 ==> NeverNull(Arg(major))
  {
    var c := Arg(major);
    forall v: uint64, rest: Bytes
      ensures c.dec(c.enc(v).value + rest) == Some((v, rest))
    {
      HeadReadsBack(major, v, rest);
    }
    forall b | c.dec(b).Some?
      ensures b == c.enc(c.dec(b).value.0).value + c.dec(b).value.1
    {
      HeadIsCanonical(b);
    }
    CanonicalFromFront(c);
  }

  lemma CanonicalFromFront<T(!new)>(c: Codec<T>)
    requires Canonical(c)
    ensures ReadsFromFront(c)
  {
    forall b | c.dec(b).Some?
      ensures IsSuffix(c.dec(b).value.1, b)
    {
      SuffixOfSum(c.enc(c.dec(b).value.0).value, c.dec(b).value.1);
    }
  }

  /** The argument a negative number is written with, computed in 64 bits. */
  function NegativeArg(x: int64): uint64
    requires x < 0
  {
    ToUint64(Wrap64(Wrap64(0 - x) - 1))
  }

  function EncInt64(x: int64): Bytes {
    if x >= 0 then EncHead(UNSIGNED, x) else EncHead(NEGATIVE, NegativeArg(x))
  }

  function DecInt64(b: Bytes): Option<(int64, Bytes)> {
    match DecHead(b)
    case None => None
    case Some(h) =>
      var i := ToInt64(h.0.1);
      if i < 0 then None
      else if h.0.0 == UNSIGNED then Some((i, h.1))
      else if h.0.0 == NEGATIVE then Some((-1 - i, h.1))
      else None
  }

  function Int64(): Codec<int64> {
    Codec(_ => true, x => Some(EncInt64(x)), b => DecInt64(b))
  }

  /** Exact for every int64: at the minimum the negation wraps, and so does the subtraction after it. */
  lemma NegativeArgExact(x: int64)
    requires x < 0
    ensures NegativeArg(x) == -1 - x && NegativeArg(x) < TWO_63
  {}

  /**
   * Every int64 survives, the minimum included, and the decoder takes exactly the two integer major
   * types with arguments below 2^63, one encoding for each number.
   */
  lemma Int64Lawful()
    ensures Lawful(Int64()) && Canonical(Int64()) && Total(Int64()) && NeverNull(Int64())
    ensures forall b :: DecInt64(b).Some? <==>
              DecHead(b).Some? && DecHead(b).value.0.0 <= NEGATIVE && DecHead(b).value.0.1 < TWO_63
  {
    var c := Int64();
    forall x: int64, rest: Bytes
      ensures c.dec(c.enc(x).value + rest) == Some((x, rest))
    {
      if x >= 0 {
        HeadReadsBack(UNSIGNED, x, rest);
      } else {
        NegativeArgExact(x);
        HeadReadsBack(NEGATIVE, NegativeArg(x), rest);
      }
    }
    forall b | c.dec(b).Some?
      ensures b == c.enc(c.dec(b).value.0).value + c.dec(b).value.1
    {
      HeadIsCanonical(b);
      if c.dec(b).value.0 < 0 {
        NegativeArgExact(c.dec(b).value.0);
      }
    }
    CanonicalFromFront(c);
  }

  /** A string of bytes, no longer than max. */
  function Blob(major: Major, max: uint64): Codec<Bytes> {
    Codec(_ => true, s => EncBlob(major, max, s), b => DecBlob(major, max, b))
  }

  function EncBlob(major: Major, max: uint64, s: Bytes): Option<Bytes> {
    if |s| > max then None else Some(EncHead(major, |s|) + s)
  }

  function DecBlob(major: Major, max: uint64, b: Bytes): Option<(Bytes, Bytes)> {
    match DecArg(major, b)
    case None => None
    case Some((n, r)) => if n > max || |r| < n then None else Some((r[..n], r[n..]))
  }

  lemma BlobReadsBack(major: Major, max: uint64, s: Bytes, rest: Bytes)
    requires |s| <= max
    ensures DecBlob(major, max, EncHead(major, |s|) + s + rest) == Some((s, rest))
  {
    hide EncHead, DecHead;
    HeadReadsBack(major, |s|, s + rest);
    assert EncHead(major, |s|) + s + rest == EncHead(major, |s|) + (s + rest);
    assert (s + rest)[..|s|] == s && (s + rest)[|s|..] == rest;
  }

  lemma BlobIsCanonical(major: Major, max: uint64, b: Bytes)
    requires DecBlob(major, max, b).Some?
    ensures var (s, rest) := DecBlob(major, max, b).value;
            |s| <= max && b == EncHead(major, |s|) + s + rest
  {
    hide EncHead, DecHead;
    HeadIsCanonical(b);
    var (n, r) := DecArg(major, b).value;
    assert r == r[..n] + r[n..];
    assert b == EncHead(major, n) + r[..n] + r[n..];
  }

  lemma BlobLawful(major: Major, max: uint64)
    ensures Lawful(Blob(major, max)) && Canonical(Blob(major, max)) && Total(Blob(major, max))
    ensures major < 7 ==> NeverNull(Blob(major, max))
  {
    hide DecBlob, EncHead;
    var c := Blob(major, max);
    forall s, rest: Bytes | c.enc(s).Some?
      ensures c.dec(c.enc(s).value + rest) == Some((s, rest))
    {
      BlobReadsBack(major, max, s, rest);
    }
    forall b | c.dec(b).Some?
      ensures c.enc(c.dec(b).value.0).Some? && b == c.enc(c.dec(b).value.0).value + c.dec(b).value.1
    {
      BlobIsCanonical(major, max, b);
    }
    CanonicalFromFront(c);
  }

  // ----- wholes from parts -----

  function Both<A, B>(a: Codec<A>, b: Codec<B>): Codec<(A, B)> {
    Codec((p: (A, B)) => a.dom(p.0) && b.dom(p.1),
          (p: (A, B)) => EncBoth(a, b, p.0, p.1),
          s => DecBoth(a, b, s))
  }

  function EncBoth<A, B>(a: Codec<A>, b: Codec<B>, x: A, y: B): Option<Bytes> {
    if a.enc(x).Some? && b.enc(y).Some? then Some(a.enc(x).value + b.enc(y).value) else None
  }

  function DecBoth<A, B>(a: Codec<A>, b: Codec<B>, s: Bytes): Option<((A, B), Bytes)> {
    match a.dec(s)
    case None => None
    case Some((x, r)) =>
      match b.dec(r)
      case None => None
      case Some((y, rest)) => Some(((x, y), rest))
  }

  lemma BothLawful<A(!new), B(!new)>(a: Codec<A>, b: Codec<B>)
    requires Lawful(a) && Lawful(b)
    ensures Lawful(Both(a, b))
    ensures Canonical(a) && Canonical(b) ==> Canonical(Both(a, b))
    ensures Total(a) && Total(b) ==> Total(Both(a, b))
    ensures NeverNull(a) ==> NeverNull(Both(a, b))
  {
    var c := Both(a, b);
    forall p: (A, B), rest: Bytes | c.enc(p).Some?
      ensures c.dec(c.enc(p).value + rest) == if c.dom(p) then Some((p, rest)) else None
    {
      BothReadsBack(a, b, p, rest);
    }
    forall s | c.dec(s).Some?
      ensures IsSuffix(c.dec(s).value.1, s)
    {
      var (_, r) := a.dec(s).value;
      SuffixOfSuffix(b.dec(r).value.1, r, s);
    }
    if Canonical(a) && Canonical(b) {
      BothCanonical(a, b);
    }
    if NeverNull(a) {
      BothNeverNull(a, b);
    }
  }

  lemma BothReadsBack<A(!new), B(!new)>(a: Codec<A>, b: Codec<B>, p: (A, B), rest: Bytes)
    requires ReadsBack(a) && ReadsBack(b) && Both(a, b).enc(p).Some?
    ensures Both(a, b).dec(Both(a, b).enc(p).value + rest)
         == if Both(a, b).dom(p) then Some((p, rest)) else None
  {
    var e, f := a.enc(p.0).value, b.enc(p.1).value;
    assert e + f + rest == e + (f + rest);
    assert a.dec(e + (f + rest)) == if a.dom(p.0) then Some((p.0, f + rest)) else None;
    assert b.dec(f + rest) == if b.dom(p.1) then Some((p.1, rest)) else None;
  }

  lemma BothCanonical<A(!new), B(!new)>(a: Codec<A>, b: Codec<B>)
    requires Canonical(a) && Canonical(b)
    ensures Canonical(Both(a, b))
  {
    var c := Both(a, b);
    forall s | c.dec(s).Some?
      ensures c.dom(c.dec(s).value.0) && c.enc(c.dec(s).value.0).Some?
      ensures s == c.enc(c.dec(s).value.0).value + c.dec(s).value.1
    {
      var (x, r) := a.dec(s).value;
      var (y, rest) := b.dec(r).value;
      assert s == a.enc(x).value + (b.enc(y).value + rest);
    }
  }

  lemma BothNeverNull<A(!new), B(!new)>(a: Codec<A>, b: Codec<B>)
    requires NeverNull(a)
    ensures NeverNull(Both(a, b))
  {}

  /** A fixed number of fields behind an array head. */
  function Fields<A>(n: uint64, c: Codec<A>): Codec<A> {
    Codec(c.dom, x => EncFields(n, c, x), s => DecFields(n, c, s))
  }

  function EncFields<A>(n: uint64, c: Codec<A>, x: A): Option<Bytes> {
    if c.enc(x).Some? then Some(EncHead(ARRAY, n) + c.enc(x).value) else None
  }

  function DecFields<A>(n: uint64, c: Codec<A>, s: Bytes): Option<(A, Bytes)> {
    match DecArg(ARRAY, s)
    case None => None
    case Some((k, r)) => if k == n then c.dec(r) else None
  }

  lemma FieldsLawful<A(!new)>(n: uint64, c: Codec<A>)
    requires Lawful(c)
    ensures Lawful(Fields(n, c)) && NeverNull(Fields(n, c)) && RefusesNull(Fields(n, c))
    ensures Canonical(c) ==> Canonical(Fields(n, c))
    ensures Total(c) ==> Total(Fields(n, c))
  {
    var f := Fields(n, c);
    forall x, rest: Bytes | f.enc(x).Some?
      ensures f.dec(f.enc(x).value + rest) == if f.dom(x) then Some((x, rest)) else None
    {
      HeadReadsBack(ARRAY, n, c.enc(x).value + rest);
      assert EncHead(ARRAY, n) + c.enc(x).value + rest == EncHead(ARRAY, n) + (c.enc(x).value + rest);
    }
    forall s | f.dec(s).Some?
      ensures IsSuffix(f.dec(s).value.1, s)
    {
      var (_, r) := DecArg(ARRAY, s).value;
      HeadLeavesSuffix(ARRAY, s);
      SuffixOfSuffix(f.dec(s).value.1, r, s);
    }
    if Canonical(c) {
      FieldsCanonical(n, c);
    }
  }

  lemma HeadLeavesSuffix(major: Major, s: Bytes)
    requires DecArg(major, s).Some?
    ensures IsSuffix(DecArg(major, s).value.1, s)
  {
    hide EncHead, DecHead;
    HeadIsCanonical(s);
    var (n, r) := DecArg(major, s).value;
    SuffixOfSum(EncHead(major, n), r);
  }

  lemma FieldsCanonical<A(!new)>(n: uint64, c: Codec<A>)
    requires Canonical(c)
    ensures Canonical(Fields(n, c))
  {
    var f := Fields(n, c);
    forall s | f.dec(s).Some?
      ensures f.dom(f.dec(s).value.0) && f.enc(f.dec(s).value.0).Some?
      ensures s == f.enc(f.dec(s).value.0).value + f.dec(s).value.1
    {
      HeadIsCanonical(s);
      var (_, r) := DecArg(ARRAY, s).value;
      var (x, rest) := c.dec(r).value;
      assert s == EncHead(ARRAY, n) + (c.enc(x).value + rest);
    }
  }

  /** A slice, no longer than max. */
  function Slice<A>(max: uint64, c: Codec<A>): Codec<seq<A>> {
    Codec(xs => forall i :: 0 <= i < |xs| ==> c.dom(xs[i]), xs => EncSlice(max, c, xs), s => DecSlice(max, c, s))
  }

  function EncAll<A>(c: Codec<A>, xs: seq<A>): Option<Bytes> {
    if xs == [] then Some([])
    else if c.enc(xs[0]).Some? && EncAll(c, xs[1..]).Some? then Some(c.enc(xs[0]).value + EncAll(c, xs[1..]).value)
    else None
  }

  function DecAll<A>(c: Codec<A>, n: nat, s: Bytes): Option<(seq<A>, Bytes)> {
    if n == 0 then Some(([], s))
    else
      match c.dec(s)
      case None => None
      case Some((x, r)) =>
        match DecAll(c, n - 1, r)
        case None => None
        case Some((xs, rest)) => Some(([x] + xs, rest))
  }

  function EncSlice<A>(max: uint64, c: Codec<A>, xs: seq<A>): Option<Bytes> {
    if |xs| > max || EncAll(c, xs).None? then None else Some(EncHead(ARRAY, |xs|) + EncAll(c, xs).value)
  }

  function DecSlice<A>(max: uint64, c: Codec<A>, s: Bytes): Option<(seq<A>, Bytes)> {
    match DecArg(ARRAY, s)
    case None => None
    case Some((n, r)) => if n > max then None else DecAll(c, n, r)
  }

  lemma {:induction false} AllReadsBack<A(!new)>(c: Codec<A>, xs: seq<A>, rest: Bytes)
    requires ReadsBack(c) && EncAll(c, xs).Some?
    ensures DecAll(c, |xs|, EncAll(c, xs).value + rest)
         == if forall i :: 0 <= i < |xs| ==> c.dom(xs[i]) then Some((xs, rest)) else None
  {
    if xs == [] {
      assert [] + rest == rest;
    } else {
      var e, f := c.enc(xs[0]).value, EncAll(c, xs[1..]).value;
      AllReadsBack(c, xs[1..], rest);
      assert e + f + rest == e + (f + rest);
      assert c.dec(e + (f + rest)) == if c.dom(xs[0]) then Some((xs[0], f + rest)) else None;
      assert xs == [xs[0]] + xs[1..];
    }
  }

  lemma {:induction false} AllFromFront<A(!new)>(c: Codec<A>, n: nat, s: Bytes)
    requires ReadsFromFront(c) && DecAll(c, n, s).Some?
    ensures IsSuffix(DecAll(c, n, s).value.1, s)
  {
    if n > 0 {
      var (_, r) := c.dec(s).value;
      AllFromFront(c, n - 1, r);
      SuffixOfSuffix(DecAll(c, n, s).value.1, r, s);
    }
  }

  lemma {:induction false} AllIsCanonical<A(!new)>(c: Codec<A>, n: nat, s: Bytes)
    requires Canonical(c) && DecAll(c, n, s).Some?
    ensures var (xs, rest) := DecAll(c, n, s).value;
      && |xs| == n && (forall i :: 0 <= i < n ==> c.dom(xs[i]))
      && EncAll(c, xs).Some? && s == EncAll(c, xs).value + rest
  {
    if n == 0 {
      assert [] + s == s;
    } else {
      var (x, r) := c.dec(s).value;
      AllIsCanonical(c, n - 1, r);
      var (ys, rest) := DecAll(c, n - 1, r).value;
      var xs := [x] + ys;
      assert xs[1..] == ys;
      assert s == c.enc(x).value + (EncAll(c, ys).value + rest);
    }
  }

  lemma SliceReadsBack<A(!new)>(max: uint64, c: Codec<A>, xs: seq<A>, rest: Bytes)
    requires ReadsBack(c) && EncSlice(max, c, xs).Some?
    ensures DecSlice(max, c, EncSlice(max, c, xs).value + rest)
         == if forall i :: 0 <= i < |xs| ==> c.dom(xs[i]) then Some((xs, rest)) else None
  {
    hide ReadsBack, Canonical, EncAll, DecAll, EncHead, DecHead;
    var e := EncAll(c, xs).value;
    HeadReadsBack(ARRAY, |xs|, e + rest);
    assert EncHead(ARRAY, |xs|) + e + rest == EncHead(ARRAY, |xs|) + (e + rest);
    AllReadsBack(c, xs, rest);
  }

  lemma SliceIsCanonical<A(!new)>(max: uint64, c: Codec<A>, s: Bytes)
    requires Canonical(c) && DecSlice(max, c, s).Some?
    ensures var (xs, rest) := DecSlice(max, c, s).value;
      && (forall i :: 0 <= i < |xs| ==> c.dom(xs[i]))
      && EncSlice(max, c, xs).Some? && s == EncSlice(max, c, xs).value + rest
  {
    hide ReadsBack, Canonical, EncAll, DecAll, EncHead, DecHead;
    HeadIsCanonical(s);
    var (n, r) := DecArg(ARRAY, s).value;
    AllIsCanonical(c, n, r);
    var (xs, rest) := DecAll(c, n, r).value;
    assert s == EncHead(ARRAY, n) + EncAll(c, xs).value + rest;
  }

  lemma SliceFromFront<A(!new)>(max: uint64, c: Codec<A>, s: Bytes)
    requires ReadsFromFront(c) && DecSlice(max, c, s).Some?
    ensures IsSuffix(DecSlice(max, c, s).value.1, s)
  {
    hide ReadsFromFront, DecAll, DecHead;
    var (n, r) := DecArg(ARRAY, s).value;
    HeadLeavesSuffix(ARRAY, s);
    AllFromFront(c, n, r);
    SuffixOfSuffix(DecSlice(max, c, s).value.1, r, s);
  }

  lemma SliceLawful<A(!new)>(max: uint64, c: Codec<A>)
    requires Lawful(c)
    ensures Lawful(Slice(max, c)) && NeverNull(Slice(max, c))
    ensures Canonical(c) ==> Canonical(Slice(max, c))
    ensures Total(c) ==> Total(Slice(max, c))
  {
    hide EncSlice, DecSlice, IsSuffix;
    var f := Slice(max, c);
    forall xs: seq<A>, rest: Bytes | f.enc(xs).Some?
      ensures f.dec(f.enc(xs).value + rest) == if f.dom(xs) then Some((xs, rest)) else None
    {
      SliceReadsBack(max, c, xs, rest);
    }
    forall s | f.dec(s).Some?
      ensures IsSuffix(f.dec(s).value.1, s)
    {
      SliceFromFront(max, c, s);
    }
    if Canonical(c) {
      SliceCanonical(max, c);
    }
    forall xs: seq<A> | f.enc(xs).Some?
      ensures f.enc(xs).value != [] && !StartsNull(f.enc(xs).value)
    {
      SliceStarts(max, c, xs);
    }
  }

  lemma SliceCanonical<A(!new)>(max: uint64, c: Codec<A>)
    requires Canonical(c)
    ensures Canonical(Slice(max, c))
  {
    hide EncSlice, DecSlice;
    var f := Slice(max, c);
    forall s | f.dec(s).Some?
      ensures f.dom(f.dec(s).value.0) && f.enc(f.dec(s).value.0).Some?
      ensures s == f.enc(f.dec(s).value.0).value + f.dec(s).value.1
    {
      SliceIsCanonical(max, c, s);
    }
  }

  lemma SliceStarts<A>(max: uint64, c: Codec<A>, xs: seq<A>)
    requires EncSlice(max, c, xs).Some?
    ensures EncSlice(max, c, xs).value != [] && !StartsNull(EncSlice(max, c, xs).value)
  {
    hide EncAll;
  }

  /** A pointer field: nil is the null byte, and the reader looks one byte ahead to tell. */
  function Pointer<A>(c: Codec<A>): Codec<Option<A>> {
    Codec((x: Option<A>) => x.Some? ==> c.dom(x.value), x => EncPointer(c, x), s => DecPointer(c, s))
  }

  function EncPointer<A>(c: Codec<A>, x: Option<A>): Option<Bytes> {
    if x.None? then Some([NULL_BYTE]) else c.enc(x.value)
  }

  function DecPointer<A>(c: Codec<A>, s: Bytes): Option<(Option<A>, Bytes)> {
    if s == [] then None
    else if s[0] == NULL_BYTE then Some((None, s[1..]))
    else
      match c.dec(s)
      case None => None
      case Some((x, rest)) => Some((Some(x), rest))
  }

  lemma PointerLawful<A(!new)>(c: Codec<A>)
    requires Lawful(c) && NeverNull(c)
    ensures Lawful(Pointer(c))
    ensures Canonical(c) ==> Canonical(Pointer(c))
    ensures Total(c) ==> Total(Pointer(c))
  {
    var f := Pointer(c);
    forall x, rest: Bytes | f.enc(x).Some?
      ensures f.dec(f.enc(x).value + rest) == if f.dom(x) then Some((x, rest)) else None
    {
      if x.None? {
        assert ([NULL_BYTE] + rest)[1..] == rest;
      } else {
        assert c.dec(c.enc(x.value).value + rest) == if c.dom(x.value) then Some((x.value, rest)) else None;
      }
    }
    if Canonical(c) {
      PointerCanonical(c);
    }
  }

  lemma PointerCanonical<A(!new)>(c: Codec<A>)
    requires Canonical(c)
    ensures Canonical(Pointer(c))
  {
    var f := Pointer(c);
    forall s | f.dec(s).Some?
      ensures f.dom(f.dec(s).value.0) && f.enc(f.dec(s).value.0).Some?
      ensures s == f.enc(f.dec(s).value.0).value + f.dec(s).value.1
    {
      if s[0] == NULL_BYTE {
        assert s == [NULL_BYTE] + s[1..];
      }
    }
  }

  /** An element of a slice of pointers: a nil one is printed as null, which no element reader takes. */
  function Element<A>(c: Codec<A>): Codec<Option<A>> {
    Codec((x: Option<A>) => x.Some? && c.dom(x.value), x => EncPointer(c, x), s => DecElement(c, s))
  }

  function DecElement<A>(c: Codec<A>, s: Bytes): Option<(Option<A>, Bytes)> {
    match c.dec(s)
    case None => None
    case Some((x, rest)) => Some((Some(x), rest))
  }

  lemma ElementLawful<A(!new)>(c: Codec<A>)
    requires Lawful(c) && RefusesNull(c)
    ensures Lawful(Element(c))
    ensures Canonical(c) ==> Canonical(Element(c))
  {
    var f := Element(c);
    forall x, rest: Bytes | f.enc(x).Some?
      ensures f.dec(f.enc(x).value + rest) == if f.dom(x) then Some((x, rest)) else None
    {
      if x.None? {
        assert StartsNull([NULL_BYTE] + rest);
      } else {
        assert c.dec(c.enc(x.value).value + rest) == if c.dom(x.value) then Some((x.value, rest)) else None;
      }
    }
  }

  /** The same bytes for a type with the same values. */
  function Via<A, B>(c: Codec<A>, to: A -> B, from: B -> A): Codec<B> {
    Codec(y => c.dom(from(y)), y => c.enc(from(y)), s => DecVia(c, to, s))
  }

  function DecVia<A, B>(c: Codec<A>, to: A -> B, s: Bytes): Option<(B, Bytes)> {
    match c.dec(s)
    case None => None
    case Some((x, rest)) => Some((to(x), rest))
  }

  lemma ViaLawful<A(!new), B(!new)>(c: Codec<A>, to: A -> B, from: B -> A)
    requires Lawful(c)
    requires forall x :: from(to(x)) == x
    requires forall y :: to(from(y)) == y
    ensures Lawful(Via(c, to, from))
    ensures Canonical(c) ==> Canonical(Via(c, to, from))
    ensures Total(c) ==> Total(Via(c, to, from))
    ensures NeverNull(c) ==> NeverNull(Via(c, to, from))
    ensures RefusesNull(c) ==> RefusesNull(Via(c, to, from))
  {
    var f := Via(c, to, from);
    forall y, rest: Bytes | f.enc(y).Some?
      ensures f.dec(f.enc(y).value + rest) == if f.dom(y) then Some((y, rest)) else None
    {
      assert c.dec(c.enc(from(y)).value + rest) == if c.dom(from(y)) then Some((from(y), rest)) else None;
    }
    if Canonical(c) {
      ViaCanonical(c, to, from);
    }
  }

  lemma ViaCanonical<A(!new), B(!new)>(c: Codec<A>, to: A -> B, from: B -> A)
    requires Canonical(c)
    requires forall x :: from(to(x)) == x
    ensures Canonical(Via(c, to, from))
  {
    var f := Via(c, to, from);
    forall s | f.dec(s).Some?
      ensures f.dom(f.dec(s).value.0) && f.enc(f.dec(s).value.0).Some?
      ensures s == f.enc(f.dec(s).value.0).value + f.dec(s).value.1
    {
      assert from(to(c.dec(s).value.0)) == c.dec(s).value.0;
    }
  }
}
