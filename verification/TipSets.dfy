/** Canonical tipsets: ordering the blocks, checking that they agree, and comparing CID lists. */
module TipSets {
  import opened Common
  import opened ChainTypes

  // ----- comparing byte strings -----

  /** bytes.Compare(a, b) < 0 */
  predicate LexLess(a: Bytes, b: Bytes) {
    b != [] && (a == [] || a[0] < b[0] || (a[0] == b[0] && LexLess(a[1..], b[1..])))
  }

  lemma {:induction false} LexTotal(a: Bytes, b: Bytes)
    ensures LexLess(a, b) || LexLess(b, a) || a == b
    ensures !(LexLess(a, b) && LexLess(b, a))
    ensures !LexLess(a, a)
  {
    if a != [] && b != [] {
      LexTotal(a[1..], b[1..]);
      if a[0] == b[0] && a[1..] == b[1..] {
        assert a == [a[0]] + a[1..] && b == [b[0]] + b[1..];
      }
    }
    if a != [] {
      LexTotal(a[1..], a[1..]);
    }
  }

  lemma {:induction false} LexTransitive(a: Bytes, b: Bytes, c: Bytes)
    requires LexLess(a, b) && LexLess(b, c)
    ensures LexLess(a, c)
  {
    if a != [] && a[0] == b[0] == c[0] {
      LexTransitive(a[1..], b[1..], c[1..]);
    }
  }

  // ----- the canonical order -----

  /** The digest a ticket is compared by, and the CID of a header (None when it cannot be encoded). */
  datatype Hashes = Hashes(digest: Bytes -> Bytes, headerCid: BlockHeader -> Option<Cid>)

  ghost predicate DigestsDistinct(h: Hashes) {
    forall p, q :: h.digest(p) == h.digest(q) ==> p == q
  }

  /** Among these blocks, no two different ones have the same CID. */
  ghost predicate CidsDetermineHeaders(h: Hashes, blks: seq<BlockHeader>) {
    forall b, c :: b in blks && c in blks && h.headerCid(b).Some? && h.headerCid(b) == h.headerCid(c) ==> b == c
  }

  datatype Entry = Entry(bh: BlockHeader, cid: Cid)

  predicate HasTicket(e: Entry) {
    e.bh.ticket.Some?
  }

  /** The comparator given to the sort: by ticket digest, and by CID between equal tickets. */
  predicate Before(h: Hashes, a: Entry, b: Entry)
    requires HasTicket(a) && HasTicket(b)
  {
    var p, q := a.bh.ticket.value.vrfProof, b.bh.ticket.value.vrfProof;
    if p == q then LexLess(a.cid.bytes, b.cid.bytes) else LexLess(h.digest(p), h.digest(q))
  }

  ghost predicate AllTickets(s: seq<Entry>) {
    forall e :: e in s ==> HasTicket(e)
  }

  /** A strict order, total up to equal CIDs. */
  lemma BeforeIsStrictOrder(h: Hashes, a: Entry, b: Entry, c: Entry)
    requires HasTicket(a) && HasTicket(b) && HasTicket(c) && DigestsDistinct(h)
    ensures !Before(h, a, a) && !(Before(h, a, b) && Before(h, b, a))
    ensures Before(h, a, b) && Before(h, b, c) ==> Before(h, a, c)
    ensures Before(h, a, b) || Before(h, b, a)
         || (a.cid == b.cid && a.bh.ticket == b.bh.ticket)
  {
    var p, q, r := a.bh.ticket.value.vrfProof, b.bh.ticket.value.vrfProof, c.bh.ticket.value.vrfProof;
    LexTotal(a.cid.bytes, b.cid.bytes);
    LexTotal(h.digest(p), h.digest(q));
    LexTotal(a.cid.bytes, a.cid.bytes);
    LexTotal(h.digest(q), h.digest(r));
    if Before(h, a, b) && Before(h, b, c) {
      if p == q == r {
        LexTransitive(a.cid.bytes, b.cid.bytes, c.cid.bytes);
      } else if p != q && q != r {
        LexTransitive(h.digest(p), h.digest(q), h.digest(r));
      }
    }
  }

  // ----- sorting -----

  /** Puts an entry into its place in a sorted list, behind the entries it is not before. */
  function Insert(h: Hashes, s: seq<Entry>, e: Entry): seq<Entry>
    requires AllTickets(s) && HasTicket(e)
  {
    if s == [] || !Before(h, e, s[|s| - 1]) then s + [e]
    else Insert(h, s[..|s| - 1], e) + [s[|s| - 1]]
  }

  lemma {:induction false} InsertMembers(h: Hashes, s: seq<Entry>, e: Entry)
    requires AllTickets(s) && HasTicket(e)
    ensures multiset(Insert(h, s, e)) == multiset(s) + multiset{e}
    ensures forall x :: x in Insert(h, s, e) <==> x in s || x == e
  {
    if s != [] {
      InsertMembers(h, s[..|s| - 1], e);
      assert s == s[..|s| - 1] + [s[|s| - 1]];
    }
  }

  function Sort(h: Hashes, s: seq<Entry>): (r: seq<Entry>)
    requires AllTickets(s)
    ensures multiset(r) == multiset(s) && AllTickets(r)
  {
    if s == [] then []
    else
      assert s == s[..|s| - 1] + [s[|s| - 1]];
      InsertMembers(h, Sort(h, s[..|s| - 1]), s[|s| - 1]);
      Insert(h, Sort(h, s[..|s| - 1]), s[|s| - 1])
  }

  ghost predicate Ordered(h: Hashes, s: seq<Entry>)
    requires AllTickets(s)
  {
    forall i, j :: 0 <= i < j < |s| ==> !Before(h, s[j], s[i])
  }

  lemma AppendKeepsOrder(h: Hashes, s: seq<Entry>, e: Entry)
    requires AllTickets(s) && HasTicket(e) && Ordered(h, s)
    requires forall x :: x in s ==> !Before(h, e, x)
    ensures Ordered(h, s + [e])
  {}

  lemma NotBeforeAny(h: Hashes, s: seq<Entry>, e: Entry)
    requires AllTickets(s) && HasTicket(e) && DigestsDistinct(h) && Ordered(h, s)
    requires s != [] ==> !Before(h, e, s[|s| - 1])
    ensures forall x :: x in s ==> !Before(h, e, x)
  {
    forall x | x in s
      ensures !Before(h, e, x)
    {
      var last := s[|s| - 1];
      BeforeIsStrictOrder(h, e, x, last);
      BeforeIsStrictOrder(h, x, last, e);
      BeforeIsStrictOrder(h, last, e, x);
    }
  }

  lemma {:induction false} InsertKeepsOrder(h: Hashes, s: seq<Entry>, e: Entry)
    requires AllTickets(s) && HasTicket(e) && DigestsDistinct(h) && Ordered(h, s)
    ensures AllTickets(Insert(h, s, e)) && Ordered(h, Insert(h, s, e))
  {
    InsertMembers(h, s, e);
    if s == [] || !Before(h, e, s[|s| - 1]) {
      NotBeforeAny(h, s, e);
      AppendKeepsOrder(h, s, e);
    } else {
      var front, last := s[..|s| - 1], s[|s| - 1];
      assert s == front + [last];
      InsertKeepsOrder(h, front, e);
      InsertMembers(h, front, e);
      BeforeIsStrictOrder(h, e, last, e);
      AppendKeepsOrder(h, Insert(h, front, e), last);
    }
  }

  lemma {:induction false} SortOrders(h: Hashes, s: seq<Entry>)
    requires AllTickets(s) && DigestsDistinct(h)
    ensures Ordered(h, Sort(h, s))
  {
    if s != [] {
      SortOrders(h, s[..|s| - 1]);
      InsertKeepsOrder(h, Sort(h, s[..|s| - 1]), s[|s| - 1]);
    }
  }

  /** Each entry carries the CID of its own header. */
  ghost predicate Labelled(h: Hashes, s: seq<Entry>) {
    forall e :: e in s ==> h.headerCid(e.bh) == Some(e.cid)
  }

  /** An entry is known by its CID. */
  ghost predicate CidsTell(s: seq<Entry>) {
    forall a, b :: a in s && b in s && a.cid == b.cid ==> a == b
  }

  /** There is only one ordered arrangement of a set of blocks, so it does not matter who sorts them. */
  lemma {:induction false} OrderIsUnique(h: Hashes, s: seq<Entry>, t: seq<Entry>)
    requires DigestsDistinct(h) && CidsTell(s)
    requires AllTickets(s) && AllTickets(t)
    requires Ordered(h, s) && Ordered(h, t) && multiset(s) == multiset(t)
    ensures s == t
    decreases |s|
  {
    hide DigestsDistinct, AllTickets, Ordered, CidsTell;
    assert |s| == |multiset(s)| && |t| == |multiset(t)|;
    if s != [] {
      var n := |s| - 1;
      LastIsUnique(h, s, t);
      WithoutLast(h, s);
      SameEntriesTell(s, t);
      WithoutLast(h, t);
      assert s == s[..n] + [s[n]] && t == t[..n] + [t[n]];
      OrderIsUnique(h, s[..n], t[..n]);
    }
  }

  lemma SameEntriesTell(s: seq<Entry>, t: seq<Entry>)
    requires CidsTell(s) && multiset(s) == multiset(t)
    ensures CidsTell(t)
  {
    SameMembers(s, t);
  }

  lemma WithoutLast(h: Hashes, s: seq<Entry>)
    requires s != [] && AllTickets(s) && Ordered(h, s) && CidsTell(s)
    ensures AllTickets(s[..|s| - 1]) && CidsTell(s[..|s| - 1]) && Ordered(h, s[..|s| - 1])
    ensures multiset(s[..|s| - 1]) == multiset(s) - multiset{s[|s| - 1]}
  {
    assert s == s[..|s| - 1] + [s[|s| - 1]];
  }

  lemma LastIsUnique(h: Hashes, s: seq<Entry>, t: seq<Entry>)
    requires DigestsDistinct(h) && CidsTell(s)
    requires AllTickets(s) && AllTickets(t)
    requires Ordered(h, s) && Ordered(h, t) && multiset(s) == multiset(t) && s != [] && t != []
    ensures s[|s| - 1] == t[|t| - 1]
  {
    var a, b := s[|s| - 1], t[|t| - 1];
    assert a in multiset(s) && b in multiset(t);
    var i :| 0 <= i < |t| && t[i] == a;
    var j :| 0 <= j < |s| && s[j] == b;
    BeforeIsStrictOrder(h, a, b, a);
  }

  // ----- building a tipset -----

  /** The source appends the element before the one its loop is at; the other form is what it means. */
  datatype Form = Written | Intended

  datatype TipSetResult = Made(ts: TipSet) | Refused | Panics

  function Headers(s: seq<Entry>): seq<BlockHeader> {
    Map((e: Entry) => e.bh, s)
  }

  function Cids(s: seq<Entry>): seq<Cid> {
    Map((e: Entry) => e.cid, s)
  }

  function Entries(h: Hashes, blks: seq<BlockHeader>): (r: Option<seq<Entry>>)
    ensures r.Some? ==> |r.value| == |blks| && Labelled(h, r.value) && Headers(r.value) == blks
    ensures r.None? <==> exists b :: b in blks && h.headerCid(b).None?
  {
    if exists b :: b in blks && h.headerCid(b).None? then None
    else Some(seq(|blks|, i requires 0 <= i < |blks| => Entry(blks[i], h.headerCid(blks[i]).value)))
  }

  predicate Agree(a: BlockHeader, b: BlockHeader) {
    a.height == b.height && a.parents == b.parents
  }

  /** The blocks a tipset lists, out of the sorted ones. */
  function Listed(form: Form, s: seq<Entry>): seq<Entry>
    requires s != []
  {
    if form.Written? then [s[0]] + s[..|s| - 1] else s
  }

  /** The entries in the order they are looked at; a single one is never compared. */
  function Arrange(h: Hashes, es: seq<Entry>): (s: seq<Entry>)
    requires |es| == 1 || AllTickets(es)
    ensures multiset(s) == multiset(es)
  {
    if |es| == 1 then es else Sort(h, es)
  }

  function Assemble(form: Form, s: seq<Entry>, height: int64): TipSetResult
    requires s != []
  {
    if exists e :: e in s && !Agree(s[0].bh, e.bh) then Refused
    else Made(TipSet(Cids(Listed(form, s)), Headers(Listed(form, s)), height))
  }

  /** What NewTipSet makes of a list of blocks. A nil ticket meets a comparison as soon as there are two blocks. */
  function TipSetOf(h: Hashes, form: Form, blks: seq<BlockHeader>): TipSetResult {
    if blks == [] then Refused
    else
      match Entries(h, blks)
      case None => Refused
      case Some(es) =>
        if |es| > 1 && exists e :: e in es && !HasTicket(e) then Panics
        else
          SameMembers(Arrange(h, es), es);
          Assemble(form, Arrange(h, es), blks[0].height)
  }

  // ----- what a tipset is -----

  lemma {:induction false} CountEntries(h: Hashes, blks: seq<BlockHeader>, e: Entry)
    requires Entries(h, blks).Some?
    ensures multiset(Entries(h, blks).value)[e]
         == if h.headerCid(e.bh) == Some(e.cid) then multiset(blks)[e.bh] else 0
  {
    if blks != [] {
      var n := |blks| - 1;
      CountEntries(h, blks[..n], e);
      assert blks == blks[..n] + [blks[n]];
      assert Entries(h, blks).value == Entries(h, blks[..n]).value + [Entry(blks[n], h.headerCid(blks[n]).value)];
    }
  }

  lemma SameEntries(h: Hashes, blks: seq<BlockHeader>, blks': seq<BlockHeader>)
    requires multiset(blks) == multiset(blks') && Entries(h, blks).Some? && Entries(h, blks').Some?
    ensures multiset(Entries(h, blks).value) == multiset(Entries(h, blks').value)
  {
    hide Entries;
    forall e
      ensures multiset(Entries(h, blks).value)[e] == multiset(Entries(h, blks').value)[e]
    {
      CountEntries(h, blks, e);
      CountEntries(h, blks', e);
    }
  }

  lemma ArrangedEqually(h: Hashes, es: seq<Entry>, es': seq<Entry>)
    requires DigestsDistinct(h) && CidsTell(es) && multiset(es) == multiset(es')
    requires (|es| == 1 && |es'| == 1) || (AllTickets(es) && AllTickets(es'))
    ensures Arrange(h, es) == Arrange(h, es')
  {
    SameMembers(es, es');
    if |es| == 1 {
      assert es[0] in es';
    } else {
      SortOrders(h, es);
      SortOrders(h, es');
      SameMembers(Sort(h, es), es);
      SameMembers(Sort(h, es'), es');
      SameEntriesTell(es, Sort(h, es));
      OrderIsUnique(h, Sort(h, es), Sort(h, es'));
    }
  }

  lemma EntriesTell(h: Hashes, blks: seq<BlockHeader>)
    requires CidsDetermineHeaders(h, blks) && Entries(h, blks).Some?
    ensures CidsTell(Entries(h, blks).value)
  {
    var es := Entries(h, blks).value;
    forall a, b | a in es && b in es && a.cid == b.cid
      ensures a == b
    {
      var i := IndexOf(es, a);
      var j := IndexOf(es, b);
      assert blks[i] in blks && blks[j] in blks;
    }
  }

  /** A tipset is a function of the set of blocks: every order they come in gives the same result. */
  lemma TipSetIgnoresOrder(h: Hashes, form: Form, blks: seq<BlockHeader>, blks': seq<BlockHeader>)
    requires DigestsDistinct(h) && CidsDetermineHeaders(h, blks) && multiset(blks) == multiset(blks')
    ensures TipSetOf(h, form, blks) == TipSetOf(h, form, blks')
  {
    hide DigestsDistinct, CidsDetermineHeaders, CidsTell, Arrange, Assemble, Entries, Labelled;
    SameMembers(blks, blks');
    if blks != [] && Entries(h, blks).Some? {
      SameEntries(h, blks, blks');
      var es, es' := Entries(h, blks).value, Entries(h, blks').value;
      SameMembers(es, es');
      if |es| == 1 || AllTickets(es) {
        EntriesTell(h, blks);
        ArrangedEqually(h, es, es');
        SameMembers(Arrange(h, es), es);
        AssembledHeight(form, Arrange(h, es), es[0], es'[0]);
      }
    }
  }

  lemma AssembledHeight(form: Form, s: seq<Entry>, e: Entry, e': Entry)
    requires e in s && e' in s
    ensures Assemble(form, s, e.bh.height) == Assemble(form, s, e'.bh.height)
  {
    hide Listed;
  }

  /** The arranged entries a tipset was made from: labelled, agreeing, one for each block. */
  lemma Arranged(h: Hashes, form: Form, blks: seq<BlockHeader>) returns (s: seq<Entry>)
    requires TipSetOf(h, form, blks).Made?
    ensures |s| == |blks| > 0 && Labelled(h, s)
    ensures Entries(h, blks).Some? && multiset(s) == multiset(Entries(h, blks).value)
    ensures |s| == 1 || (AllTickets(Entries(h, blks).value) && s == Sort(h, Entries(h, blks).value))
    ensures forall e :: e in s ==> Agree(s[0].bh, e.bh)
    ensures TipSetOf(h, form, blks).ts == TipSet(Cids(Listed(form, s)), Headers(Listed(form, s)), blks[0].height)
  {
    hide Sort, Listed;
    var es := Entries(h, blks).value;
    s := Arrange(h, es);
    SameMembers(s, es);
  }

  lemma EntryOf(h: Hashes, blks: seq<BlockHeader>, s: seq<Entry>, i: nat) returns (k: nat)
    requires Entries(h, blks).Some? && multiset(s) == multiset(Entries(h, blks).value) && i < |blks|
    ensures k < |s| && s[k].bh.height == blks[i].height && s[k].bh.parents == blks[i].parents
  {
    hide Entries;
    var es := Entries(h, blks).value;
    SameMembers(s, es);
    k := IndexOf(s, es[i]);
    assert Headers(es)[i] == blks[i];
  }

  lemma ListedLabels(h: Hashes, s: seq<Entry>)
    requires Labelled(h, s)
    ensures |Headers(s)| == |Cids(s)| == |s|
    ensures forall i :: 0 <= i < |s| ==> h.headerCid(Headers(s)[i]) == Some(Cids(s)[i])
    ensures s != [] ==> Headers(s)[0].parents == s[0].bh.parents
  {
    forall i | 0 <= i < |s|
      ensures h.headerCid(Headers(s)[i]) == Some(Cids(s)[i])
    {
      assert s[i] in s;
    }
  }

  lemma ListedMembers(form: Form, s: seq<Entry>)
    requires s != []
    ensures |Listed(form, s)| == |s| && Listed(form, s)[0] == s[0]
    ensures forall e :: e in Listed(form, s) ==> e in s
  {}

  /** All blocks given to a tipset share its height and one list of parents, listed or not. */
  lemma TipSetBlocksAgree(h: Hashes, form: Form, blks: seq<BlockHeader>)
    requires TipSetOf(h, form, blks).Made?
    ensures var ts := TipSetOf(h, form, blks).ts;
      && |ts.blocks| == |ts.cids| == |blks| > 0
      && (forall i :: 0 <= i < |ts.blocks| ==> h.headerCid(ts.blocks[i]) == Some(ts.cids[i]))
      && (forall i :: 0 <= i < |blks| ==> blks[i].height == ts.height && blks[i].parents == ts.blocks[0].parents)
  {
    hide TipSetOf, Entries, Sort, Headers, Cids, Listed;
    var s := Arranged(h, form, blks);
    ListedMembers(form, s);
    ListedLabels(h, Listed(form, s));
    forall i | 0 <= i < |blks|
      ensures blks[i].height == s[0].bh.height && blks[i].parents == s[0].bh.parents
    {
      var k := EntryOf(h, blks, s, i);
      assert s[k] in s;
    }
  }

  lemma {:induction false} CountHeaders(h: Hashes, s: seq<Entry>, b: BlockHeader, c: Cid)
    requires Labelled(h, s) && h.headerCid(b) == Some(c)
    ensures multiset(Headers(s))[b] == multiset(s)[Entry(b, c)]
  {
    if s != [] {
      var n := |s| - 1;
      assert s == s[..n] + [s[n]];
      assert Headers(s) == Headers(s[..n]) + [s[n].bh];
      CountHeaders(h, s[..n], b, c);
    }
  }

  /** In the intended form a tipset lists exactly the blocks it was given, in canonical order. */
  lemma IntendedIsSortedPermutation(h: Hashes, blks: seq<BlockHeader>)
    requires TipSetOf(h, Intended, blks).Made? && DigestsDistinct(h)
    ensures multiset(TipSetOf(h, Intended, blks).ts.blocks) == multiset(blks)
    ensures |blks| > 1 ==> exists s: seq<Entry> ::
              AllTickets(s) && Ordered(h, s) && TipSetOf(h, Intended, blks).ts.blocks == Headers(s)
  {
    hide TipSetOf, Entries, DigestsDistinct, Sort, Headers, Cids, Labelled;
    var s := Arranged(h, Intended, blks);
    forall b
      ensures multiset(Headers(s))[b] == multiset(blks)[b]
    {
      HeaderCount(h, blks, s, b);
    }
    if |blks| > 1 {
      SortOrders(h, Entries(h, blks).value);
    }
  }

  lemma HeaderCount(h: Hashes, blks: seq<BlockHeader>, s: seq<Entry>, b: BlockHeader)
    requires Labelled(h, s) && Entries(h, blks).Some? && multiset(s) == multiset(Entries(h, blks).value)
    ensures multiset(Headers(s))[b] == multiset(blks)[b]
  {
    if h.headerCid(b).Some? {
      CountHeaders(h, s, b, h.headerCid(b).value);
      CountEntries(h, blks, Entry(b, h.headerCid(b).value));
    } else {
      assert b !in Headers(s) && b !in blks;
    }
  }

  /** The written form lists what the intended one does exactly when all its blocks are the same block. */
  lemma WrittenIsIntendedIff(h: Hashes, blks: seq<BlockHeader>)
    requires TipSetOf(h, Intended, blks).Made?
    ensures TipSetOf(h, Written, blks) == TipSetOf(h, Intended, blks) <==> AllSame(blks)
  {
    hide Entries, Sort, TipSetOf, Headers, Cids, AllSame;
    WrittenMade(h, blks);
    var s := Arranged(h, Intended, blks);
    var t := Arranged(h, Written, blks);
    SameArrangement(h, blks, s, t);
    var es := Entries(h, blks).value;
    SameMembersSame(s, es);
    LabelledHeadersSame(h, es);
    ShiftFixes(s);
    LabelledHeadersInjective(h, Listed(Written, s), s);
  }

  lemma WrittenMade(h: Hashes, blks: seq<BlockHeader>)
    requires TipSetOf(h, Intended, blks).Made?
    ensures TipSetOf(h, Written, blks).Made?
  {
    hide Entries, Arrange;
  }

  lemma SameArrangement(h: Hashes, blks: seq<BlockHeader>, s: seq<Entry>, t: seq<Entry>)
    requires Entries(h, blks).Some?
    requires multiset(s) == multiset(Entries(h, blks).value) && multiset(t) == multiset(s)
    requires |s| == 1 || (AllTickets(Entries(h, blks).value) && s == Sort(h, Entries(h, blks).value))
    requires |t| == 1 || (AllTickets(Entries(h, blks).value) && t == Sort(h, Entries(h, blks).value))
    ensures s == t
  {
    hide Entries, Sort;
    SameMembers(s, t);
    if |s| == 1 {
      assert s[0] in t;
    }
  }

  /** A labelled entry is known by its header. */
  lemma LabelledHeadersInjective(h: Hashes, s: seq<Entry>, t: seq<Entry>)
    requires Labelled(h, s) && Labelled(h, t)
    ensures Headers(s) == Headers(t) <==> s == t
  {
    if Headers(s) == Headers(t) {
      forall i | 0 <= i < |s|
        ensures s[i] == t[i]
      {
        assert s[i] in s && t[i] in t && Headers(s)[i] == Headers(t)[i];
      }
    }
  }

  lemma LabelledHeadersSame(h: Hashes, s: seq<Entry>)
    requires Labelled(h, s)
    ensures AllSame(Headers(s)) <==> AllSame(s)
  {
    if AllSame(Headers(s)) {
      forall i | 0 <= i < |s|
        ensures s[i] == s[0]
      {
        assert s[i] in s && s[0] in s && Headers(s)[i] == Headers(s)[0];
      }
    }
  }

  /** Repeating the first element and dropping the last changes nothing only where all are equal. */
  lemma ShiftFixes<T>(s: seq<T>)
    requires s != []
    ensures [s[0]] + s[..|s| - 1] == s <==> AllSame(s)
  {
    if [s[0]] + s[..|s| - 1] == s {
      ShiftFixesUpTo(s, |s| - 1);
    }
  }

  lemma {:induction false} ShiftFixesUpTo<T>(s: seq<T>, n: nat)
    requires n < |s| && [s[0]] + s[..|s| - 1] == s
    ensures forall i :: 0 <= i <= n ==> s[i] == s[0]
  {
    if n > 0 {
      ShiftFixesUpTo(s, n - 1);
      assert s[n] == ([s[0]] + s[..|s| - 1])[n] == s[n - 1];
    }
  }

  // ----- the canonical order in plain terms -----

  /** At the first place where they differ a has the smaller byte, or a ends there. */
  ghost predicate SmallerAt(a: Bytes, b: Bytes, k: nat) {
    && k <= |a| && k < |b| && a[..k] == b[..k]
    && (k == |a| || a[k] < b[k])
  }

  ghost predicate Smaller(a: Bytes, b: Bytes) {
    exists k: nat :: SmallerAt(a, b, k)
  }

  lemma {:induction false} LexIsSmaller(a: Bytes, b: Bytes)
    ensures LexLess(a, b) <==> Smaller(a, b)
  {
    if a == [] {
      if b != [] {
        assert SmallerAt(a, b, 0);
      }
    } else if b != [] {
      LexIsSmaller(a[1..], b[1..]);
      if LexLess(a, b) {
        if a[0] < b[0] {
          assert SmallerAt(a, b, 0);
        } else {
          var k: nat :| SmallerAt(a[1..], b[1..], k);
          assert a[..k + 1] == [a[0]] + a[1..][..k] && b[..k + 1] == [b[0]] + b[1..][..k];
          assert SmallerAt(a, b, k + 1);
        }
      }
      if Smaller(a, b) {
        var k: nat :| SmallerAt(a, b, k);
        if k > 0 {
          assert a[..k][0] == a[0] && b[..k][0] == b[0];
          assert a[1..][..k - 1] == a[..k][1..] && b[1..][..k - 1] == b[..k][1..];
          assert SmallerAt(a[1..], b[1..], k - 1);
        }
      }
    }
  }

  /**
   * In the intended form the blocks of a tipset come by ticket digest, smallest first, and by CID among
   * those of one ticket.
   */
  lemma TipSetIsInOrder(h: Hashes, blks: seq<BlockHeader>, i: nat, j: nat)
    requires TipSetOf(h, Intended, blks).Made? && DigestsDistinct(h)
    requires var ts := TipSetOf(h, Intended, blks).ts;
             i < j < |ts.blocks| && |ts.cids| == |ts.blocks|
    ensures var ts := TipSetOf(h, Intended, blks).ts;
      && ts.blocks[i].ticket.Some? && ts.blocks[j].ticket.Some?
      && var p, q := ts.blocks[i].ticket.value.vrfProof, ts.blocks[j].ticket.value.vrfProof;
         if p != q then Smaller(h.digest(p), h.digest(q)) else !Smaller(ts.cids[j].bytes, ts.cids[i].bytes)
  {
    hide TipSetOf, Entries, Sort, LexLess, Smaller;
    var s := Arranged(h, Intended, blks);
    SortOrders(h, Entries(h, blks).value);
    SameMembers(s, Entries(h, blks).value);
    assert s[i] in s && s[j] in s;
    assert !Before(h, s[j], s[i]);
    BeforeIsStrictOrder(h, s[i], s[j], s[i]);
    var p, q := s[i].bh.ticket.value.vrfProof, s[j].bh.ticket.value.vrfProof;
    LexTotal(h.digest(p), h.digest(q));
    LexIsSmaller(h.digest(p), h.digest(q));
    LexIsSmaller(s[j].cid.bytes, s[i].cid.bytes);
  }

  // ----- when there is a tipset at all -----

  /**
   * Exactly when a list of blocks makes a tipset, is refused, or panics: none may lack a CID, several
   * must all have tickets, and all must share one height and one list of parents.
   */
  lemma TipSetExistsIff(h: Hashes, form: Form, blks: seq<BlockHeader>)
    ensures var r := TipSetOf(h, form, blks);
      && (r.Panics? <==>
            && |blks| > 1 && (forall b :: b in blks ==> h.headerCid(b).Some?)
            && exists b :: b in blks && b.ticket.None?)
      && (r.Made? <==>
            && |blks| > 0 && (forall b :: b in blks ==> h.headerCid(b).Some?)
            && (|blks| > 1 ==> forall b :: b in blks ==> b.ticket.Some?)
            && forall b :: b in blks ==> b.height == blks[0].height && b.parents == blks[0].parents)
  {
    hide Sort, Entries, Assemble, Arrange, Agree, HasTicket, Labelled, Headers;
    if blks != [] && Entries(h, blks).Some? {
      var es := Entries(h, blks).value;
      EntriesAre(h, blks);
      if |es| == 1 || AllTickets(es) {
        ArrangedAgree(form, Arrange(h, es), es, blks[0].height);
      }
    }
  }

  lemma EntriesAre(h: Hashes, blks: seq<BlockHeader>)
    requires Entries(h, blks).Some?
    ensures var es := Entries(h, blks).value;
      && |es| == |blks| && (forall i :: 0 <= i < |blks| ==> es[i].bh == blks[i])
      && ((exists e :: e in es && !HasTicket(e)) <==> exists b :: b in blks && b.ticket.None?)
      && ((forall e :: e in es ==> HasTicket(e)) <==> forall b :: b in blks ==> b.ticket.Some?)
      && (blks != [] ==>
            ((forall e :: e in es ==> Agree(es[0].bh, e.bh))
             <==> forall b :: b in blks ==> b.height == blks[0].height && b.parents == blks[0].parents))
  {
    var es := Entries(h, blks).value;
    forall b | b in blks
      ensures exists e :: e in es && e.bh == b
    {
      var i := IndexOf(blks, b);
      assert es[i] in es;
    }
    forall e | e in es
      ensures e.bh in blks
    {
      var i := IndexOf(es, e);
    }
  }

  /** Whether all agree does not depend on which comes first. */
  lemma ArrangedAgree(form: Form, s: seq<Entry>, es: seq<Entry>, height: int64)
    requires multiset(s) == multiset(es) && es != []
    ensures s != [] && !Assemble(form, s, height).Panics?
    ensures Assemble(form, s, height).Made? <==> forall e :: e in es ==> Agree(es[0].bh, e.bh)
  {
    hide Listed, Cids, Headers;
    SameMembers(s, es);
    assert es[0] in s && s[0] in es;
  }

  /** The written form is the intended one shifted: its first block, then all but the last. */
  lemma WrittenShifts(h: Hashes, blks: seq<BlockHeader>)
    requires TipSetOf(h, Intended, blks).Made?
    ensures TipSetOf(h, Written, blks).Made?
    ensures var s, t := TipSetOf(h, Intended, blks).ts, TipSetOf(h, Written, blks).ts;
      && |s.blocks| == |s.cids| == |t.blocks| == |t.cids| == |blks| > 0 && t.height == s.height
      && t.blocks[0] == s.blocks[0] && t.cids[0] == s.cids[0]
      && forall i :: 0 < i < |blks| ==> t.blocks[i] == s.blocks[i - 1] && t.cids[i] == s.cids[i - 1]
  {
    hide Entries, Sort, TipSetOf;
    WrittenMade(h, blks);
    var s := Arranged(h, Intended, blks);
    var t := Arranged(h, Written, blks);
    SameArrangement(h, blks, s, t);
  }
}
