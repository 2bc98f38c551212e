/** Responses that validation lets through, and what becomes of them. */
module ChainHazards {
  import opened Common
  import opened ChainTypes
  import opened TipSets
  import opened TipSetBuild
  import opened ChainExchange
  import opened ChainSegments

  /** Two blocks of one tipset, of which the second is to be sorted before the first. */
  ghost predicate OutOfOrder(h: Hashes, a: BlockHeader, b: BlockHeader) {
    && h.headerCid(a).Some? && h.headerCid(b).Some? && h.headerCid(a) != h.headerCid(b)
    && a.ticket.Some? && b.ticket.Some? && Agree(b, a)
    && Before(h, Entry(b, h.headerCid(b).value), Entry(a, h.headerCid(a).value))
  }

  /** A complete answer to a request for one set of blocks with its messages. */
  function Answer(blocks: seq<Option<BlockHeader>>, msgs: CompactedMessages): ChainMessage {
    ChainMessage(STATUS_OK, [], [Some(BSTipSet(blocks, Some(msgs)))])
  }

  lemma Answered(
      h: Hashes, form: Form, head: seq<Cid>, blocks: seq<Option<BlockHeader>>, msgs: CompactedMessages, ts: TipSet)
    requires Brings(h, form, Some(BSTipSet(blocks, Some(msgs))), ts) && CoversAll(ts.cids, head)
    requires CompressionChecked(msgs, |blocks|)
    ensures Validate(h, form, SyncMessage(head, 1, BOTH_OPTIONS), Answer(blocks, msgs), [])
         == Accepted(ValidatedResponse([ts], [msgs]))
  {
    hide Validate, Brings, CoversAll, CompressionChecked;
    var v := ValidatedResponse([ts], [msgs]);
    var smsg, cmsg := SyncMessage(head, 1, BOTH_OPTIONS), Answer(blocks, msgs);
    assert IsSegment(h, form, head, cmsg.chain, v.tipsets);
    assert WireCounts(cmsg.chain)[0] == |blocks|;
    assert MessagesChecked(cmsg.chain, WireCounts(cmsg.chain), v.messages);
    AcceptedIff(h, form, smsg, cmsg, [], v);
  }

  // ----- two blocks -----

  /** The tipset of two blocks that came out of order. */
  function Swapped(h: Hashes, a: BlockHeader, b: BlockHeader): TipSet
    requires h.headerCid(a).Some? && h.headerCid(b).Some?
  {
    TipSet([h.headerCid(b).value, h.headerCid(a).value], [b, a], a.height)
  }

  lemma PairIsSorted(h: Hashes, a: BlockHeader, b: BlockHeader)
    requires OutOfOrder(h, a, b)
    ensures TipSetOf(h, Intended, [a, b]) == Made(Swapped(h, a, b))
  {
    hide TipSetOf, Before;
    var ea, eb := Entry(a, h.headerCid(a).value), Entry(b, h.headerCid(b).value);
    SortsTwo(h, ea, eb);
    TwoBlocks(h, Intended, a, b, eb, ea);
    assert Cids([eb, ea]) == [eb.cid, ea.cid] && Headers([eb, ea]) == [b, a];
  }

  /** The tipset of two blocks that agree, from the order they are sorted in. */
  lemma TwoBlocks(h: Hashes, form: Form, a: BlockHeader, b: BlockHeader, first: Entry, second: Entry)
    requires h.headerCid(a).Some? && h.headerCid(b).Some? && Agree(first.bh, second.bh)
    requires var es := [Entry(a, h.headerCid(a).value), Entry(b, h.headerCid(b).value)];
             AllTickets(es) && Sort(h, es) == [first, second]
    ensures var listed := Listed(form, [first, second]);
            TipSetOf(h, form, [a, b]) == Made(TipSet(Cids(listed), Headers(listed), a.height))
  {
    hide Sort, Agree, Cids, Headers, Listed, AllTickets;
    var es := [Entry(a, h.headerCid(a).value), Entry(b, h.headerCid(b).value)];
    assert Entries(h, [a, b]).value == es;
    AgreesWithItself(first.bh);
    AssembleMakes(form, [first, second], a.height);
    NoneWithoutTicket(es);
  }

  lemma NoneWithoutTicket(s: seq<Entry>)
    requires AllTickets(s)
    ensures !exists e :: e in s && !HasTicket(e)
  {}

  lemma SortsTwo(h: Hashes, a: Entry, b: Entry)
    requires HasTicket(a) && HasTicket(b) && Before(h, b, a)
    ensures AllTickets([a, b]) && Sort(h, [a, b]) == [b, a]
  {
    hide Before;
    assert [a, b][..1] == [a] && [a][..0] == [];
    assert Sort(h, [a]) == Insert(h, [], a) == [a];
    assert Insert(h, [a], b) == Insert(h, [], b) + [a];
  }

  lemma PairAnswered(h: Hashes, a: BlockHeader, b: BlockHeader, head: seq<Cid>, msgs: CompactedMessages)
    requires OutOfOrder(h, a, b) && CoversAll(Swapped(h, a, b).cids, head) && CompressionChecked(msgs, 2)
    ensures Brings(h, Intended, Some(BSTipSet([Some(a), Some(b)], Some(msgs))), Swapped(h, a, b))
    ensures Validate(h, Intended, SyncMessage(head, 1, BOTH_OPTIONS), Answer([Some(a), Some(b)], msgs), [])
         == Accepted(ValidatedResponse([Swapped(h, a, b)], [msgs]))
  {
    hide Validate, TipSetOf, Before, CoversAll, CompressionChecked;
    var blocks := [Some(a), Some(b)];
    PresentUnique(blocks, [a, b]);
    PairIsSorted(h, a, b);
    Answered(h, Intended, head, blocks, msgs, Swapped(h, a, b));
  }

  /** One message for each of two blocks. */
  function OneEach(first: Message, second: Message): CompactedMessages {
    CompactedMessages([Some(first), Some(second)], [[0], [1]], [], [[], []])
  }

  /**
   * The messages of two blocks that come out of order change places: the response is accepted and
   * unpacked, and each block is handed out with the message of the other.
   */
  lemma MessagesChangePlaces(
      h: Hashes, a: BlockHeader, b: BlockHeader, first: Message, second: Message, full: FullTipSet)
    requires OutOfOrder(h, a, b) && first != second
    requires IsUnpacking(Swapped(h, a, b), OneEach(first, second), full)
    ensures Validate(h, Intended, SyncMessage(Swapped(h, a, b).cids, 1, BOTH_OPTIONS),
                     Answer([Some(a), Some(b)], OneEach(first, second)), [])
         == Accepted(ValidatedResponse([Swapped(h, a, b)], [OneEach(first, second)]))
    ensures full.blocks == [FullBlock(b, [Some(first)], []), FullBlock(a, [Some(second)], [])]
    ensures !OwnMessages([a, b], OneEach(first, second), full)
  {
    hide Validate, TipSetOf, Before;
    var msgs := OneEach(first, second);
    PairChecked(first, second);
    PairAnswered(h, a, b, Swapped(h, a, b).cids, msgs);
    assert Pick(msgs.bls, [0]) == [Some(first)] && Pick(msgs.bls, [1]) == [Some(second)];
    assert Pick(msgs.secpk, []) == [];
    assert full.blocks[0] == Unpacked(Swapped(h, a, b), msgs, 0);
    assert full.blocks[1] == Unpacked(Swapped(h, a, b), msgs, 1);
    assert full.blocks == [full.blocks[0], full.blocks[1]];
    assert full.blocks[0].header == [a, b][1] && msgs.blsIncludes[1] == [1];
  }

  lemma PairChecked(first: Message, second: Message)
    ensures CompressionChecked(OneEach(first, second), 2)
  {}

  /** Both lists are in bounds, so such a response is unpacked. */
  lemma PairUnpacks(h: Hashes, a: BlockHeader, b: BlockHeader, first: Message, second: Message)
    requires h.headerCid(a).Some? && h.headerCid(b).Some?
    ensures InBounds(Swapped(h, a, b), OneEach(first, second))
  {}

  /** Seen from the client: the tipset it is handed has them in the wrong blocks. */
  method MessagesHandedOutWrong(h: Hashes, a: BlockHeader, b: BlockHeader, first: Message, second: Message)
    returns (r: Verdict<FullTipSet>)
    requires OutOfOrder(h, a, b) && first != second
    ensures r == Accepted(FullTipSet([FullBlock(b, [Some(first)], []), FullBlock(a, [Some(second)], [])]))
  {
    hide Validate, InBounds, IsUnpacking, TipSetOf, Before;
    var msgs := OneEach(first, second);
    PairChecked(first, second);
    PairAnswered(h, a, b, Swapped(h, a, b).cids, msgs);
    PairUnpacks(h, a, b, first, second);
    r := GetFullTipSet(h, Intended, Swapped(h, a, b).cids, Answer([Some(a), Some(b)], msgs));
    MessagesChangePlaces(h, a, b, first, second, r.value);
  }

  /**
   * A request that names a block twice is answered, and the answer accepted, with another block in
   * place of the repeat.
   */
  lemma RepeatedHeadAccepted(h: Hashes, a: BlockHeader, b: BlockHeader, msgs: CompactedMessages)
    requires OutOfOrder(h, a, b) && CompressionChecked(msgs, 2)
    ensures var head := [h.headerCid(a).value, h.headerCid(a).value];
      && Validate(h, Intended, SyncMessage(head, 1, BOTH_OPTIONS), Answer([Some(a), Some(b)], msgs), [])
         == Accepted(ValidatedResponse([Swapped(h, a, b)], [msgs]))
      && multiset(Swapped(h, a, b).cids) != multiset(head)
  {
    hide Validate, Brings, CompressionChecked;
    var x, y := h.headerCid(a).value, h.headerCid(b).value;
    PairAnswered(h, a, b, [x, x], msgs);
    assert y in multiset([y, x]) && y !in multiset([x, x]);
  }

  // ----- parents that never come -----

  /** A complete answer to a request for two sets of headers. */
  function TwoSets(child: BlockHeader, parents: seq<Option<BlockHeader>>): ChainMessage {
    ChainMessage(STATUS_OK, [], [Some(BSTipSet([Some(child)], None)), Some(BSTipSet(parents, None))])
  }

  /** A block that names two parents, both of one CID each. */
  ghost predicate NamesTwo(h: Hashes, child: BlockHeader, x: Cid, y: Cid) {
    h.headerCid(child).Some? && x != y && child.parents == [x, y]
  }

  lemma TwoSetsAnswered(
      h: Hashes, form: Form, child: BlockHeader, parents: seq<Option<BlockHeader>>, x: Cid, y: Cid, ts: TipSet)
    requires NamesTwo(h, child, x, y) && Brings(h, form, Some(BSTipSet(parents, None)), ts)
    requires ts.cids == [x, x] && ts.height < child.height
    ensures var first := TipSet([h.headerCid(child).value], [child], child.height);
      && Validate(h, form, SyncMessage(first.cids, 2, HEADERS_BIT), TwoSets(child, parents), [])
         == Accepted(ValidatedResponse([first, ts], []))
      && multiset(child.parents) != multiset(ts.cids)
  {
    hide Validate, TipSetOf;
    var first := TipSet([h.headerCid(child).value], [child], child.height);
    var smsg, cmsg := SyncMessage(first.cids, 2, HEADERS_BIT), TwoSets(child, parents);
    var v := ValidatedResponse([first, ts], []);
    SingleTipSet(h, form, child);
    PresentUnique([Some(child)], [child]);
    assert Brings(h, form, cmsg.chain[0], first);
    assert ChildOf(first, ts);
    assert IsSegment(h, form, first.cids, cmsg.chain, v.tipsets);
    AcceptedIff(h, form, smsg, cmsg, [], v);
    assert y in multiset(child.parents) && y !in multiset(ts.cids);
  }

  /**
   * A set that brings one block twice is taken for the two parents a block names, in both forms: the
   * other parent never comes.
   */
  lemma RepeatedBlockAccepted(h: Hashes, form: Form, child: BlockHeader, b: BlockHeader, y: Cid)
    requires h.headerCid(b).Some? && b.ticket.Some? && b.height < child.height
    requires NamesTwo(h, child, h.headerCid(b).value, y)
    ensures var x := h.headerCid(b).value;
      var first, second := TipSet([h.headerCid(child).value], [child], child.height), TipSet([x, x], [b, b], b.height);
      && Validate(h, form, SyncMessage(first.cids, 2, HEADERS_BIT), TwoSets(child, [Some(b), Some(b)]), [])
         == Accepted(ValidatedResponse([first, second], []))
      && multiset(child.parents) != multiset(second.cids)
  {
    hide Validate, TipSetOf;
    var x := h.headerCid(b).value;
    TwiceTipSet(h, form, b);
    PresentUnique([Some(b), Some(b)], [b, b]);
    TwoSetsAnswered(h, form, child, [Some(b), Some(b)], x, y, TipSet([x, x], [b, b], b.height));
  }

  lemma TwiceTipSet(h: Hashes, form: Form, b: BlockHeader)
    requires h.headerCid(b).Some? && b.ticket.Some?
    ensures var x := h.headerCid(b).value;
            TipSetOf(h, form, [b, b]) == Made(TipSet([x, x], [b, b], b.height))
  {
    hide TipSetOf;
    var e := Entry(b, h.headerCid(b).value);
    LexTotal(e.cid.bytes, e.cid.bytes);
    InOrderSortsTwo(h, e, e);
    TwoBlocks(h, form, b, b, e, e);
    assert Listed(form, [e, e]) == [e, e];
    assert Cids([e, e]) == [e.cid, e.cid] && Headers([e, e]) == [b, b];
  }

  lemma InOrderSortsTwo(h: Hashes, a: Entry, b: Entry)
    requires HasTicket(a) && HasTicket(b) && !Before(h, b, a)
    ensures AllTickets([a, b]) && Sort(h, [a, b]) == [a, b]
  {
    hide Before;
    assert [a, b][..1] == [a] && [a][..0] == [];
    assert Sort(h, [a]) == Insert(h, [], a) == [a];
    assert Insert(h, [a], b) == [a] + [b];
  }

  /**
   * As written, a set of two different blocks is listed as its first block twice. So it is taken for the
   * two parents a block names although the second of them is not among it, and nobody names its last.
   */
  lemma WrittenLastBlockUnchecked(
      h: Hashes, child: BlockHeader, b: BlockHeader, last: BlockHeader, y: Cid)
    requires h.headerCid(b).Some? && h.headerCid(last).Some? && b.ticket.Some? && last.ticket.Some?
    requires !Before(h, Entry(last, h.headerCid(last).value), Entry(b, h.headerCid(b).value)) && Agree(b, last)
    requires b.height < child.height && NamesTwo(h, child, h.headerCid(b).value, y)
    requires h.headerCid(last).value !in child.parents
    ensures var x := h.headerCid(b).value;
      var first, second := TipSet([h.headerCid(child).value], [child], child.height), TipSet([x, x], [b, b], b.height);
      && Validate(h, Written, SyncMessage(first.cids, 2, HEADERS_BIT), TwoSets(child, [Some(b), Some(last)]), [])
         == Accepted(ValidatedResponse([first, second], []))
      && last in Wire(TwoSets(child, [Some(b), Some(last)]).chain[1])
      && h.headerCid(last).value !in child.parents && multiset(child.parents) != multiset(second.cids)
  {
    hide Validate, TipSetOf, Before;
    var x := h.headerCid(b).value;
    PairAsWritten(h, b, last);
    PresentUnique([Some(b), Some(last)], [b, last]);
    TwoSetsAnswered(h, Written, child, [Some(b), Some(last)], x, y, TipSet([x, x], [b, b], b.height));
    assert [b, last][1] == last;
  }

  lemma PairAsWritten(h: Hashes, b: BlockHeader, last: BlockHeader)
    requires h.headerCid(b).Some? && h.headerCid(last).Some? && b.ticket.Some? && last.ticket.Some?
    requires !Before(h, Entry(last, h.headerCid(last).value), Entry(b, h.headerCid(b).value)) && Agree(b, last)
    ensures var x := h.headerCid(b).value;
            TipSetOf(h, Written, [b, last]) == Made(TipSet([x, x], [b, b], b.height))
  {
    hide TipSetOf, Before, Entries, Sort, AllTickets, Agree, Listed, Cids, Headers;
    var e, f := Entry(b, h.headerCid(b).value), Entry(last, h.headerCid(last).value);
    InOrderSortsTwo(h, e, f);
    TwoBlocks(h, Written, b, last, e, f);
    ListedAsWritten(e, f);
  }

  lemma ListedAsWritten(e: Entry, f: Entry)
    ensures Listed(Written, [e, f]) == [e, e] && Cids([e, e]) == [e.cid, e.cid] && Headers([e, e]) == [e.bh, e.bh]
  {}

  // ----- a set that is not there -----

  /** Asked for messages only, a response with a nil set makes validation itself panic. */
  lemma NilSetPanics(h: Hashes, form: Form, smsg: SyncMessage, cmsg: ChainMessage, known: seq<TipSet>)
    requires smsg.options == 2 && (cmsg.status == 0 || cmsg.status == 101)
    requires |cmsg.chain| == smsg.length < 0x8000_0000_0000_0000 && |cmsg.chain| > 0 && cmsg.chain[0].None?
    ensures Validate(h, form, smsg, cmsg, known) == Panicked
  {
    hide TipSetsFrom;
    TraverseNone(MessagesOf, cmsg.chain);
    FirstFailureDecides(MessagesOf, cmsg.chain, 0);
  }

  // ----- an index that turns negative -----

  /** One message, and an index that is negative when read as a signed number. */
  function HugeIndex(m: Message): CompactedMessages {
    CompactedMessages([Some(m)], [[TWO_63]], [], [[]])
  }

  /** It passes validation, and is out of bounds when the messages are unpacked. */
  lemma HugeIndexAccepted(h: Hashes, form: Form, a: BlockHeader, m: Message)
    requires h.headerCid(a).Some?
    ensures var ts := TipSet([h.headerCid(a).value], [a], a.height);
      && Validate(h, form, SyncMessage(ts.cids, 1, BOTH_OPTIONS), Answer([Some(a)], HugeIndex(m)), [])
         == Accepted(ValidatedResponse([ts], [HugeIndex(m)]))
      && !InBounds(ts, HugeIndex(m))
  {
    hide Validate, TipSetOf;
    var ts := TipSet([h.headerCid(a).value], [a], a.height);
    SingleTipSet(h, form, a);
    PresentUnique([Some(a)], [a]);
    assert CompressionChecked(HugeIndex(m), 1);
    Answered(h, form, ts.cids, [Some(a)], HugeIndex(m), ts);
    assert HugeIndex(m).blsIncludes[0][0] == TWO_63;
  }

  lemma SingleTipSet(h: Hashes, form: Form, a: BlockHeader)
    requires h.headerCid(a).Some?
    ensures TipSetOf(h, form, [a]) == Made(TipSet([h.headerCid(a).value], [a], a.height))
  {
    var e := Entry(a, h.headerCid(a).value);
    assert Entries(h, [a]).value == [e];
    assert Listed(form, [e]) == [e];
    assert Cids([e]) == [e.cid] && Headers([e]) == [a];
  }

  /** Seen from the client: the panic that validation was to rule out. */
  method HugeIndexPanics(h: Hashes, form: Form, a: BlockHeader, m: Message) returns (r: Verdict<FullTipSet>)
    requires h.headerCid(a).Some?
    ensures r == Panicked
  {
    hide Validate, InBounds, TipSetOf;
    HugeIndexAccepted(h, form, a, m);
    r := GetFullTipSet(h, form, [h.headerCid(a).value], Answer([Some(a)], HugeIndex(m)));
  }
}
