/** What an accepted response guarantees, and what unpacking its messages then does. */
module ChainSegments {
  import opened Common
  import opened ChainTypes
  import opened TipSets
  import opened TipSetBuild
  import opened ChainExchange

  // ----- what an accepted response is -----

  /** A block set that brought the blocks of a tipset. */
  ghost predicate Brings(h: Hashes, form: Form, blockSet: Option<BSTipSet>, ts: TipSet) {
    && blockSet.Some? && NoNil(blockSet.value.blocks)
    && TipSetOf(h, form, Present(blockSet.value.blocks)) == Made(ts)
    && |ts.blocks| == |ts.cids| == |blockSet.value.blocks| > 0
  }

  /** Block sets that brought a connected chain of tipsets, from the head that was asked for. */
  ghost predicate IsSegment(
      h: Hashes, form: Form, head: seq<Cid>, chain: seq<Option<BSTipSet>>, tipsets: seq<TipSet>) {
    && |tipsets| == |chain| > 0
    && (forall i :: 0 <= i < |tipsets| ==> Brings(h, form, chain[i], tipsets[i]))
    && CoversAll(tipsets[0].cids, head) && Linked(tipsets)
  }

  /** Messages that came with each block set, their index lists checked against numbers of blocks. */
  ghost predicate MessagesChecked(
      chain: seq<Option<BSTipSet>>, blocks: seq<nat>, messages: seq<CompactedMessages>) {
    && |messages| == |chain| <= |blocks|
    && forall i :: 0 <= i < |chain| ==>
         && chain[i].Some? && chain[i].value.messages == Some(messages[i])
         && CompressionChecked(messages[i], blocks[i])
  }

  /** The numbers of blocks: those that came, or those of the tipsets the caller has already. */
  function Counts(options: Options, chain: seq<Option<BSTipSet>>, known: seq<TipSet>): seq<nat> {
    if options.includeHeaders then WireCounts(chain) else BlockCounts(known)
  }

  /**
   * A response is accepted exactly when its status is one of two, it has as many sets as were asked for or,
   * with the second status, fewer but some, and it brings a segment and checked messages, as far as these
   * were asked for.
   */
  lemma AcceptedIff(
      h: Hashes, form: Form, smsg: SyncMessage, cmsg: ChainMessage, known: seq<TipSet>, v: ValidatedResponse)
    ensures var (headers, messages) := (smsg.options % 2 == 1, smsg.options / 2 % 2 == 1);
      Validate(h, form, smsg, cmsg, known) == Accepted(v) <==>
      && (cmsg.status == 0 || cmsg.status == 101)
      && 0 < |cmsg.chain| <= smsg.length < 0x8000_0000_0000_0000
      && (|cmsg.chain| < smsg.length ==> cmsg.status == 101)
      && (headers || messages)
      && (if headers then IsSegment(h, form, smsg.head, cmsg.chain, v.tipsets) else v.tipsets == [])
      && (if messages
          then MessagesChecked(cmsg.chain, if headers then WireCounts(cmsg.chain) else BlockCounts(known), v.messages)
          else v.messages == [])
  {
    hide IsSegment, MessagesChecked, CheckHeaders, CheckMessages;
    if cmsg.chain != [] {
      HeadersAcceptedIff(h, form, smsg, cmsg.chain, v.tipsets);
      MessagesAcceptedIff(ParseOptions(smsg.options), cmsg.chain, known, v.messages);
    }
  }

  /** What a caller can count on: how many tipsets and messages it gets. */
  lemma AcceptedCounts(
      h: Hashes, form: Form, smsg: SyncMessage, cmsg: ChainMessage, known: seq<TipSet>, v: ValidatedResponse)
    requires Validate(h, form, smsg, cmsg, known) == Accepted(v)
    ensures (cmsg.status == 0 || cmsg.status == 101) && 0 < |cmsg.chain| <= smsg.length
    ensures cmsg.status == 0 ==> |cmsg.chain| == smsg.length
    ensures |v.tipsets| == (if smsg.options % 2 == 1 then |cmsg.chain| else 0)
    ensures |v.messages| == (if smsg.options / 2 % 2 == 1 then |cmsg.chain| else 0)
    ensures smsg.options % 2 == 1 || smsg.options / 2 % 2 == 1
    ensures smsg.options % 2 == 0 ==> |cmsg.chain| <= |known|
  {
    hide Validate, Brings, CoversAll, Linked, CompressionChecked;
    AcceptedIff(h, form, smsg, cmsg, known, v);
  }

  lemma HeadersAcceptedIff(
      h: Hashes, form: Form, smsg: SyncMessage, chain: seq<Option<BSTipSet>>, tipsets: seq<TipSet>)
    requires chain != []
    ensures CheckHeaders(h, form, smsg, chain) == Accepted(tipsets) <==> IsSegment(h, form, smsg.head, chain, tipsets)
  {
    hide TipSetOf, TipSetFrom, CoversAll, Linked, Traverse, Brings;
    var f := (blockSet: Option<BSTipSet>) => TipSetFrom(h, form, blockSet);
    if CheckHeaders(h, form, smsg, chain) == Accepted(tipsets) {
      forall i | 0 <= i < |tipsets|
        ensures Brings(h, form, chain[i], tipsets[i])
      {
        BringsIff(h, form, chain[i], tipsets[i]);
      }
    }
    if IsSegment(h, form, smsg.head, chain, tipsets) {
      forall i | 0 <= i < |chain|
        ensures f(chain[i]) == Accepted(tipsets[i])
      {
        BringsIff(h, form, chain[i], tipsets[i]);
      }
      AllAccepted(f, chain, tipsets);
    }
  }

  lemma BringsIff(h: Hashes, form: Form, blockSet: Option<BSTipSet>, ts: TipSet)
    ensures Brings(h, form, blockSet, ts) <==> TipSetFrom(h, form, blockSet) == Accepted(ts)
  {
    hide TipSetOf;
    if TipSetFrom(h, form, blockSet) == Accepted(ts) {
      TipSetBlocksAgree(h, form, Present(blockSet.value.blocks));
    }
  }

  lemma {:induction false} AllAccepted<A, B>(f: A -> Verdict<B>, s: seq<A>, r: seq<B>)
    requires |s| == |r| && forall i :: 0 <= i < |s| ==> f(s[i]) == Accepted(r[i])
    ensures Traverse(f, s) == Accepted(r)
  {
    if s != [] {
      var n := |s| - 1;
      AllAccepted(f, s[..n], r[..n]);
      assert f(s[n]) == Accepted(r[n]);
      assert r == r[..n] + [r[n]];
    }
  }

  // ----- when validation does not come to a verdict -----

  /** A block set that makes building its tipset panic. */
  ghost predicate Trips(h: Hashes, form: Form, blockSet: Option<BSTipSet>) {
    && blockSet.Some? && NoNil(blockSet.value.blocks)
    && TipSetOf(h, form, Present(blockSet.value.blocks)).Panics?
  }

  ghost predicate BringsSome(h: Hashes, form: Form, blockSet: Option<BSTipSet>) {
    exists ts :: Brings(h, form, blockSet, ts)
  }

  /** The first n sets each bring a tipset. */
  ghost predicate AllBring(h: Hashes, form: Form, chain: seq<Option<BSTipSet>>, n: nat)
    requires n <= |chain|
  {
    forall k :: 0 <= k < n ==> BringsSome(h, form, chain[k])
  }

  /** A nil set, with sets before it that all came with messages. */
  ghost predicate NilBehindMessages(chain: seq<Option<BSTipSet>>) {
    exists i :: 0 <= i < |chain| && chain[i].None? && AllHaveMessages(chain, i)
  }

  ghost predicate AllHaveMessages(chain: seq<Option<BSTipSet>>, n: nat)
    requires n <= |chain|
  {
    forall k :: 0 <= k < n ==> chain[k].Some? && chain[k].value.messages.Some?
  }

  /**
   * Of the responses with a fitting status and length, validation panics on exactly these: with headers,
   * those with a set that trips on a nil ticket, behind sets that each bring a tipset; without headers,
   * those with a nil set behind sets that all came with messages.
   */
  lemma PanicsIff(h: Hashes, form: Form, smsg: SyncMessage, cmsg: ChainMessage, known: seq<TipSet>)
    ensures var (headers, messages) := (smsg.options % 2 == 1, smsg.options / 2 % 2 == 1);
      Validate(h, form, smsg, cmsg, known) == Panicked <==>
      && (cmsg.status == 0 || cmsg.status == 101)
      && 0 < |cmsg.chain| <= smsg.length < 0x8000_0000_0000_0000
      && (|cmsg.chain| < smsg.length ==> cmsg.status == 101)
      && (if headers then
            exists i :: 0 <= i < |cmsg.chain| && Trips(h, form, cmsg.chain[i]) && AllBring(h, form, cmsg.chain, i)
          else
            messages && NilBehindMessages(cmsg.chain))
  {
    hide Traverse, TipSetFrom, Trips, AllBring, CoversAll, Linked;
    if cmsg.chain != [] {
      HeadersPanicIff(h, form, cmsg.chain);
      MessagesPanicIff(cmsg.chain);
      if TipSetsFrom(h, form, cmsg.chain).Accepted? {
        SetsAreThere(h, form, cmsg.chain);
      }
    }
  }

  lemma {:induction false} TraversePanicsIff<A, B>(f: A -> Verdict<B>, s: seq<A>)
    ensures Traverse(f, s) == Panicked
       <==> exists i :: 0 <= i < |s| && f(s[i]) == Panicked && forall k :: 0 <= k < i ==> f(s[k]).Accepted?
    ensures Traverse(f, s).Accepted? <==> forall i :: 0 <= i < |s| ==> f(s[i]).Accepted?
  {
    if s != [] {
      var n := |s| - 1;
      TraversePanicsIff(f, s[..n]);
      assert forall i :: 0 <= i < n ==> s[..n][i] == s[i];
      if exists i :: 0 <= i < n && f(s[i]) == Panicked && forall k :: 0 <= k < i ==> f(s[k]).Accepted? {
        var i :| 0 <= i < n && f(s[i]) == Panicked && forall k :: 0 <= k < i ==> f(s[k]).Accepted?;
        assert f(s[..n][i]) == Panicked;
      }
      if Traverse(f, s[..n]) == Panicked {
        var i :| 0 <= i < n && f(s[..n][i]) == Panicked && forall k :: 0 <= k < i ==> f(s[..n][k]).Accepted?;
        assert f(s[i]) == Panicked && forall k :: 0 <= k < i ==> f(s[k]).Accepted?;
      }
      if Traverse(f, s[..n]).Accepted? {
        assert forall i :: 0 <= i < n ==> f(s[i]).Accepted?;
      }
    }
  }

  lemma HeadersPanicIff(h: Hashes, form: Form, chain: seq<Option<BSTipSet>>)
    ensures TipSetsFrom(h, form, chain) == Panicked
       <==> exists i :: 0 <= i < |chain| && Trips(h, form, chain[i]) && AllBring(h, form, chain, i)
  {
    hide TipSetOf, Traverse, TipSetFrom, Trips, BringsSome;
    var f := (blockSet: Option<BSTipSet>) => TipSetFrom(h, form, blockSet);
    TraversePanicsIff(f, chain);
    forall i | 0 <= i < |chain|
      ensures f(chain[i]) == Panicked <==> Trips(h, form, chain[i])
      ensures f(chain[i]).Accepted? <==> BringsSome(h, form, chain[i])
    {
      TripsIff(h, form, chain[i]);
      BringsSomeIff(h, form, chain[i]);
    }
    if Traverse(f, chain) == Panicked {
      var i :| 0 <= i < |chain| && f(chain[i]) == Panicked && forall k :: 0 <= k < i ==> f(chain[k]).Accepted?;
      assert Trips(h, form, chain[i]) && AllBring(h, form, chain, i);
    }
    if exists i :: 0 <= i < |chain| && Trips(h, form, chain[i]) && AllBring(h, form, chain, i) {
      var i :| 0 <= i < |chain| && Trips(h, form, chain[i]) && AllBring(h, form, chain, i);
      assert f(chain[i]) == Panicked;
      assert forall k :: 0 <= k < i ==> f(chain[k]).Accepted?;
    }
  }

  lemma BringsSomeIff(h: Hashes, form: Form, blockSet: Option<BSTipSet>)
    ensures TipSetFrom(h, form, blockSet).Accepted? <==> BringsSome(h, form, blockSet)
  {
    hide TipSetFrom, Brings;
    if TipSetFrom(h, form, blockSet).Accepted? {
      BringsIff(h, form, blockSet, TipSetFrom(h, form, blockSet).value);
    }
    if BringsSome(h, form, blockSet) {
      var ts :| Brings(h, form, blockSet, ts);
      BringsIff(h, form, blockSet, ts);
    }
  }

  lemma TripsIff(h: Hashes, form: Form, blockSet: Option<BSTipSet>)
    ensures TipSetFrom(h, form, blockSet) == Panicked <==> Trips(h, form, blockSet)
  {
    hide TipSetOf;
  }

  lemma MessagesPanicIff(chain: seq<Option<BSTipSet>>)
    ensures MessagesFrom(chain) == Panicked <==> NilBehindMessages(chain)
  {
    hide Traverse;
    TraversePanicsIff(MessagesOf, chain);
  }

  lemma SetsAreThere(h: Hashes, form: Form, chain: seq<Option<BSTipSet>>)
    requires TipSetsFrom(h, form, chain).Accepted?
    ensures forall i :: 0 <= i < |chain| ==> chain[i].Some?
  {
    hide TipSetOf, Traverse;
    var f := (blockSet: Option<BSTipSet>) => TipSetFrom(h, form, blockSet);
    TraversePanicsIff(f, chain);
  }

  lemma MessagesAcceptedIff(
      options: Options, chain: seq<Option<BSTipSet>>, known: seq<TipSet>, messages: seq<CompactedMessages>)
    ensures CheckMessages(options, chain, known) == Accepted(messages)
       <==> MessagesChecked(chain, Counts(options, chain, known), messages)
  {
    hide Traverse, CompressionChecked;
    if MessagesChecked(chain, Counts(options, chain, known), messages) {
      AllAccepted(MessagesOf, chain, messages);
    }
  }

  /**
   * A segment is one connected chain: every block of every set, not only the first one listed, has a
   * list of parents that covers the CIDs of the next tipset. Where the next tipset lists no CID twice
   * these are its parents, and for a block that names each parent once only there.
   */
  lemma EveryBlockIsLinked(
      h: Hashes, form: Form, head: seq<Cid>, chain: seq<Option<BSTipSet>>, tipsets: seq<TipSet>, i: nat)
    requires IsSegment(h, form, head, chain, tipsets) && i < |tipsets|
    ensures forall b :: b in Wire(chain[i]) ==> b.height == tipsets[i].height
    ensures i + 1 < |tipsets| ==>
      forall b :: b in Wire(chain[i]) ==>
        && CoversAll(b.parents, tipsets[i + 1].cids)
        && (Distinct(tipsets[i + 1].cids) ==> multiset(b.parents) == multiset(tipsets[i + 1].cids))
        && (Distinct(b.parents) && multiset(b.parents) == multiset(tipsets[i + 1].cids) ==>
              Distinct(tipsets[i + 1].cids))
  {
    hide TipSetOf, CoversAll;
    assert Brings(h, form, chain[i], tipsets[i]);
    TipSetBlocksAgree(h, form, Wire(chain[i]));
    if i + 1 < |tipsets| {
      assert ChildOf(tipsets[i], tipsets[i + 1]);
      forall b | b in Wire(chain[i])
        ensures Distinct(tipsets[i + 1].cids) ==> multiset(b.parents) == multiset(tipsets[i + 1].cids)
        ensures Distinct(b.parents) && multiset(b.parents) == multiset(tipsets[i + 1].cids) ==>
                  Distinct(tipsets[i + 1].cids)
      {
        if Distinct(tipsets[i + 1].cids) {
          ComparisonIsPermutation(b.parents, tipsets[i + 1].cids);
        } else if Distinct(b.parents) && multiset(b.parents) == multiset(tipsets[i + 1].cids) {
          RearrangedDistinct(b.parents, tipsets[i + 1].cids);
        }
      }
    }
  }

  lemma RearrangedDistinct<T>(s: seq<T>, t: seq<T>)
    requires Distinct(s) && multiset(s) == multiset(t)
    ensures Distinct(t)
  {
    SameMembers(s, t);
    Pigeonhole(t, s);
  }

  /** What passing the link check means, whatever the child: exactly of tipsets without repeats, its parents. */
  lemma LinkIsIdentityIff(parent: TipSet)
    ensures (forall parents: seq<Cid> ::
               CoversAll(parents, parent.cids) ==> multiset(parents) == multiset(parent.cids))
       <==> Distinct(parent.cids)
  {
    ComparisonIsIdentityIff(parent.cids);
  }

  /**
   * As written, behind a set of several blocks it never is: no block that names each parent once has the
   * parents that the next tipset lists.
   */
  lemma WrittenNeverLinksExactly(
      h: Hashes, head: seq<Cid>, chain: seq<Option<BSTipSet>>, tipsets: seq<TipSet>, i: nat, b: BlockHeader)
    requires IsSegment(h, Written, head, chain, tipsets) && i + 1 < |tipsets|
    requires |Wire(chain[i + 1])| > 1 && b in Wire(chain[i]) && Distinct(b.parents)
    ensures multiset(b.parents) != multiset(tipsets[i + 1].cids)
  {
    hide TipSetOf, CoversAll;
    EveryBlockIsLinked(h, Written, head, chain, tipsets, i);
    assert Brings(h, Written, chain[i + 1], tipsets[i + 1]);
    WrittenRepeats(h, Wire(chain[i + 1]));
  }

  /** The blocks of a set as they came over the wire. */
  function Wire(blockSet: Option<BSTipSet>): seq<BlockHeader> {
    if blockSet.Some? && NoNil(blockSet.value.blocks) then Present(blockSet.value.blocks) else []
  }

  /** Heights strictly decrease along it, so no tipset comes twice. */
  lemma {:induction false} HeightsDecrease(
      h: Hashes, form: Form, head: seq<Cid>, chain: seq<Option<BSTipSet>>, tipsets: seq<TipSet>, i: nat, j: nat)
    requires IsSegment(h, form, head, chain, tipsets) && i < j < |tipsets|
    ensures tipsets[i].height > tipsets[j].height && tipsets[i] != tipsets[j]
    decreases j - i
  {
    hide TipSetOf, CoversAll;
    assert Brings(h, form, chain[j - 1], tipsets[j - 1]);
    assert ChildOf(tipsets[j - 1], tipsets[j]);
    if i < j - 1 {
      HeightsDecrease(h, form, head, chain, tipsets, i, j - 1);
    }
  }

  /**
   * The head that came has the length of the one asked for and every block of it, and when the request
   * names each block once it is that head and repeats nothing either.
   */
  lemma HeadIsRequested(
      h: Hashes, form: Form, head: seq<Cid>, chain: seq<Option<BSTipSet>>, tipsets: seq<TipSet>)
    requires IsSegment(h, form, head, chain, tipsets)
    ensures |tipsets[0].cids| == |head| && forall c :: c in head ==> c in tipsets[0].cids
    ensures Distinct(head) ==> multiset(tipsets[0].cids) == multiset(head) && Distinct(tipsets[0].cids)
  {
    hide TipSetOf;
    if Distinct(head) {
      Pigeonhole(tipsets[0].cids, head);
    }
  }

  /** The written form repeats the first block of any tipset with more than one. */
  lemma WrittenRepeats(h: Hashes, blks: seq<BlockHeader>)
    requires TipSetOf(h, Written, blks).Made? && |blks| > 1
    ensures !Distinct(TipSetOf(h, Written, blks).ts.cids)
  {
    hide TipSetOf, Entries, Sort;
    var s := Arranged(h, Written, blks);
    var listed := Listed(Written, s);
    assert listed[0] == s[0] && listed[1] == s[0];
    assert Cids(listed)[0] == Cids(listed)[1];
  }

  /**
   * As written, validation refuses every head of more than one block, if the request names each
   * block once: the tipset it builds never covers such a head.
   */
  lemma WrittenRefusesMultiBlockHeads(
      h: Hashes, head: seq<Cid>, chain: seq<Option<BSTipSet>>, tipsets: seq<TipSet>)
    requires IsSegment(h, Written, head, chain, tipsets) && Distinct(head)
    ensures |head| == 1 && |Wire(chain[0])| == 1
  {
    hide TipSetOf;
    assert Brings(h, Written, chain[0], tipsets[0]);
    Pigeonhole(tipsets[0].cids, head);
    if |Wire(chain[0])| > 1 {
      WrittenRepeats(h, Wire(chain[0]));
    }
  }

  // ----- unpacking messages -----

  predicate Below(indices: seq<uint64>, n: int) {
    forall k :: 0 <= k < |indices| ==> indices[k] < n
  }

  predicate IndicesInBounds(includes: seq<seq<uint64>>, blocks: nat, messages: nat) {
    && blocks <= |includes|
    && forall b :: 0 <= b < blocks ==> Below(includes[b], messages)
  }

  predicate InBounds(ts: TipSet, msgs: CompactedMessages) {
    && IndicesInBounds(msgs.blsIncludes, |ts.blocks|, |msgs.bls|)
    && IndicesInBounds(msgs.secpkIncludes, |ts.blocks|, |msgs.secpk|)
  }

  /** The messages an index list names, in its order. */
  function Pick<T>(messages: seq<T>, indices: seq<uint64>): (r: seq<T>)
    requires Below(indices, |messages|)
    ensures |r| == |indices| && forall k :: 0 <= k < |indices| ==> r[k] == messages[indices[k]]
  {
    seq(|indices|, k requires 0 <= k < |indices| => messages[indices[k]])
  }

  function Unpacked(ts: TipSet, msgs: CompactedMessages, b: nat): FullBlock
    requires InBounds(ts, msgs) && b < |ts.blocks|
  {
    FullBlock(ts.blocks[b], Pick(msgs.bls, msgs.blsIncludes[b]), Pick(msgs.secpk, msgs.secpkIncludes[b]))
  }

  ghost predicate IsUnpacking(ts: TipSet, msgs: CompactedMessages, full: FullTipSet) {
    && InBounds(ts, msgs) && |full.blocks| == |ts.blocks|
    && forall b :: 0 <= b < |ts.blocks| ==> full.blocks[b] == Unpacked(ts, msgs, b)
  }

  /** None where an index leaves its list, which the original meets as a panic. */
  method PickAll<T>(messages: seq<T>, indices: seq<uint64>) returns (r: Option<seq<T>>)
    ensures r.Some? <==> Below(indices, |messages|)
    ensures r.Some? ==> r.value == Pick(messages, indices)
  {
    var picked: seq<T> := [];
    for k := 0 to |indices|
      invariant Below(indices[..k], |messages|)
      invariant picked == Pick(messages, indices[..k])
    {
      if indices[k] >= |messages| {
        return None;
      }
      assert indices[..k + 1][..k] == indices[..k];
      picked := picked + [messages[indices[k]]];
    }
    assert indices[..|indices|] == indices;
    return Some(picked);
  }

  method UnpackTipSet(ts: TipSet, msgs: CompactedMessages) returns (r: Option<FullTipSet>)
    ensures r.Some? <==> InBounds(ts, msgs)
    ensures r.Some? ==> IsUnpacking(ts, msgs, r.value)
  {
    hide Pick;
    var blocks: seq<FullBlock> := [];
    var bls, secpk := |msgs.bls|, |msgs.secpk|;
    for b := 0 to |ts.blocks|
      invariant IndicesInBounds(msgs.blsIncludes, b, bls) && IndicesInBounds(msgs.secpkIncludes, b, secpk)
      invariant |blocks| == b && forall c :: 0 <= c < b ==>
        blocks[c] == FullBlock(ts.blocks[c],
                               Pick(msgs.bls, msgs.blsIncludes[c]), Pick(msgs.secpk, msgs.secpkIncludes[c]))
    {
      if |msgs.blsIncludes| <= b {
        return None;
      }
      var blsMessages := PickAll(msgs.bls, msgs.blsIncludes[b]);
      if blsMessages.None? || |msgs.secpkIncludes| <= b {
        return None;
      }
      var secpkMessages := PickAll(msgs.secpk, msgs.secpkIncludes[b]);
      if secpkMessages.None? {
        return None;
      }
      blocks := blocks + [FullBlock(ts.blocks[b], blsMessages.value, secpkMessages.value)];
    }
    return Some(FullTipSet(blocks));
  }

  /** toFullTipSets; None is a panic. */
  method ToFullTipSets(res: ValidatedResponse) returns (r: Option<seq<FullTipSet>>)
    ensures res.tipsets == [] || |res.tipsets| != |res.messages| ==> r == Some([])
    ensures res.tipsets != [] && |res.tipsets| == |res.messages| ==>
      (r.Some? <==> forall i :: 0 <= i < |res.tipsets| ==> InBounds(res.tipsets[i], res.messages[i]))
    ensures res.tipsets != [] && |res.tipsets| == |res.messages| && r.Some? ==>
      && |r.value| == |res.tipsets|
      && forall i :: 0 <= i < |res.tipsets| ==> IsUnpacking(res.tipsets[i], res.messages[i], r.value[i])
  {
    if |res.tipsets| == 0 || |res.tipsets| != |res.messages| {
      return Some([]);
    }
    var list: seq<FullTipSet> := [];
    for i := 0 to |res.tipsets|
      invariant |list| == i
      invariant forall k :: 0 <= k < i ==> IsUnpacking(res.tipsets[k], res.messages[k], list[k])
    {
      var full := UnpackTipSet(res.tipsets[i], res.messages[i]);
      if full.None? {
        return None;
      }
      list := list + [full.value];
    }
    return Some(list);
  }

  // ----- unpacking an accepted response -----

  /** The lists are short enough for a signed length, as slices are. */
  ghost predicate FitsSlices(msgs: CompactedMessages) {
    |msgs.bls| < TWO_63 && |msgs.secpk| < TWO_63
  }

  ghost predicate SmallIndices(includes: seq<seq<uint64>>) {
    forall b :: 0 <= b < |includes| ==> Below(includes[b], TWO_63)
  }

  lemma CheckedIndices(includes: seq<seq<uint64>>, blocks: nat, messages: nat)
    requires IndicesChecked(includes, blocks, messages) && messages < TWO_63
    ensures IndicesInBounds(includes, blocks, messages) <==> SmallIndices(includes)
  {
    if SmallIndices(includes) {
      forall b, k | 0 <= b < blocks && 0 <= k < |includes[b]|
        ensures includes[b][k] < messages
      {
        assert Below(includes[b], TWO_63);
        assert includes[b][k] in includes[b];
      }
    }
  }

  /**
   * What validation leaves open: unpacking what it accepted stays in bounds exactly when no index is
   * so large that reading it as a signed number makes it negative.
   */
  lemma UnpackingTotalIff(
      h: Hashes, form: Form, head: seq<Cid>, chain: seq<Option<BSTipSet>>,
      tipsets: seq<TipSet>, messages: seq<CompactedMessages>, i: nat)
    requires IsSegment(h, form, head, chain, tipsets) && MessagesChecked(chain, WireCounts(chain), messages)
    requires i < |messages| && FitsSlices(messages[i])
    ensures |tipsets| == |messages|
    ensures InBounds(tipsets[i], messages[i])
       <==> SmallIndices(messages[i].blsIncludes) && SmallIndices(messages[i].secpkIncludes)
  {
    hide TipSetOf, SmallIndices, IndicesChecked, IndicesInBounds;
    var n := |tipsets[i].blocks|;
    assert Brings(h, form, chain[i], tipsets[i]);
    assert CompressionChecked(messages[i], n);
    CheckedIndices(messages[i].blsIncludes, n, |messages[i].bls|);
    CheckedIndices(messages[i].secpkIncludes, n, |messages[i].secpk|);
  }

  /** The blocks came in canonical order. */
  ghost predicate WireIsCanonical(h: Hashes, blks: seq<BlockHeader>) {
    |blks| == 1 || (Entries(h, blks).Some? && AllTickets(Entries(h, blks).value) && Ordered(h, Entries(h, blks).value))
  }

  /** The intended form keeps the blocks where they were exactly when they came in canonical order. */
  lemma WireOrderKeptIff(h: Hashes, blks: seq<BlockHeader>)
    requires TipSetOf(h, Intended, blks).Made? && DigestsDistinct(h) && CidsDetermineHeaders(h, blks)
    ensures TipSetOf(h, Intended, blks).ts.blocks == blks <==> WireIsCanonical(h, blks)
  {
    hide TipSetOf, Entries, Sort, DigestsDistinct, CidsDetermineHeaders, CidsTell, Headers;
    var s := Arranged(h, Intended, blks);
    var es := Entries(h, blks).value;
    assert Headers(es) == blks && Labelled(h, es);
    LabelledHeadersInjective(h, s, es);
    if |blks| == 1 {
      SameMembers(s, es);
      assert s[0] in es;
    } else {
      SortOrders(h, es);
      if WireIsCanonical(h, blks) {
        EntriesTell(h, blks);
        SameEntriesTell(es, s);
        OrderIsUnique(h, s, es);
      }
    }
  }

  /** Lists b and k name the same messages, of both kinds. */
  ghost predicate NameTheSame(msgs: CompactedMessages, blocks: nat, b: nat, k: nat)
    requires b < blocks && k < blocks
    requires IndicesInBounds(msgs.blsIncludes, blocks, |msgs.bls|)
    requires IndicesInBounds(msgs.secpkIncludes, blocks, |msgs.secpk|)
  {
    && Pick(msgs.bls, msgs.blsIncludes[b]) == Pick(msgs.bls, msgs.blsIncludes[k])
    && Pick(msgs.secpk, msgs.secpkIncludes[b]) == Pick(msgs.secpk, msgs.secpkIncludes[k])
  }

  /** Every full block has the messages that the lists at its header's place on the wire name. */
  ghost predicate OwnMessages(wire: seq<BlockHeader>, msgs: CompactedMessages, full: FullTipSet)
    requires IndicesInBounds(msgs.blsIncludes, |wire|, |msgs.bls|)
    requires IndicesInBounds(msgs.secpkIncludes, |wire|, |msgs.secpk|)
  {
    forall b, k :: 0 <= b < |full.blocks| && 0 <= k < |wire| && full.blocks[b].header == wire[k] ==>
      && full.blocks[b].blsMessages == Pick(msgs.bls, msgs.blsIncludes[k])
      && full.blocks[b].secpkMessages == Pick(msgs.secpk, msgs.secpkIncludes[k])
  }

  /**
   * Tipsets are sorted, include lists are not. So each block gets its own messages exactly when, wherever
   * sorting took it, the lists it was given there name the same messages as its own.
   */
  lemma BlocksGetTheirMessagesIff(
      h: Hashes, form: Form, blockSet: Option<BSTipSet>, ts: TipSet, msgs: CompactedMessages, full: FullTipSet)
    requires Brings(h, form, blockSet, ts) && IsUnpacking(ts, msgs, full)
    ensures |full.blocks| == |ts.blocks| == |Wire(blockSet)|
    ensures OwnMessages(Wire(blockSet), msgs, full) <==>
      forall b, k :: 0 <= b < |ts.blocks| && 0 <= k < |ts.blocks| && ts.blocks[b] == Wire(blockSet)[k] ==>
        NameTheSame(msgs, |ts.blocks|, b, k)
  {
    hide TipSetOf, Pick;
    var wire := Wire(blockSet);
    assert forall b :: 0 <= b < |ts.blocks| ==> full.blocks[b] == Unpacked(ts, msgs, b);
    if OwnMessages(wire, msgs, full) {
      forall b, k | 0 <= b < |ts.blocks| && 0 <= k < |ts.blocks| && ts.blocks[b] == wire[k]
        ensures NameTheSame(msgs, |ts.blocks|, b, k)
      {
        assert full.blocks[b].header == wire[k];
      }
    }
  }

  /**
   * Where the set came in canonical order that is: exactly when its repeated blocks have lists that name
   * the same messages, and always when no block is repeated.
   */
  lemma CanonicalOrderKeepsMessages(
      h: Hashes, blockSet: Option<BSTipSet>, ts: TipSet, msgs: CompactedMessages, full: FullTipSet)
    requires DigestsDistinct(h) && CidsDetermineHeaders(h, Wire(blockSet)) && WireIsCanonical(h, Wire(blockSet))
    requires Brings(h, Intended, blockSet, ts) && IsUnpacking(ts, msgs, full)
    ensures ts.blocks == Wire(blockSet)
    ensures OwnMessages(ts.blocks, msgs, full) <==>
      forall b, k :: 0 <= b < |ts.blocks| && 0 <= k < |ts.blocks| && ts.blocks[b] == ts.blocks[k] ==>
        NameTheSame(msgs, |ts.blocks|, b, k)
    ensures Distinct(ts.blocks) ==> OwnMessages(ts.blocks, msgs, full)
  {
    hide TipSetOf, DigestsDistinct, CidsDetermineHeaders, Pick, WireIsCanonical, OwnMessages, NameTheSame;
    WireOrderKeptIff(h, Wire(blockSet));
    BlocksGetTheirMessagesIff(h, Intended, blockSet, ts, msgs, full);
    if Distinct(ts.blocks) {
      forall b, k | 0 <= b < |ts.blocks| && 0 <= k < |ts.blocks| && ts.blocks[b] == ts.blocks[k]
        ensures NameTheSame(msgs, |ts.blocks|, b, k)
      {
        SamePlace(ts.blocks, b, k);
        SameListNamesTheSame(msgs, |ts.blocks|, b);
      }
    }
  }

  lemma SamePlace<T>(s: seq<T>, b: nat, k: nat)
    requires Distinct(s) && b < |s| && k < |s| && s[b] == s[k]
    ensures b == k
  {}

  lemma SameListNamesTheSame(msgs: CompactedMessages, blocks: nat, b: nat)
    requires b < blocks
    requires IndicesInBounds(msgs.blsIncludes, blocks, |msgs.bls|)
    requires IndicesInBounds(msgs.secpkIncludes, blocks, |msgs.secpk|)
    ensures NameTheSame(msgs, blocks, b, b)
  {}

  // ----- validation and unpacking together -----

  /** Validates a response and unpacks it; an index out of bounds is a panic. */
  method FullTipSetsOf(h: Hashes, form: Form, smsg: SyncMessage, cmsg: ChainMessage, known: seq<TipSet>)
    returns (v: Verdict<ValidatedResponse>, r: Verdict<seq<FullTipSet>>)
    ensures v == Validate(h, form, smsg, cmsg, known)
    ensures !v.Accepted? ==> r == v.PropagateFailure()
    ensures v.Accepted? && ParseOptions(smsg.options) == Options(true, true) ==>
      && !r.Rejected?
      && (r.Accepted? ==>
            && |r.value| == |cmsg.chain| == |v.value.tipsets| == |v.value.messages|
            && forall i :: 0 <= i < |r.value| ==>
                 && IsUnpacking(v.value.tipsets[i], v.value.messages[i], r.value[i])
                 && cmsg.chain[i].Some? && |r.value[i].blocks| == |cmsg.chain[i].value.blocks|)
      && ((forall i :: 0 <= i < |v.value.messages| ==> FitsSlices(v.value.messages[i])) ==>
            (r.Accepted? <==> forall i :: 0 <= i < |v.value.messages| ==>
               SmallIndices(v.value.messages[i].blsIncludes) && SmallIndices(v.value.messages[i].secpkIncludes)))
  {
    hide Validate, TipSetOf, Linked, CoversAll, InBounds, SmallIndices, FitsSlices, MessagesChecked, LengthAccepted;
    v := ValidateResponse(h, form, smsg, cmsg, known);
    if !v.Accepted? {
      return v, v.PropagateFailure();
    }
    var full := ToFullTipSets(v.value);
    r := if full.Some? then Accepted(full.value) else Panicked;
    if ParseOptions(smsg.options) == Options(true, true) {
      AcceptedWithBoth(h, form, smsg, cmsg, known, v.value);
    }
  }

  /** What both options give: lists of one length, each tipset in bounds exactly when its indices are small. */
  lemma AcceptedWithBoth(
      h: Hashes, form: Form, smsg: SyncMessage, cmsg: ChainMessage, known: seq<TipSet>, v: ValidatedResponse)
    requires Validate(h, form, smsg, cmsg, known) == Accepted(v) && ParseOptions(smsg.options) == Options(true, true)
    ensures |v.tipsets| == |v.messages| == |cmsg.chain| > 0
    ensures forall i :: 0 <= i < |v.tipsets| ==>
      cmsg.chain[i].Some? && |v.tipsets[i].blocks| == |cmsg.chain[i].value.blocks|
    ensures forall i :: 0 <= i < |v.tipsets| && FitsSlices(v.messages[i]) ==>
      (InBounds(v.tipsets[i], v.messages[i])
       <==> SmallIndices(v.messages[i].blsIncludes) && SmallIndices(v.messages[i].secpkIncludes))
  {
    hide Validate, TipSetOf, Linked, CoversAll, InBounds, SmallIndices, FitsSlices, LengthAccepted;
    AcceptedIff(h, form, smsg, cmsg, known, v);
    assert forall i :: 0 <= i < |v.tipsets| ==> Brings(h, form, cmsg.chain[i], v.tipsets[i]);
    forall i | 0 <= i < |v.tipsets| && FitsSlices(v.messages[i])
      ensures InBounds(v.tipsets[i], v.messages[i])
         <==> SmallIndices(v.messages[i].blsIncludes) && SmallIndices(v.messages[i].secpkIncludes)
    {
      UnpackingTotalIff(h, form, smsg.head, cmsg.chain, v.tipsets, v.messages, i);
    }
  }

  const BOTH_OPTIONS: uint64 := 3

  /** GetFullTipSet, once a peer has answered: one set is asked for, with everything, and its tipset handed out. */
  method GetFullTipSet(h: Hashes, form: Form, tsk: seq<Cid>, cmsg: ChainMessage) returns (r: Verdict<FullTipSet>)
    ensures var v := Validate(h, form, SyncMessage(tsk, 1, BOTH_OPTIONS), cmsg, []);
      && (!v.Accepted? ==> r == v.PropagateFailure())
      && (v.Accepted? ==>
            && |v.value.tipsets| == |v.value.messages| == |cmsg.chain| == 1
            && !r.Rejected? && (r.Accepted? <==> InBounds(v.value.tipsets[0], v.value.messages[0]))
            && (r.Accepted? ==>
                  && IsUnpacking(v.value.tipsets[0], v.value.messages[0], r.value)
                  && cmsg.chain[0].Some? && |r.value.blocks| == |cmsg.chain[0].value.blocks|
                  && CoversAll(v.value.tipsets[0].cids, tsk)))
  {
    hide Validate, TipSetOf, Linked, CoversAll, InBounds, SmallIndices, FitsSlices, MessagesChecked;
    var smsg := SyncMessage(tsk, 1, BOTH_OPTIONS);
    var v := ValidateResponse(h, form, smsg, cmsg, []);
    if !v.Accepted? {
      return v.PropagateFailure();
    }
    AcceptedIff(h, form, smsg, cmsg, [], v.value);
    AcceptedWithBoth(h, form, smsg, cmsg, [], v.value);
    var full := ToFullTipSets(v.value);
    r := if full.Some? then Accepted(full.value[0]) else Panicked;
  }
}
