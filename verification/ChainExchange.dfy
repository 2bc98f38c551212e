/** Validating the response to a chain request, and unpacking the messages that came with it. */
module ChainExchange {
  import opened Common
  import opened ChainTypes
  import opened TipSets
  import opened TipSetBuild

  // Request options are bits; response statuses are numbers.
  const HEADERS_BIT: int := 1
  const MESSAGES_BIT: int := 2
  const STATUS_OK: uint64 := 0
  const STATUS_PARTIAL: uint64 := 101

  datatype Options = Options(includeHeaders: bool, includeMessages: bool) {
    predicate NoOptionsSet() { !includeHeaders && !includeMessages }
  }

  function ParseOptions(field: uint64): Options {
    Options(field / HEADERS_BIT % 2 == 1, field / MESSAGES_BIT % 2 == 1)
  }

  /** The lowest two binary digits of the field, and no other, are the two options. */
  lemma OptionsAreLowestBits(headers: bool, messages: bool, others: nat)
    requires 4 * others + 3 < TWO_64
    ensures ParseOptions((if headers then 1 else 0) + (if messages then 2 else 0) + 4 * others)
         == Options(headers, messages)
  {
    var field := (if headers then 1 else 0) + (if messages then 2 else 0) + 4 * others;
    assert field / 2 == (if messages then 1 else 0) + 2 * others;
  }

  /** StatusToError: only two statuses are no error. */
  predicate StatusAccepted(status: uint64) {
    status == STATUS_OK || status == STATUS_PARTIAL
  }

  datatype Verdict<+T> = Accepted(value: T) | Rejected | Panicked {
    predicate IsFailure() { !Accepted? }
    function PropagateFailure<U>(): Verdict<U>
      requires !Accepted?
    {
      if Rejected? then Rejected else Panicked
    }
    function Extract(): T
      requires Accepted?
    {
      value
    }
  }

  /** Applies a check to each element in turn; the first that fails decides. */
  function Traverse<A, B>(f: A -> Verdict<B>, s: seq<A>): (r: Verdict<seq<B>>)
    ensures r.Accepted? ==> |r.value| == |s| && forall i :: 0 <= i < |s| ==> f(s[i]) == Accepted(r.value[i])
  {
    if s == [] then Accepted([])
    else
      var front :- Traverse(f, s[..|s| - 1]);
      var last :- f(s[|s| - 1]);
      Accepted(front + [last])
  }

  lemma {:induction false} FirstFailureDecides<A, B>(f: A -> Verdict<B>, s: seq<A>, i: nat)
    requires i < |s| && Traverse(f, s[..i]).Accepted? && !f(s[i]).Accepted?
    ensures Traverse(f, s) == f(s[i]).PropagateFailure()
    decreases |s|
  {
    var n := |s| - 1;
    if i < n {
      assert s[..n][..i] == s[..i];
      FirstFailureDecides(f, s[..n], i);
    } else {
      assert s[..n] == s[..i];
    }
  }

  lemma TraverseStep<A, B>(f: A -> Verdict<B>, s: seq<A>, i: nat)
    requires i < |s| && Traverse(f, s[..i]).Accepted?
    ensures f(s[i]).Accepted? ==>
      Traverse(f, s[..i + 1]) == Accepted(Traverse(f, s[..i]).value + [f(s[i]).value])
    ensures !f(s[i]).Accepted? ==> Traverse(f, s) == f(s[i]).PropagateFailure()
  {
    assert s[..i + 1][..i] == s[..i];
    if !f(s[i]).Accepted? {
      FirstFailureDecides(f, s, i);
    }
  }

  datatype ValidatedResponse = ValidatedResponse(tipsets: seq<TipSet>, messages: seq<CompactedMessages>)

  // ----- what a response is checked for -----

  function Present<T>(s: seq<Option<T>>): (r: seq<T>)
    requires NoNil(s)
    ensures |r| == |s| && forall i :: 0 <= i < |s| ==> s[i] == Some(r[i])
  {
    seq(|s|, i requires 0 <= i < |s| => s[i].value)
  }

  /** One block set turned into a tipset. */
  function TipSetFrom(h: Hashes, form: Form, blockSet: Option<BSTipSet>): Verdict<TipSet> {
    if blockSet.None? || !NoNil(blockSet.value.blocks) then Rejected
    else
      match TipSetOf(h, form, Present(blockSet.value.blocks))
      case Made(ts) => Accepted(ts)
      case Refused => Rejected
      case Panics => Panicked
  }

  /** All of them; the first that is not a tipset decides. */
  function TipSetsFrom(h: Hashes, form: Form, chain: seq<Option<BSTipSet>>): Verdict<seq<TipSet>> {
    Traverse((blockSet: Option<BSTipSet>) => TipSetFrom(h, form, blockSet), chain)
  }

  predicate Linked(tipsets: seq<TipSet>)
    requires forall i :: 0 <= i < |tipsets| ==> tipsets[i].blocks != []
  {
    forall i, j :: 0 <= i < |tipsets| && 0 <= j < |tipsets| && j == i + 1 ==> ChildOf(tipsets[i], tipsets[j])
  }

  /** The messages that came with one block set; a missing set is read through a nil pointer. */
  function MessagesOf(blockSet: Option<BSTipSet>): Verdict<CompactedMessages> {
    if blockSet.None? then Panicked
    else if blockSet.value.messages.None? then Rejected
    else Accepted(blockSet.value.messages.value)
  }

  function MessagesFrom(chain: seq<Option<BSTipSet>>): Verdict<seq<CompactedMessages>> {
    Traverse(MessagesOf, chain)
  }

  /** Every index list belongs to a block, and every index passes the signed comparison. */
  predicate IndicesChecked(includes: seq<seq<uint64>>, blocks: nat, messages: nat) {
    && |includes| == blocks
    && forall b :: 0 <= b < |includes| ==>
         forall m :: m in includes[b] ==> ToInt64(m) < messages
  }

  predicate CompressionChecked(msgs: CompactedMessages, blocks: nat) {
    IndicesChecked(msgs.blsIncludes, blocks, |msgs.bls|) && IndicesChecked(msgs.secpkIncludes, blocks, |msgs.secpk|)
  }

  predicate AllCompressionChecked(msgs: seq<CompactedMessages>, blocks: seq<nat>)
    requires |msgs| <= |blocks|
  {
    forall i :: 0 <= i < |msgs| ==> CompressionChecked(msgs[i], blocks[i])
  }

  function BlockCounts(tipsets: seq<TipSet>): (r: seq<nat>)
    ensures |r| == |tipsets| && forall i :: 0 <= i < |r| ==> r[i] == |tipsets[i].blocks|
  {
    Map((ts: TipSet) => |ts.blocks|, tipsets)
  }

  /** How many blocks each set of a response brings along. */
  function WireCounts(chain: seq<Option<BSTipSet>>): (r: seq<nat>)
    ensures |r| == |chain| && forall i :: 0 <= i < |r| ==> r[i] == if chain[i].Some? then |chain[i].value.blocks| else 0
  {
    Map((s: Option<BSTipSet>) => if s.Some? then |s.value.blocks| else 0, chain)
  }

  predicate LengthAccepted(smsg: SyncMessage, cmsg: ChainMessage) {
    && cmsg.chain != []
    && |cmsg.chain| <= ToInt64(smsg.length)
    && (|cmsg.chain| < ToInt64(smsg.length) ==> cmsg.status == STATUS_PARTIAL)
  }

  function CheckHeaders(
      h: Hashes, form: Form, smsg: SyncMessage, chain: seq<Option<BSTipSet>>)
    : Verdict<seq<TipSet>>
    requires chain != []
  {
    var tipsets :- TipSetsFrom(h, form, chain);
    MadeNonEmpty(h, form, chain, tipsets);
    if !CoversAll(tipsets[0].cids, smsg.head) || !Linked(tipsets) then Rejected
    else Accepted(tipsets)
  }

  lemma MadeNonEmpty(h: Hashes, form: Form, chain: seq<Option<BSTipSet>>, tipsets: seq<TipSet>)
    requires TipSetsFrom(h, form, chain) == Accepted(tipsets)
    ensures forall i :: 0 <= i < |tipsets| ==>
      |tipsets[i].blocks| == |tipsets[i].cids| == |chain[i].value.blocks| > 0
  {
    forall i | 0 <= i < |tipsets|
      ensures |tipsets[i].blocks| == |tipsets[i].cids| == |chain[i].value.blocks| > 0
    {
      assert TipSetFrom(h, form, chain[i]) == Accepted(tipsets[i]);
      TipSetBlocksAgree(h, form, Present(chain[i].value.blocks));
    }
  }

  function CheckMessages(options: Options, chain: seq<Option<BSTipSet>>, known: seq<TipSet>)
    : Verdict<seq<CompactedMessages>>
  {
    var messages :- MessagesFrom(chain);
    if options.includeHeaders then
      if AllCompressionChecked(messages, WireCounts(chain)) then Accepted(messages) else Rejected
    else if |known| < |chain| then Rejected
    else if AllCompressionChecked(messages, BlockCounts(known)) then Accepted(messages)
    else Rejected
  }

  /** What validateResponse decides; known are the tipsets of a caller that asks for messages only. */
  function Validate(h: Hashes, form: Form, smsg: SyncMessage, cmsg: ChainMessage, known: seq<TipSet>)
    : Verdict<ValidatedResponse>
  {
    var options := ParseOptions(smsg.options);
    if !StatusAccepted(cmsg.status) || options.NoOptionsSet() || !LengthAccepted(smsg, cmsg) then Rejected
    else
      var tipsets :- if options.includeHeaders then CheckHeaders(h, form, smsg, cmsg.chain) else Accepted([]);
      var messages :- if options.includeMessages then CheckMessages(options, cmsg.chain, known) else Accepted([]);
      Accepted(ValidatedResponse(tipsets, messages))
  }

  // ----- the checks, step by step -----

  method BuildTipSets(h: Hashes, form: Form, chain: seq<Option<BSTipSet>>) returns (r: Verdict<seq<TipSet>>)
    ensures r == TipSetsFrom(h, form, chain)
  {
    hide Traverse, TipSetFrom;
    var tipsets: seq<TipSet> := [];
    ghost var f := (blockSet: Option<BSTipSet>) => TipSetFrom(h, form, blockSet);
    TraverseNone(f, chain);
    for i := 0 to |chain|
      invariant Traverse(f, chain[..i]) == Accepted(tipsets)
    {
      TraverseStep(f, chain, i);
      var made := BuildTipSet(h, form, chain[i]);
      if !made.Accepted? {
        return made.PropagateFailure();
      }
      tipsets := tipsets + [made.value];
    }
    assert chain[..|chain|] == chain;
    r := Accepted(tipsets);
  }

  lemma TraverseNone<A, B>(f: A -> Verdict<B>, s: seq<A>)
    ensures Traverse(f, s[..0]) == Accepted([])
  {}

  method BuildTipSet(h: Hashes, form: Form, blockSet: Option<BSTipSet>) returns (r: Verdict<TipSet>)
    ensures r == TipSetFrom(h, form, blockSet)
  {
    if blockSet.None? {
      return Rejected;
    }
    var blocks: seq<BlockHeader> := [];
    for i := 0 to |blockSet.value.blocks|
      invariant |blocks| == i && forall k :: 0 <= k < i ==> blockSet.value.blocks[k] == Some(blocks[k])
    {
      if blockSet.value.blocks[i].None? {
        return Rejected;
      }
      blocks := blocks + [blockSet.value.blocks[i].value];
    }
    PresentUnique(blockSet.value.blocks, blocks);
    var made := NewTipSet(h, form, blocks);
    match made {
      case Made(ts) => r := Accepted(ts);
      case Refused => r := Rejected;
      case Panics => r := Panicked;
    }
  }

  lemma PresentUnique<T>(s: seq<Option<T>>, r: seq<T>)
    requires |r| == |s| && forall i :: 0 <= i < |s| ==> s[i] == Some(r[i])
    ensures NoNil(s) && Present(s) == r
  {
    assert forall i :: 0 <= i < |s| ==> Some(Present(s)[i]) == Some(r[i]);
  }

  method ConnectTipSets(tipsets: seq<TipSet>) returns (linked: bool)
    requires forall i :: 0 <= i < |tipsets| ==> tipsets[i].blocks != []
    ensures linked == Linked(tipsets)
  {
    var i := 0;
    while i < |tipsets| - 1
      invariant 0 <= i && (i == 0 || i < |tipsets|)
      invariant forall k :: 0 <= k < i ==> ChildOf(tipsets[k], tipsets[k + 1])
    {
      var child := IsChildOf(tipsets[i], tipsets[i + 1]);
      if !child {
        return false;
      }
      i := i + 1;
    }
    return true;
  }

  method CollectMessages(chain: seq<Option<BSTipSet>>) returns (r: Verdict<seq<CompactedMessages>>)
    ensures r == MessagesFrom(chain)
  {
    hide Traverse;
    var messages: seq<CompactedMessages> := [];
    TraverseNone(MessagesOf, chain);
    for i := 0 to |chain|
      invariant Traverse(MessagesOf, chain[..i]) == Accepted(messages)
    {
      TraverseStep(MessagesOf, chain, i);
      if chain[i].None? {
        return Panicked;
      }
      if chain[i].value.messages.None? {
        return Rejected;
      }
      messages := messages + [chain[i].value.messages.value];
    }
    assert chain[..|chain|] == chain;
    r := Accepted(messages);
  }

  method CheckIndices(includes: seq<seq<uint64>>, b: nat, messages: nat) returns (ok: bool)
    requires b < |includes|
    ensures ok <==> forall m :: m in includes[b] ==> ToInt64(m) < messages
  {
    for i := 0 to |includes[b]|
      invariant forall k :: 0 <= k < i ==> ToInt64(includes[b][k]) < messages
    {
      if ToInt64(includes[b][i]) >= messages {
        assert includes[b][i] in includes[b];
        return false;
      }
    }
    return true;
  }

  method ValidateCompressedIndices(msgs: seq<CompactedMessages>, blocks: seq<nat>) returns (ok: bool)
    requires |msgs| <= |blocks|
    ensures ok == AllCompressionChecked(msgs, blocks)
  {
    for i := 0 to |msgs|
      invariant forall k :: 0 <= k < i ==> CompressionChecked(msgs[k], blocks[k])
    {
      var ms, n := msgs[i], blocks[i];
      if |ms.blsIncludes| != n || |ms.secpkIncludes| != n {
        return false;
      }
      for b := 0 to n
        invariant forall c :: 0 <= c < b ==>
          && (forall m :: m in ms.blsIncludes[c] ==> ToInt64(m) < |ms.bls|)
          && (forall m :: m in ms.secpkIncludes[c] ==> ToInt64(m) < |ms.secpk|)
      {
        var bls := CheckIndices(ms.blsIncludes, b, |ms.bls|);
        if !bls {
          return false;
        }
        var secpk := CheckIndices(ms.secpkIncludes, b, |ms.secpk|);
        if !secpk {
          return false;
        }
      }
    }
    return true;
  }

  method ValidateResponse(h: Hashes, form: Form, smsg: SyncMessage, cmsg: ChainMessage, known: seq<TipSet>)
    returns (r: Verdict<ValidatedResponse>)
    ensures r == Validate(h, form, smsg, cmsg, known)
  {
    hide TipSetFrom, AllCompressionChecked, CoversAll, Linked;
    if !StatusAccepted(cmsg.status) {
      return Rejected;
    }
    var options := ParseOptions(smsg.options);
    if options.NoOptionsSet() {
      return Rejected;
    }
    var chain := cmsg.chain;
    if |chain| == 0 || |chain| > ToInt64(smsg.length) {
      return Rejected;
    }
    if |chain| < ToInt64(smsg.length) && cmsg.status != STATUS_PARTIAL {
      return Rejected;
    }
    var tipsets: seq<TipSet> := [];
    if options.includeHeaders {
      tipsets :- BuildTipSets(h, form, chain);
      MadeNonEmpty(h, form, chain, tipsets);
      var headMatches := CidArrsEqual(tipsets[0].cids, smsg.head);
      if !headMatches {
        return Rejected;
      }
      var linked := ConnectTipSets(tipsets);
      if !linked {
        return Rejected;
      }
    }
    var messages: seq<CompactedMessages> := [];
    if options.includeMessages {
      messages :- CollectMessages(chain);
      if !options.includeHeaders && |known| < |chain| {
        return Rejected;
      }
      var blockCounts := if options.includeHeaders then WireCounts(chain) else BlockCounts(known);
      var ok := ValidateCompressedIndices(messages, blockCounts);
      if !ok {
        return Rejected;
      }
    }
    return Accepted(ValidatedResponse(tipsets, messages));
  }
}
