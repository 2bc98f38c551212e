/** Block headers, messages and the sets they come in. */
module ChainTypes {
  import opened Common

  // Values whose own packages are not part of this model; only their identity matters here.
  datatype Addr = Addr(bytes: Bytes)
  datatype BigInt = BigInt(value: int)
  datatype Signature = Signature(kind: byte, data: Bytes)
  datatype PoStProof = PoStProof(kind: int64, bytes: Bytes)

  datatype Ticket = Ticket(vrfProof: Bytes)
  datatype ElectionProof = ElectionProof(winCount: int64, vrfProof: Bytes)
  datatype BeaconEntry = BeaconEntry(round: uint64, data: Bytes)

  datatype BlockHeader = BlockHeader(
    miner: Addr,
    ticket: Option<Ticket>,
    electionProof: Option<ElectionProof>,
    beaconEntries: seq<BeaconEntry>,
    winPoStProof: seq<PoStProof>,
    parents: seq<Cid>,
    parentWeight: BigInt,
    height: int64,
    parentStateRoot: Cid,
    parentMessageReceipts: Cid,
    messages: Cid,
    blsAggregate: Option<Signature>,
    timestamp: uint64,
    blockSig: Option<Signature>,
    forkSignaling: uint64,
    parentBaseFee: BigInt)

  datatype Message = Message(
    version: uint64,
    to: Addr,
    from: Addr,
    nonce: uint64,
    value: BigInt,
    gasLimit: int64,
    gasFeeCap: BigInt,
    gasPremium: BigInt,
    methodNum: uint64,
    params: Bytes)

  datatype SignedMessage = SignedMessage(message: Message, signature: Signature)

  datatype TipSet = TipSet(cids: seq<Cid>, blocks: seq<BlockHeader>, height: int64)

  // Pointers may be nil, so the elements of pointer slices are optional.
  datatype FullBlock = FullBlock(
    header: BlockHeader,
    blsMessages: seq<Option<Message>>,
    secpkMessages: seq<Option<SignedMessage>>)
  datatype FullTipSet = FullTipSet(blocks: seq<FullBlock>)

  datatype CompactedMessages = CompactedMessages(
    bls: seq<Option<Message>>,
    blsIncludes: seq<seq<uint64>>,
    secpk: seq<Option<SignedMessage>>,
    secpkIncludes: seq<seq<uint64>>)
  datatype BSTipSet = BSTipSet(blocks: seq<Option<BlockHeader>>, messages: Option<CompactedMessages>)
  datatype ChainMessage = ChainMessage(status: uint64, errorMessage: Bytes, chain: seq<Option<BSTipSet>>)
  datatype SyncMessage = SyncMessage(head: seq<Cid>, length: uint64, options: uint64)
}
