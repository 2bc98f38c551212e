# A verified model of the Filecoin kernel

This project models, in Dafny, the parts of the repository that change chain state or decide what to believe about
it: the transactional actor machine, the validation of chain exchange responses, the tuple encodings they travel in,
the content-addressed store of block headers and the collection of messages.

To verify: `dafny verify dfyconfig.toml`.

**The actor machine** (`Vm*.dfy`). An actor method is a program in the form of an interaction tree: each runtime call
is followed by a program that depends on the answer, so every deterministic method that ends is some program, and a
lemma about all programs is a lemma about all such actors. `VmSemantics` is a reference semantics on immutable worlds
in which a failed invocation gives back the actors it started from; it has no checkpoint, no rollback and no
exception. `VmStore`, `VmContext` and `VmMachine` are the classes of the original: one mutable store shared by all
invocations, cached records, a record per invocation that is overwritten on the way, checkpoints and rollbacks through
a snapshot table. Each of their methods is proved to compute what the reference semantics says. What the machine
promises is then proved about the semantics: conservation of funds, no negative balance, no lost record, nonces,
atomic transactions, implicit accounts, an address map that only grows, top-level accounting. What the semantics
itself says is pinned down from the outside, in `VmReplies`, `VmOutcomes` and `VmOrigin`: which method runs for whom,
and what it is answered. Where a promise fails there is a lemma with the run that breaks it and one that says exactly
when it holds.

**Chain segments** (`ChainTypes`, `TipSets`, `TipSetBuild`, `ChainExchange`, `ChainSegments`, `ChainHazards`).
`NewTipSet` exists in two forms. The source ranges over the sorted blocks from the second one on and appends the
element *before* the one it looks at (`chain/chain.go:178`, `chain/chain.go:193-194`); that is the form `Written`,
which lists the first block twice and drops the last. The form `Intended` lists every block once. Properties that hold
of both are proved of both; the rest say which form they are about, and what the difference costs is proved too.

**Encodings** (`Cbor*.dfy`). A codec is a printer, a parser that hands back what it did not read, and the set of
values that survive the trip. The law that carries the round trips says that what was printed is read back whatever
follows it; it is proved for heads (sections 3 and 4.2.1 of RFC 8949) and carried up to whole responses. It is all
that is asked of the values that other packages encode, along with reading front to back. Their readers may refuse
what their writers take, so which headers and responses survive is carried up as well. That a value has only one
encoding is a second law, kept apart: it needs it of those values too, and `CborPadding` shows what becomes of it when
one of them, a big integer with padding say, can be written in two ways. The generated marshallers are methods over a
reader with push-back and an appending writer, down to the loops inside loops, each proved to be the codec of its
type; `CborLayout` says what that codec puts on the wire, byte by byte and field by field.

**Store and collection** (`ChainStore`, `Fetch`). Headers put under their CIDs and tipsets loaded back; messages
filled into their slots from any sequence of deliveries.

## Model

The first 94 rows are the main results; the rest are the operations they are about and the steps towards them.

| member | source | states |
|---|---|---|
| VmContext.InvocationContext.Invoke | runtime/context.go:113-204 | refinement: checkpoint, recover and rollback over the shared store end in exactly the world and reply of a semantics that has none of them, for every method and nesting |
| VmMachine.Machine.ApplyMessage | runtime/vm.go:68-149 | the top-level step computes what the semantics says; its own rollback after a failed invocation is proved to change nothing |
| VmReplies.MessageAnswers | runtime/vm.go:113-148 | which method runs, with which originator, caller, funds and records, and that its result, abort or panic is the reply, in the world its run ends in or in that of the entry |
| VmReplies.SendAnswers | runtime/context.go:517-539 | the same of a message sent by a method: it comes from that actor, on behalf of the same originator, and the sender goes on from its exit code and result |
| VmReplies.EchoReply | runtime/context.go:185-203 | a method that returns its parameters: the reply is Ok with those parameters |
| VmReplies.EchoAnswer | runtime/context.go:532-538 | and so is the answer to a message sent to it by a method |
| VmOrigin.InvokeSame | runtime/context.go:532-533 | whatever runs inside a message, however deep, acts on behalf of its originator: methods that agree for that originator give the same world and reply |
| VmReplies.BareTransfer | runtime/context.go:266-309 | who has what after a bare transfer, in numbers |
| VmReplies.SenderDecides | runtime/vm.go:73-87 | exactly when a message panics before it begins, is turned away with SysErrSenderInvalid, or is accepted |
| VmReplies.NoSuchMethod | runtime/context.go:206-218 | a method number without a method: SysErrInvalidMethod up to 2^63, a panic at the number of methods itself and from 2^63 on |
| VmReplies.NoSuchTarget | runtime/context.go:725-780 | a target that is no actor and cannot become one: SysErrInvalidReceiver, in each way that can be |
| VmReplies.ConstructorDecides | runtime/context.go:749-765 | whatever the account constructor is: how it is called, and that its result, abort or panic decides the creation |
| VmInvariants.InvokeEvolves | runtime/context.go:113-204 | every invocation conserves total funds, keeps balances non-negative, heads stored and stored objects as they are, loses no record, changes no code or nonce, adds only fresh records |
| VmAccounting.RunAccounting | runtime/vm.go:68-149 | over every list of messages funds are conserved, no balance goes below zero, no stored object is lost or (without collisions) exchanged, no actor is lost and no code changes |
| VmAccounting.MessageAccounting | runtime/vm.go:68-149 | a message from an unknown sender changes nothing; an accepted one that does not end Ok leaves exactly the entry records with the sender's nonce bumped |
| VmAccounting.NoncesCountMessages | runtime/vm.go:68-149 | over every list of messages a nonce grows by the number of accepted messages of its actor, modulo 2^64 |
| VmAddresses.AddressesOnlyGrow | runtime/vm.go:68-149 | under that premise no list of messages ever takes the mapping of a tracked address away or changes it, through nested sends, aborts, panics, rollbacks and implicit creation |
| VmAddresses.AccountAndMappingOrNeither | runtime/context.go:725-782 | if the Init actor's own transactions keep the mappings of tracked addresses, all key addresses among them: an account at a fresh ID and the address mapped to it when the message is over, whatever constructor and method did, or neither |
| VmExec.MapNewExtendsIff | runtime/context.go:731 | a transaction that maps an address to a new ID meets the premise if and only if that address is not a tracked one |
| VmExec.ExecKeepsRule | runtime/context.go:487-514 | so an Init actor may have a method that maps made-up addresses, none of which is a key address |
| VmExec.MapNewKeepsIff | runtime/context.go:731 | in any given state such a transaction keeps all mappings if and only if the address had none, or the very one it is given |
| VmExec.ExecTwiceRemaps | runtime/vm.go:113-120 | two creations by one originator, whose made-up address never changes: the second takes the address away from the first actor |
| VmAccounts.AccountCreatedExactly | runtime/context.go:700-783 | with the standard constructor creation succeeds if and only if the next ID is free, and then adds one mapping, one actor, and nothing else |
| VmOutcomes.AccountInPlainTerms | runtime/context.go:725-782 | the created account in plain terms: one mapping more, the next ID, an unused record with the address as its state, all others as they were |
| VmOutcomes.PutThenGet | runtime/context.go:318-330 | an object put is what is got under its CID, whatever messages are applied in between |
| VmOutcomes.CodeIsAnswered | runtime/vm.go:68-149 | an actor's code is answered the same over every list of messages |
| VmAccounts.ImplicitAccountAllOrNothing | runtime/context.go:725-782 | whatever the constructor does, a message to an unowned key address ends Ok with an account actor at the fresh ID, or leaves every actor record as it was |
| VmAccounts.ResolvedStaysResolved | runtime/context.go:720-728 | resolving a created address again finds the same account and creates nothing |
| VmAccounts.TopLevelFunds | runtime/vm.go:79-135 | for every method: a negative value is SysErrForbidden, an excessive one SysErrInsufficientFunds, the panics of a transfer are unreachable, and otherwise world and reply are those of the method from the world with the funds moved |
| VmAccounts.PlainTransfer | runtime/context.go:154-172 | the whole effect of a top-level transfer: the exact final world and reply in each case, self-transfer and creation of the receiver included |
| VmTransactions.TransactionAtomic | runtime/context.go:368-382 | a transaction keeps its lock to the end if and only if its run opens no other one; then no message is sent and answered inside it, its receiver's head goes from the state loaded to the state its body returns, and no other record moves |
| VmTransactions.MappingsAreNotOverwritten | runtime/context.go:368-382 | on the Init actor: the body gets the mappings there are, what it returns is what there is at the end, and if its run opens no other transaction the mappings it replaces are still those it was given |
| VmTransactions.LockedRun | runtime/context.go:376-379 | under the lock: it is still on at the end of a run if and only if the run opened no transaction, and then no existing record has moved, nor the head of a receiver that has a state |
| VmTransactions.NestedTransactionUnlocks | runtime/context.go:377-379 | the lock does not nest: after an inner transaction a payment inside the outer one goes through |
| VmTransactions.MappingLost | runtime/context.go:377-382 | and on the Init actor a mapping is lost: an account created inside the outer transaction stays, its mapping goes, and no account can be created afterwards |
| VmHazards.OkMeansCommittedIff | runtime/context.go:121-139 | an Ok reply comes without its effects if and only if target, funds and dispatch succeed and the method's own run comes to an abort with Ok; then all its effects are undone |
| VmHazards.FailsOkIff | runtime/context.go:68-70 | a run fails with Ok if and only if it comes to an abort with Ok, its own or a transaction body's: no send, load, store or serialisation error does |
| VmHazards.OkMeansCommitted | runtime/context.go:121-139 | if no method aborts with Ok, an Ok reply is equivalent to the effects having been kept |
| VmHazards.OkAbortDiscards | runtime/context.go:129-132 | without that premise it fails: a method that aborts with Ok reports success while the funds sent along never moved |
| VmHazards.PayTwiceOutcome | runtime/context.go:522-533 | paying v twice from balance b ends normally below v and from 2v on, and panics exactly between: the second check uses a stale record |
| TipSets.TipSetIgnoresOrder | chain/chain.go:142-200 | if no two of the blocks share a CID unless they are one, every permutation of them gives the same tipset, or the same refusal, or the same panic, in both forms |
| TipSets.OrderIsUnique | chain/chain.go:162-171 | there is one ordered arrangement of a set of blocks, so it does not matter which algorithm sorts them |
| TipSets.BeforeIsStrictOrder | chain/chain.go:162-171 | with collision-free digests the two-key comparator is a strict order, total up to equal tickets and CIDs |
| TipSets.TipSetIsInOrder | chain/chain.go:113-171 | in the intended form, of two blocks with different tickets the first has the smaller ticket digest at the first byte where they differ, and of two with one ticket the CID of the first is not the greater |
| TipSets.TipSetExistsIff | chain/chain.go:142-191 | exactly when blocks make a tipset and when building one panics: CIDs, tickets, one height, one list of parents |
| TipSets.WrittenShifts | chain/chain.go:178-197 | the written form is the intended one shifted: its first block, then all but the last |
| TipSets.TipSetBlocksAgree | chain/chain.go:178-199 | all blocks given share the tipset's height and one list of parents, each CID listed is its block's, and the block count is kept |
| TipSets.IntendedIsSortedPermutation | chain/chain.go:162-199 | the intended form lists exactly the blocks given, in canonical order |
| TipSets.WrittenIsIntendedIff | chain/chain.go:178-197 | the written form gives the intended tipset if and only if all its blocks are one and the same |
| ChainSegments.AcceptedIff | protocols/chainexchange/client.go:155-261 | a response is accepted if and only if its status is 0 or 101, it has as many sets as were asked for or, with 101, fewer but some, its sets bring a connected chain of tipsets from the head asked for (when headers are), and its index lists check out against the right block counts (when messages are) |
| ChainSegments.AcceptedCounts | protocols/chainexchange/client.go:155-261 | what a caller can count on: statuses and numbers of sets, tipsets and messages |
| ChainSegments.PanicsIff | protocols/chainexchange/client.go:186-228 | exactly when validation panics: with headers on a nil ticket among several blocks, without them on a nil set |
| ChainSegments.EveryBlockIsLinked | protocols/chainexchange/client.go:211-218 | in such a chain every block of a set, not only the first one listed, has its tipset's height and a list of parents that covers the CIDs of the next tipset; these are exactly its parents if the next tipset repeats no CID, and for a block that repeats no parent only then |
| ChainSegments.LinkIsIdentityIff | chain/chain.go:202-204 | passing the link check means having exactly the listed parents, whatever the child, if and only if the tipset repeats no CID |
| ChainHazards.RepeatedBlockAccepted | protocols/chainexchange/client.go:211-218 | in both forms a set that brings one block twice is accepted for the two parents a block names, one of which never comes |
| ChainSegments.WrittenNeverLinksExactly | chain/chain.go:178-197 | as written, behind a set of several blocks no block that names each parent once has the parents listed |
| ChainHazards.WrittenLastBlockUnchecked | chain/chain.go:178-197 | as written, the last block of such a set may be one that nobody names as a parent |
| ChainSegments.HeightsDecrease | protocols/chainexchange/client.go:211-218 | heights strictly decrease between any two tipsets of such a chain, so none repeats |
| ChainSegments.HeadIsRequested | protocols/chainexchange/client.go:206-209 | the head that came has the length of the one asked for and every block of it, and if the request names each block once it is a permutation of it |
| TipSetBuild.ComparisonIsIdentityIff | chain/chain.go:206-223 | whatever a list is compared with, passing means being a permutation of it, if and only if the list has no repeats |
| TipSetBuild.ComparisonIsPermutation | protocols/chainexchange/client.go:299-316 | against a list without repeats the comparison, in both its copies, holds if and only if one list is a permutation of the other |
| ChainHazards.RepeatedHeadAccepted | protocols/chainexchange/client.go:206-209 | a request that names a block twice is answered, and the answer accepted, with another block in place of the repeat |
| ChainSegments.WrittenRefusesMultiBlockHeads | protocols/chainexchange/client.go:206-209 | hence, as written, only heads of a single block are ever accepted when the request names each block once |
| ChainSegments.UnpackingTotalIff | protocols/chainexchange/client.go:230-237 | unpacking an accepted tipset's messages stays in bounds if and only if none of its indices is 2^63 or more |
| ChainHazards.HugeIndexPanics | protocols/chainexchange/client.go:58-71 | asking for a full tipset then ends in the index panic |
| ChainSegments.BlocksGetTheirMessagesIff | protocols/chainexchange/client.go:359-367 | every full block has the messages that the lists at its header's place on the wire name, if and only if wherever sorting took a block the lists found there name the same messages |
| ChainSegments.CanonicalOrderKeepsMessages | protocols/chainexchange/client.go:359-367 | for a set in canonical order that is so if and only if its repeated blocks have lists that name the same, and always without repeats |
| ChainHazards.MessagesChangePlaces | protocols/chainexchange/client.go:359-367 | an accepted response of two blocks out of order: each is given the message of the other |
| ChainSegments.WireOrderKeptIff | chain/chain.go:162-199 | a tipset lists its blocks as they came if and only if they came in canonical order |
| CborRoundTrip.ResponseThereAndBack | protocols/chainexchange/cbor_gen.go:527-644 | the marshaller followed by the unmarshaller, over streams: a readable response comes back as it was and leaves what followed it, any other is refused |
| CborRoundTrip.ResponseBackAndThere | protocols/chainexchange/cbor_gen.go:527-644 | the unmarshaller followed by the marshaller: if the parts have one encoding each, whatever bytes were read as a response are written again |
| CborRoundTrip.RequestThereAndBack | protocols/chainexchange/cbor_gen.go:408-523 | a request that marshals comes back as it was and leaves what followed it if its CIDs are readable, and is refused if one is not |
| CborRoundTrip.HeaderThereAndBack | chain/cbor_gen.go:21-449 | a block header that marshals comes back as it was and leaves what followed it if it is readable, and is refused if it is not |
| CborExchange.ResponseRoundTrip | protocols/chainexchange/cbor_gen.go:527-644 | a response that marshals, followed by anything, is read back as itself leaving exactly what followed if it is readable, and refused if it is not |
| CborLayout.MessageLayout | chain/cbor_gen.go:629-707 | what is written of a message: byte 138 and its ten fields by name, in order; and exactly when it can be written |
| CborLayout.HeaderLayout | chain/cbor_gen.go:21-150 | what is written of a header: byte 144 and its sixteen fields by name, in order; and exactly when it can be written |
| CborLayout.ChainMessageLayout | protocols/chainexchange/cbor_gen.go:527-570 | what is written of a response: byte 131, status, text, list of block sets |
| CborLayout.HeadBytes | chain/cbor_gen.go:27-30 | heads in numbers: major type and size in the first byte, then the argument, highest byte first |
| CborExchange.ChainDomain | protocols/chainexchange/cbor_gen.go:572-644 | the responses that survive the trip are exactly the readable ones: no nil element at any depth, and no value that its own reader refuses |
| CborExchange.ReadableIffNoNil | protocols/chainexchange/cbor_gen.go:572-644 | where those readers refuse nothing, nil elements are all that can be wrong |
| CborExchange.ResponsesArePrefixFree | protocols/chainexchange/cbor_gen.go:527-570 | encodings of readable responses are injective and prefix-free |
| CborExchange.ResponseIsCanonical | protocols/chainexchange/cbor_gen.go:572-644 | if the parts have one encoding each, so have responses: whatever is read as one is readable and is what it is printed as |
| CborPadding.CanonicalIff | protocols/chainexchange/cbor_gen.go:572-644 | the exact condition, the other parts being canonical: headers, and responses, have one encoding each if and only if big integers have |
| CborPadding.PaddingBreaksCanonicity | chain/cbor_gen.go:439-449 | a base fee that is also read from padded bytes gives every header, and a response with it, other bytes it is read from and not printed as |
| ChainStore.StoreRoundTrip | chain/store.go:119-130 | after putting headers, loading any permutation of their CIDs gives by value the tipset those headers make, and fails exactly if one of them cannot be read back |
| ChainStore.EarlierPutIsLoaded | chain/store.go:71-130 | headers put first can still be loaded after others are put |
| ChainStore.FoundIsAuthenticIfCanonical | chain/store.go:83-93 | if the parts have one encoding each, a header found under a CID has that CID if and only if nothing follows it in its block |
| ChainStore.PaddedBlockIsNotAuthentic | chain/store.go:83-93 | a block with a padded base fee under its own hash is read as a header, with nothing behind it, that has another CID |
| Fetch.NewCidIndex | sync/fetchblocks.go:22-39 | succeeds if and only if all prefixes match and no CID repeats, which the final comparison of sizes finds |
| Fetch.IndexableIff | chain/chain.go:225-232 | in numbers: version 1, the hash 31 places after the first of the blake2b family, 32 bytes, no repeats |
| Fetch.FetchMessages | sync/fetchblocks.go:113-141 | for any sequence of deliveries: an error if and only if the first delivery of an expected CID does not decode, otherwise each slot holds its message or nil |
| Fetch.FailsIff | sync/fetchblocks.go:118-135 | a fetch fails if and only if a first delivery of an expected CID does not decode |
| Fetch.OrderDoesNotMatter | sync/fetchblocks.go:83-111 | the result depends on the set of blocks delivered only, not on order, repeats or unexpected ones |
| Fetch.CompleteIff | sync/fetchblocks.go:83-111 | no slot is nil if and only if every CID arrived |
| VmFuel.FuelIrrelevant | runtime/context.go:113-204 | any two bounds on its length under which an invocation ends give the same result |
| VmContext.InvocationContext.Execute | runtime/context.go:141-203 | the guarded part: target, funds, bare send, dispatch and run, with the abort or panic that ends it and the state objects it leaves behind |
| VmContext.InvocationContext.ResolveTarget | runtime/context.go:700-783 | which record and ID address a target resolves to, in every error case, against the semantics |
| VmContext.InvocationContext.CreateAccount | runtime/context.go:725-768 | mapping, new record and constructor invocation on the shared store, although the Init record written back is one read earlier |
| VmContext.InvocationContext.Transfer | runtime/context.go:266-309 | debit, write, reload, credit ends in one simultaneous move of funds, also when both addresses are the same record |
| VmContext.InvocationContext.Run | runtime/context.go:247-262 | running a method step by step on the mutable store and the mutable side-effect lock yields the world, result and lock of the semantics |
| VmContext.InvocationContext.Perform | runtime/context.go:318-364 | the runtime calls that run no other code act on the shared store as they do on an immutable world |
| VmContext.InvocationContext.Send | runtime/context.go:517-539 | a nested message: refused under the lock, otherwise an invocation with the cached caller record, whose unreadable return value is an abort |
| VmContext.InvocationContext.CreateActor | runtime/context.go:542-571 | a fresh record at an address that has none; every other case is the abort or panic named |
| VmContext.InvocationContext.DeleteActor | runtime/context.go:574-594 | deletion never completes: an absent receiver is an abort, anything else a panic |
| VmContext.InvocationContext.StateCreate | runtime/context.go:348-359 | sets the head of a receiver that has no state yet, and only of that one |
| VmContext.InvocationContext.LoadState | runtime/context.go:806-831 | the state object under the receiver's current head, freshly read, with its three ways to fail |
| VmContext.InvocationContext.Replace | runtime/context.go:785-803 | puts the object and moves the receiver's head to it, changing no other field of its record |
| VmContext.InvocationContext.StateTransaction | runtime/context.go:368-382 | load, body under the lock, replace; the lock is dropped at the end whatever it was before |
| VmOutcomes.DeleteActorAnswers | runtime/context.go:574-594 | how deleting oneself fails |
| VmOutcomes.ResolveAddressAnswers | runtime/context.go:483-485 | every case of looking up an address |
| VmOutcomes.StateReadonlyAnswers | runtime/context.go:806-831 | every case of reading one's state |
| VmOutcomes.StateCreateAnswers | runtime/context.go:348-359 | every case of giving oneself a first state |
| VmOutcomes.CreateActorAnswers | runtime/context.go:542-571 | every case of creating an actor, from the run it is called in |
| VmStore.ActorStore.GetActor | runtime/actor.go:106-113 | the record at an ID address, absence, or an error for other addresses |
| VmStore.ActorStore.SetActor | runtime/actor.go:115-123 | one record changes and no other; other addresses are refused without effect |
| VmStore.ActorStore.MutateActor | runtime/actor.go:125-142 | one existing record is replaced by its image, unless the mutation refuses; anything else leaves all records alone |
| VmStore.ActorStore.SetActorState | runtime/actor.go:74-87 | one head moves to a stored object, or nothing changes |
| VmStore.ActorStore.NormalizeAddress | runtime/actor.go:148-165 | ID addresses as they are, others through the Init actor's current map |
| VmStore.ActorStore.Checkpoint | runtime/actor.go:167-175 | the flushed map can be found under the root returned, older snapshots stay |
| VmStore.ActorStore.Rollback | runtime/actor.go:177-186 | the actors whose root it is are back, state objects stay; an unknown root changes nothing |
| VmMachine.Machine.ApplyAll | runtime/vm.go:68-149 | a list of messages on one mutable machine is the list on immutable worlds |
| TipSetBuild.InsertInPlace | chain/chain.go:162-171 | one pass of the in-place sort is an insertion into the sorted front |
| TipSetBuild.SortInPlace | chain/chain.go:162-171 | the array ends as the sorted list of what it held |
| TipSetBuild.Collect | chain/chain.go:173-199 | the loop over the later blocks: refusal if and only if one disagrees with the first, otherwise the lists of the form asked for |
| TipSetBuild.NewTipSet | chain/chain.go:142-200 | the whole construction, with its refusals and the panic on a nil ticket among several blocks |
| TipSetBuild.CidArrsEqual | chain/chain.go:206-223 | true if and only if lengths match and each CID of the second list is in the first |
| TipSetBuild.IsChildOf | chain/chain.go:202-204 | the first block's parents cover the other tipset, which is lower |
| ChainExchange.OptionsAreLowestBits | protocols/chainexchange/client.go:318-334 | the options of a request are the two lowest bits of its field, whatever the others are |
| ChainExchange.BuildTipSets | protocols/chainexchange/client.go:189-204 | the loop makes every set a tipset, in order, or fails as the first faulty set does |
| ChainExchange.ValidateCompressedIndices | protocols/chainexchange/client.go:263-297 | true if and only if the include lists match the blocks and all their indices pass, for both kinds of messages |
| ChainExchange.ValidateResponse | protocols/chainexchange/client.go:155-261 | the verdict on a response, its tipsets and its messages, for all statuses, options, lengths and known tipsets |
| ChainSegments.ToFullTipSets | protocols/chainexchange/client.go:347-375 | one full tipset for each tipset, none at all without both lists, a panic exactly when a lookup is out of bounds |
| ChainSegments.FullTipSetsOf | protocols/chainexchange/client.go:155-375 | validation followed by unpacking: with both options and small indices one full tipset for each block set, with as many blocks as came, and a panic if an index is not small |
| ChainSegments.GetFullTipSet | protocols/chainexchange/client.go:58-71 | a full tipset whose CIDs cover the head asked for and which has as many blocks as came, the verdict of validation when it refuses, a panic exactly when a lookup is out of bounds |
| Cbor.PrefixFree | protocols/chainexchange/cbor_gen.go:527-644 | for every codec that reads back: if one encoding begins with another, the values are equal and nothing follows |
| Cbor.HeadReadsBack | chain/cbor_gen.go:27-30 | a head of any major type and argument is read back, leaving what followed it |
| Cbor.HeadIsCanonical | chain/cbor_gen.go:156-160 | the only head the reader takes for an argument is the shortest one |
| Cbor.Int64Lawful | chain/cbor_gen.go:312-336 | signed numbers read back for every int64, the minimum included, have one encoding each, and the decoder accepts exactly major types 0 and 1 with arguments below 2^63 |
| CborChain.HeaderLawful | chain/cbor_gen.go:21-449 | block headers with all sixteen fields read back if their parts do, and have one encoding each if their parts have |
| CborChain.MessageLawful | chain/cbor_gen.go:629-861 | messages read back on the law of addresses and big integers alone, with one encoding each if these have |
| CborChain.SignedMessageLawful | chain/cbor_gen.go:865-923 | so do signed messages |
| CborExchange.SyncMessageLawful | protocols/chainexchange/cbor_gen.go:408-523 | requests read back on the law of CIDs alone |
| CborExchange.ChainMessageLawful | protocols/chainexchange/cbor_gen.go:527-644 | responses read back if their parts do |
| CborStream.Reader.ReadHead | chain/cbor_gen.go:156-160 | reading a head from a stream is the head parser on what is left of it |
| CborStream.Reader.ReadInt64 | chain/cbor_gen.go:313-336 | the switch on the major type with its two overflow checks is the signed parser |
| CborStream.Writer.WriteHead | chain/cbor_gen.go:27-30 | the writer picks the shortest form of every argument |
| CborLayout.ListLayout | protocols/chainexchange/cbor_gen.go:30-42 | a list is its length and then its elements in order |
| CborTuples.UnmarshalTicket | chain/cbor_gen.go:479-519 | the generated reader is the ticket parser: same value, same rest, same refusals |
| CborTuples.UnmarshalElectionProof | chain/cbor_gen.go:560-625 | likewise for election proofs |
| CborTuples.UnmarshalBeaconEntry | chain/cbor_gen.go:959-1013 | likewise for beacon entries |
| CborTuples.UnmarshalBlockHeader | chain/cbor_gen.go:152-449 | likewise for block headers, sixteen fields in their order, through the readers of tickets, election proofs and beacon entries |
| CborTuples.UnmarshalMessage | chain/cbor_gen.go:709-861 | likewise for messages |
| CborTuples.UnmarshalSignedMessage | chain/cbor_gen.go:886-923 | likewise for signed messages |
| CborTuples.ReadIncludes | protocols/chainexchange/cbor_gen.go:256-313 | the loop over blocks with the loop over indices inside is the parser of slices of slices |
| CborTuples.UnmarshalCompactedMessages | protocols/chainexchange/cbor_gen.go:209-404 | likewise for compacted messages, through the readers of messages and the loops over index lists |
| CborTuples.UnmarshalBSTipSet | protocols/chainexchange/cbor_gen.go:51-118 | likewise for block sets, through the readers of headers and compacted messages |
| CborTuples.UnmarshalSyncMessage | protocols/chainexchange/cbor_gen.go:448-523 | likewise for requests |
| CborTuples.UnmarshalChainMessage | protocols/chainexchange/cbor_gen.go:572-644 | likewise for responses, through the reader of block sets |
| CborWriting.MarshalTicket | chain/cbor_gen.go:453-477 | the generated writer appends exactly the ticket's encoding, or fails if and only if it has none |
| CborLayout.TicketLayout | chain/cbor_gen.go:453-477 | byte 129 and the proof as a byte string |
| CborWriting.MarshalElectionProof | chain/cbor_gen.go:523-558 | likewise for election proofs |
| CborLayout.ElectionProofLayout | chain/cbor_gen.go:523-558 | byte 130, win count, proof |
| CborWriting.MarshalBeaconEntry | chain/cbor_gen.go:927-957 | likewise for beacon entries |
| CborLayout.BeaconEntryLayout | chain/cbor_gen.go:927-957 | byte 130, round, data |
| CborWriting.MarshalBlockHeader | chain/cbor_gen.go:21-150 | likewise for block headers |
| CborWriting.MarshalMessage | chain/cbor_gen.go:629-707 | likewise for messages |
| CborWriting.MarshalSignedMessage | chain/cbor_gen.go:865-884 | likewise for signed messages |
| CborLayout.SignedMessageLayout | chain/cbor_gen.go:865-884 | byte 130, message, signature |
| CborWriting.MarshalIncludes | protocols/chainexchange/cbor_gen.go:147-168 | the loops that write the index lists append their encoding, or fail if and only if a list is too long |
| CborWriting.MarshalCompactedMessages | protocols/chainexchange/cbor_gen.go:122-207 | likewise for compacted messages |
| CborLayout.CompactedLayout | protocols/chainexchange/cbor_gen.go:122-207 | byte 132, BLS messages, their include lists, secp256k1 messages, theirs |
| CborWriting.MarshalBSTipSet | protocols/chainexchange/cbor_gen.go:19-49 | likewise for block sets |
| CborLayout.BSTipSetLayout | protocols/chainexchange/cbor_gen.go:19-49 | byte 130, headers, messages or the null byte |
| CborWriting.MarshalSyncMessage | protocols/chainexchange/cbor_gen.go:408-446 | likewise for requests |
| CborLayout.SyncMessageLayout | protocols/chainexchange/cbor_gen.go:408-446 | byte 131, head, length, options |
| CborWriting.MarshalChainMessage | protocols/chainexchange/cbor_gen.go:527-570 | likewise for responses |
| ChainStore.Store.PutManyBlockHeaders | chain/store.go:71-81 | all headers are put under their CIDs, or none if one cannot be encoded |
| ChainStore.Store.GetBlockHeader | chain/store.go:83-93 | the header decoded from the block under a CID, none if it is absent or does not decode |
| ChainStore.Store.LoadTipSet | chain/store.go:119-130 | the tipset of the headers under the CIDs, refused if one is missing |
| Fetch.CidIndex.Index | sync/fetchblocks.go:45-48 | the two-sided inverse of the list of CIDs |
| Fetch.FetchFullBlock | sync/fetchblocks.go:50-81 | a full block if and only if both lists index and all that arrived decodes, with each message in its slot |
| Fetch.SlotHoldsItsMessage | sync/fetchblocks.go:97-107 | a slot holds the message of any delivery of its CID |
| CborChain.HeaderDomain | chain/cbor_gen.go:152-449 | the headers that survive the trip are exactly those whose addresses, CIDs, numbers, proofs and signatures are ones that their own readers take |

## Left out

- Exhaustion: executions are bounded by fuel because nothing in the machine bounds them (`runtime/context.go:604-606`).
  Running out unwinds like a panic nobody traps; `VmFuel` shows that whatever ends does not depend on the bound.
- VmHazards.OkMeansCommitted: assumes that no method aborts with Ok; `VmHazards.OkMeansCommittedIff` is without it.
- VmAddresses.AddressesOnlyGrow: not for addresses that the Init actor's own methods map anew; `VmExec.ExecTwiceRemaps`
  is the run and `VmExec.MapNewKeepsIff` the exact condition. `VmExec` models such a method as far as its mapping and its
  new actor; its message to the new actor's constructor, and who may call it, are not part of this model.
- VmAccounts.ImplicitAccountAllOrNothing: does not speak of the address mapping, which a transaction of the Init actor
  may lose; `VmAddresses.AccountAndMappingOrNeither` does, where those transactions keep the mappings of
  key addresses.
- CborExchange.ResponseIsCanonical: assumes that the parts from other packages have one encoding each, as do
  `CborRoundTrip.ResponseBackAndThere` and `ChainStore.FoundIsAuthenticIfCanonical`; `CborPadding.CanonicalIff` shows that
  for big integers this cannot be done without.
- Hashes and roots are functions, with no collisions where a lemma says so. The actor map is a map and its root a
  function of it; HAMT and IPLD internals, and their errors, are not part of this model. Flushed maps are kept in a
  snapshot table apart from the state objects.
- The Init actor's `ResolveAddress` and `MapAddressToNewID`, the account actor's constructor, the numbers of exit codes
  and the CBOR library with its two limits belong to packages that are not part of this model. The first two are
  modelled as a map from addresses to IDs with a next ID, the constructor as a program, the limits as parameters.
- Reflection and the decoding of arguments: a registered method yields a program, or an error when its arguments do not
  decode. The signed guard on the method number and the panics it lets through are kept (`runtime/context.go:210-218`).
- Actor code is deterministic and does not recover from panics itself. `Caller`, `ValueReceived`, `CurrentBalance` and
  the other accessors are given to a program as values; validation of callers is a choice the program makes.
- Return values that are no CBOR marshalers, and nil big integers other than as zero.
- `Send` on an unreadable return value: whether the value is readable is a parameter of the send.
- Error messages, and which of several error returns was taken where the caller cannot tell them apart.
- `sort.Slice` is an in-place insertion sort here; `TipSets.OrderIsUnique` shows that the choice does not matter when
  digests do not collide.
- Aliasing of block headers and messages between lists: they are values here. The reader's position after a failed
  read is left open, since every caller gives up.
- Opaque codecs: addresses, CIDs, big integers, signatures and proofs of spacetime are parameters that keep the
  law of reading back and read front to back. Empty and nil slices are one value.
- The blockstore: `PutMany` and `View` as a map, without I/O errors; the hash function never fails.
- The channel of deliveries is a finite sequence; its messages are decoded by a parameter. Cancelling a fetch.
- `GetMessage` and `GetSignedMessage` (they decode into a nil pointer), `Import`, genesis and heaviest tipset metadata.
- `NewActorAddress`: a function of the originator in `VmExec`, since its counter never moves. System call stubs, gas, logging, tracing, price lists, network versions,
  drand schedules and bootstrap lists.
- libp2p hosts, streams, pubsub and deadlines, peer selection, and the hello, blocks and runtime codecs.
