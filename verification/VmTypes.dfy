/** The data the virtual machine works on: addresses, actor records, state objects, actor programs. */
module VmTypes {
  import opened Common

  datatype Address =
    | ID(id: nat)
    | Secp256k1(payload: Bytes)
    | BLS(payload: Bytes)
    | ActorHash(payload: Bytes)
    | Undef
  {
    /** Addresses that carry a public key: the only ones an account can be created for. */
    predicate HasKey() { Secp256k1? || BLS? }
  }

  const SYSTEM_ACTOR := ID(0)
  const INIT_ACTOR := ID(1)
  const METHOD_SEND: uint64 := 0
  const METHOD_CONSTRUCTOR: uint64 := 1

  datatype ExitCode =
    | ExitOk
    | SysErrSenderInvalid
    | SysErrInvalidMethod
    | SysErrInvalidReceiver
    | SysErrInsufficientFunds
    | SysErrForbidden
    | SysErrorIllegalActor
    | SysErrorIllegalArgument
    | ErrIllegalArgument
    | ErrForbidden
    | ErrIllegalState
    | ErrSerialization
    | UserCode(n: int)

  /** State objects, parameters and return values. Only the Init actor's state has a known layout. */
  datatype Obj =
    | Empty
    | InitState(addressMap: map<Address, nat>, nextId: nat)
    | AddressObj(addr: Address)
    | Data(bytes: Bytes)

  datatype Actor = Actor(code: Cid, head: Cid, callSeqNum: uint64, balance: int)

  /** On-chain actors, keyed by the number of their ID address. */
  type ActorMap = map<nat, Actor>
  type StateMap = map<Cid, Obj>

  /** The actors, which a rollback restores, and the state objects, which it leaves alone. */
  datatype World = World(actors: ActorMap, states: StateMap)

  /**
   * What an actor method does, one runtime call at a time. Each call that answers is followed by
   * a program that depends on the answer, so every deterministic method that ends is some program.
   */
  datatype Program =
    | Return(ret: Obj)
    | AbortWith(code: ExitCode)
    | PanicNow
    | Send(to: Address, methodNum: uint64, value: int, params: Obj,
           accepts: Obj -> bool, afterSend: (ExitCode, Obj) -> Program)
    | CreateActor(actorCode: Cid, addr: Address, afterCreate: Program)
    | DeleteActor(beneficiary: Address)
    | StateCreate(obj: Obj, afterStateCreate: Program)
    | StateReadonly(afterRead: Obj -> Program)
    | StateTransaction(body: Obj -> Program, afterTransaction: Obj -> Program)
    | ResolveAddress(addr: Address, afterResolve: Option<Address> -> Program)
    | GetActorCode(addr: Address, afterCode: Option<Cid> -> Program)
    | StorePut(obj: Obj, afterPut: Cid -> Program)
    | StoreGet(cid: Cid, afterGet: Option<Obj> -> Program)
  {
    /** Calls that run no other code: they read or write the world and answer at once. */
    predicate Local() {
      CreateActor? || StateCreate? || StateReadonly? || ResolveAddress? || GetActorCode? || StorePut? || StoreGet?
    }
  }

  /** InternalMessage. */
  datatype Call = Call(from: Address, to: Address, value: int, methodNum: uint64, params: Obj)

  /** Everything the read-only accessors of the runtime show to the method being run. */
  datatype CallInfo = CallInfo(origin: Address, call: Call, fromActor: Option<Actor>, toActor: Actor)

  /** An exported method: None when the parameters do not decode. */
  type Method = (CallInfo, Obj) -> Option<Program>
  datatype Implementation = Implementation(singleton: bool, exports: seq<Option<Method>>)

  /** What a machine is built over: actor registry, hash functions and fixed identifiers. */
  datatype Env = Env(
    registry: map<Cid, Implementation>,
    cidOf: Obj -> Cid,
    rootOf: ActorMap -> Cid,
    emptyObject: Cid,
    accountCode: Cid)

  /** A root determines an actor map. */
  ghost predicate RootsDetermine(env: Env) {
    forall m, m' :: env.rootOf(m) == env.rootOf(m') ==> m == m'
  }

  /** Distinct state objects have distinct CIDs. */
  ghost predicate CidsDistinct(env: Env) {
    forall o, o' :: env.cidOf(o) == env.cidOf(o') ==> o == o'
  }

  /**
   * Why a piece of work did not finish: a runtime abort, a panic nobody traps, or a call chain
   * longer than the fuel given (the original would run on, or overflow its stack).
   */
  datatype Failure = Abort(code: ExitCode) | Crash | Exhausted

  /** What a finished invocation hands to its caller. */
  datatype Reply = Returned(ret: Obj, code: ExitCode) | Crashed | OutOfFuel
}
