/**
 * Reference semantics of message execution on immutable worlds. There are no checkpoints, no
 * cached writes and no exceptions here: a failed invocation gives back the actors it started from.
 */
module VmSemantics {
  import opened Common
  import opened VmTypes

  /** A step either finishes in a world or fails; a failure keeps only what no rollback undoes. */
  datatype Step<+T> = Done(w: World, v: T) | Fail(states: StateMap, why: Failure) {
    predicate IsFailure() { Fail? }
    function PropagateFailure<U>(): Step<U>
      requires Fail?
    {
      Fail(states, why)
    }
    function Extract(): (World, T)
      requires Done?
    {
      (w, v)
    }
  }

  datatype Lookup = BadAddress | NotFound | Found(actor: Actor)

  function GetActor(m: ActorMap, a: Address): Lookup {
    if !a.ID? then BadAddress else if a.id in m then Found(m[a.id]) else NotFound
  }

  function Present(m: ActorMap, a: Address): bool {
    a.ID? && a.id in m
  }

  function SetHead(m: ActorMap, id: nat, c: Cid): ActorMap
    requires id in m
  {
    m[id := m[id].(head := c)]
  }

  /** Moves funds; a transfer to oneself changes nothing. */
  function Move(m: ActorMap, from: nat, to: nat, amount: int): ActorMap
    requires from in m && to in m
  {
    if from == to then m
    else m[from := m[from].(balance := m[from].balance - amount)]
          [to := m[to].(balance := m[to].balance + amount)]
  }

  function Put(env: Env, states: StateMap, obj: Obj): StateMap {
    states[env.cidOf(obj) := obj]
  }

  // ----- addresses -----

  datatype Resolution = Unreadable | Unmapped | Mapped(addr: Address)

  /** init_.State.ResolveAddress: ID addresses resolve to themselves, others through the address map. */
  function ResolveIn(init: Obj, a: Address): Resolution {
    if !init.InitState? then Unreadable
    else if a.ID? then Mapped(a)
    else if a in init.addressMap then Mapped(ID(init.addressMap[a]))
    else Unmapped
  }

  function InitStateOf(w: World): Option<Obj> {
    if INIT_ACTOR.id in w.actors && w.actors[INIT_ACTOR.id].head in w.states
    then Some(w.states[w.actors[INIT_ACTOR.id].head])
    else None
  }

  /** ActorStore.NormalizeAddress; Unreadable stands for its panic. */
  function Normalize(w: World, a: Address): Resolution {
    if a.ID? then Mapped(a)
    else
      match InitStateOf(w)
      case None => Unreadable
      case Some(init) => ResolveIn(init, a)
  }

  // ----- one invocation -----

  function Invoke(env: Env, origin: Address, fuel: nat, w: World, call: Call, fromActor: Option<Actor>)
    : (World, Reply)
    decreases fuel, 3
  {
    if fuel == 0 then (w, OutOfFuel)
    else Conclude(w, Execute(env, origin, fuel - 1, w, call, fromActor))
  }

  /** What a caller gets to see of an invocation that was entered in a world: a failure gives its actors back. */
  function Conclude(entry: World, s: Step<Obj>): (World, Reply) {
    match s
    case Done(w, ret) => (w, Returned(ret, ExitOk))
    case Fail(states, Abort(code)) => (World(entry.actors, states), Returned(Empty, code))
    case Fail(states, Crash) => (World(entry.actors, states), Crashed)
    case Fail(states, Exhausted) => (World(entry.actors, states), OutOfFuel)
  }

  /** All or nothing: without an Ok result the actors are those of the entry. */
  lemma FailureRestoresActors(env: Env, origin: Address, fuel: nat, w: World, call: Call, fromActor: Option<Actor>)
    ensures var (w', reply) := Invoke(env, origin, fuel, w, call, fromActor);
            (reply.Returned? && reply.code == ExitOk) || w'.actors == w.actors
  {}

  function Execute(env: Env, origin: Address, fuel: nat, w: World, call: Call, fromActor: Option<Actor>)
    : Step<Obj>
    decreases fuel, 2
  {
    if !call.from.ID? then Fail(w.states, Crash)
    else
      var (w1, target) :- ResolveTarget(env, origin, fuel, w, call.to);
      var (w2, ends) :- Fund(w1, call.from, target.1, call.value, fromActor, target.0);
      Deliver(env, CallInfo(origin, call.(to := target.1), ends.1, ends.0), fuel, w2)
  }

  /** Once the funds have moved: nothing more for a bare send, otherwise the method called. */
  function Deliver(env: Env, info: CallInfo, fuel: nat, w: World): Step<Obj>
    decreases fuel, 1
  {
    if info.call.methodNum == METHOD_SEND then Done(w, Empty)
    else
      match Dispatch(env, info)
      case Fails(why) => Fail(w.states, why)
      case Runs(program) =>
        var (w', out) :- Run(env, info, fuel, w, true, program);
        Done(w', out.0)
  }

  /** The target's record and ID address; creates an account for a key address nobody owns yet. */
  function ResolveTarget(env: Env, origin: Address, fuel: nat, w: World, target: Address)
    : Step<(Actor, Address)>
    decreases fuel, 1
  {
    if INIT_ACTOR.id !in w.actors then Fail(w.states, Abort(SysErrSenderInvalid))
    else if target == INIT_ACTOR then Done(w, (w.actors[INIT_ACTOR.id], target))
    else
      match InitStateOf(w)
      case None => Fail(w.states, Crash)
      case Some(init) =>
        match ResolveIn(init, target)
        case Unreadable => Fail(w.states, Crash)
        case Mapped(idAddr) =>
          (match GetActor(w.actors, idAddr)
           case BadAddress => Fail(w.states, Crash)
           case NotFound => Fail(w.states, Abort(SysErrInvalidReceiver))
           case Found(actor) => Done(w, (actor, idAddr)))
        case Unmapped =>
          if !target.HasKey() then Fail(w.states, Abort(SysErrInvalidReceiver))
          else CreateAccount(env, origin, fuel, w, target, init)
  }

  function AddMapping(init: Obj, target: Address): Obj
    requires init.InitState?
  {
    InitState(init.addressMap[target := init.nextId], init.nextId + 1)
  }

  function ConstructorCall(target: Address, id: nat): Call {
    Call(SYSTEM_ACTOR, ID(id), 0, METHOD_CONSTRUCTOR, AddressObj(target))
  }

  /** Maps the target to the next ID and puts an empty account record there. */
  function EnterAccount(env: Env, w: World, target: Address, init: Obj): Step<()>
    requires INIT_ACTOR.id in w.actors && init.InitState?
  {
    var init' := AddMapping(init, target);
    NewActor(env, World(SetHead(w.actors, INIT_ACTOR.id, env.cidOf(init')), Put(env, w.states, init')),
             env.accountCode, ID(init.nextId))
  }

  function CreateAccount(env: Env, origin: Address, fuel: nat, w: World, target: Address, init: Obj)
    : Step<(Actor, Address)>
    requires INIT_ACTOR.id in w.actors && init.InitState?
    decreases fuel, 0
  {
    var (w2, _) :- EnterAccount(env, w, target, init);
    if fuel == 0 then Fail(w2.states, Exhausted)
    else
      match Invoke(env, origin, fuel - 1, w2, ConstructorCall(target, init.nextId), None)
      case (w3, Crashed) => Fail(w3.states, Crash)
      case (w3, OutOfFuel) => Fail(w3.states, Exhausted)
      case (w3, Returned(_, code)) =>
        if code != ExitOk then Fail(w3.states, Abort(code))
        else if init.nextId !in w3.actors then Fail(w3.states, Crash)
        else Done(w3, (w3.actors[init.nextId], ID(init.nextId)))
  }

  /** CreateActor: a fresh record without state or funds. */
  function NewActor(env: Env, w: World, code: Cid, addr: Address): Step<()> {
    if code !in env.registry || env.registry[code].singleton then
      Fail(w.states, Abort(SysErrorIllegalArgument))
    else
      match GetActor(w.actors, addr)
      case BadAddress => Fail(w.states, Crash)
      case Found(_) => Fail(w.states, Abort(SysErrorIllegalArgument))
      case NotFound => Done(World(w.actors[addr.id := Actor(code, env.emptyObject, 0, 0)], w.states), ())
  }

  /** The funds of a message: (receiver, sender) records as the invocation goes on to see them. */
  function Fund(w: World, from: Address, to: Address, value: int, fromActor: Option<Actor>, toActor: Actor)
    : Step<(Actor, Option<Actor>)>
  {
    if value == 0 then Done(w, (toActor, fromActor))
    else if value < 0 then Fail(w.states, Abort(SysErrForbidden))
    else if fromActor.None? then Fail(w.states, Crash)
    else if fromActor.value.balance < value then Fail(w.states, Abort(SysErrInsufficientFunds))
    else
      var (w', ends) :- Transfer(w, from, to, value);
      Done(w', (ends.0, Some(ends.1)))
  }

  /** Moves funds between stored records, whatever the caller believes their balances to be. */
  function Transfer(w: World, from: Address, to: Address, amount: int): Step<(Actor, Actor)> {
    if amount < 0 || !Present(w.actors, from) || !Present(w.actors, to)
       || w.actors[from.id].balance < amount
    then Fail(w.states, Crash)
    else
      var m := Move(w.actors, from.id, to.id, amount);
      var debited := w.actors[from.id].(balance := w.actors[from.id].balance - amount);
      Done(World(m, w.states), (m[to.id], debited))
  }

  datatype Dispatched = Fails(why: Failure) | Runs(program: Program)

  /** Finds the method to run. The guard on the method number is signed and lets its own bound through. */
  function Dispatch(env: Env, info: CallInfo): Dispatched {
    if info.toActor.code !in env.registry then Fails(Abort(SysErrInvalidMethod))
    else
      var exports := env.registry[info.toActor.code].exports;
      var methodNum := info.call.methodNum;
      if |exports| < ToInt64(methodNum) then Fails(Abort(SysErrInvalidMethod))
      else if |exports| <= methodNum then Fails(Crash)
      else if exports[methodNum].None? then Fails(Abort(SysErrInvalidMethod))
      else
        match exports[methodNum].value(info, info.call.params)
        case None => Fails(Abort(SysErrInvalidMethod))
        case Some(program) => Runs(program)
  }

  // ----- actor code -----

  /** Runs a program to its result and the side-effect lock it leaves behind. */
  function Run(env: Env, info: CallInfo, fuel: nat, w: World, allowed: bool, p: Program): Step<(Obj, bool)>
    decreases fuel, 0
  {
    if fuel == 0 then Fail(w.states, Exhausted)
    else
      match p
      case Return(ret) => Done(w, (ret, allowed))
      case AbortWith(code) => Fail(w.states, Abort(code))
      case PanicNow => Fail(w.states, Crash)
      case DeleteActor(beneficiary) => Fail(w.states, DeleteFailure(w, info.call.to))
      case Send(to, methodNum, value, params, accepts, next) =>
        var (w', answer) :-
          DoSend(env, info, fuel - 1, w, allowed, Call(info.call.to, to, value, methodNum, params), accepts);
        Run(env, info, fuel - 1, w', allowed, next(answer.0, answer.1))
      case StateTransaction(body, next) =>
        var (w', obj) :- Transact(env, info, fuel - 1, w, body);
        Run(env, info, fuel - 1, w', true, next(obj))
      case _ =>
        var (w', next) :- Perform(env, w, info.call.to, p);
        Run(env, info, fuel - 1, w', allowed, next)
  }

  /** A call that runs no other code, and the program that goes on from its answer. */
  function Perform(env: Env, w: World, receiver: Address, p: Program): Step<Program>
    requires p.Local()
  {
    match p
    case CreateActor(code, addr, next) =>
      var (w', _) :- NewActor(env, w, code, addr);
      Done(w', next)
    case StateCreate(obj, next) =>
      var (w', _) :- InitialiseState(env, w, receiver, obj);
      Done(w', next)
    case StateReadonly(next) =>
      var (_, obj) :- LoadState(w, receiver);
      Done(w, next(obj))
    case ResolveAddress(addr, next) =>
      (match Normalize(w, addr)
       case Unreadable => Fail(w.states, Crash)
       case Unmapped => Done(w, next(None))
       case Mapped(idAddr) => Done(w, next(Some(idAddr))))
    case GetActorCode(addr, next) => Done(w, next(CodeOf(w.actors, addr)))
    case StorePut(obj, next) => Done(World(w.actors, Put(env, w.states, obj)), next(env.cidOf(obj)))
    case StoreGet(cid, next) => Done(w, next(if cid in w.states then Some(w.states[cid]) else None))
  }

  function CodeOf(m: ActorMap, a: Address): Option<Cid> {
    if Present(m, a) then Some(m[a.id].code) else None
  }

  /** Deletion is not implemented: what is left is which way it fails. */
  function DeleteFailure(w: World, receiver: Address): Failure {
    if GetActor(w.actors, receiver).NotFound? then Abort(SysErrorIllegalActor) else Crash
  }

  /** A nested message; its caller record is the one cached when the calling method began. */
  function DoSend(env: Env, info: CallInfo, fuel: nat, w: World, allowed: bool, call: Call, accepts: Obj -> bool)
    : Step<(ExitCode, Obj)>
    decreases fuel, 4
  {
    if !allowed then Fail(w.states, Abort(SysErrorIllegalActor))
    else
      match Invoke(env, info.origin, fuel, w, call, Some(info.toActor))
      case (w', Crashed) => Fail(w'.states, Crash)
      case (w', OutOfFuel) => Fail(w'.states, Exhausted)
      case (w', Returned(ret, code)) =>
        if accepts(ret) then Done(w', (code, ret)) else Fail(w'.states, Abort(ErrSerialization))
  }

  function InitialiseState(env: Env, w: World, receiver: Address, obj: Obj): Step<()> {
    if !Present(w.actors, receiver) then Fail(w.states, Crash)
    else
      var head := w.actors[receiver.id].head;
      if head.Defined() && head != env.emptyObject then Fail(w.states, Abort(SysErrorIllegalActor))
      else Done(World(SetHead(w.actors, receiver.id, env.cidOf(obj)), Put(env, w.states, obj)), ())
  }

  function LoadState(w: World, receiver: Address): Step<Obj> {
    if !Present(w.actors, receiver) then Fail(w.states, Crash)
    else
      var head := w.actors[receiver.id].head;
      if !head.Defined() then Fail(w.states, Abort(SysErrorIllegalActor))
      else if head !in w.states then Fail(w.states, Crash)
      else Done(w, w.states[head])
  }

  function Replace(env: Env, w: World, receiver: Address, obj: Obj): Step<()> {
    match GetActor(w.actors, receiver)
    case BadAddress => Fail(w.states, Crash)
    case NotFound => Fail(w.states, Abort(ErrIllegalState))
    case Found(_) => Done(World(SetHead(w.actors, receiver.id, env.cidOf(obj)), Put(env, w.states, obj)), ())
  }

  /** Load, run the body under the side-effect lock, then store what the body returned. */
  function Transact(env: Env, info: CallInfo, fuel: nat, w: World, body: Obj -> Program): Step<Obj>
    decreases fuel, 1
  {
    var (_, obj) :- LoadState(w, info.call.to);
    var (w1, out) :- Run(env, info, fuel, w, false, body(obj));
    var (w2, _) :- Replace(env, w1, info.call.to, out.0);
    Done(w2, out.0)
  }

  // ----- top level -----

  datatype Message = Message(from: Address, to: Address, value: int, methodNum: uint64, params: Obj)

  datatype TopReply = Rejected | Panicked | Applied(reply: Reply)

  function BumpNonce(m: ActorMap, id: nat): ActorMap
    requires id in m
  {
    m[id := m[id].(callSeqNum := (m[id].callSeqNum + 1) % TWO_64)]
  }

  function ApplyMessage(env: Env, fuel: nat, w: World, msg: Message): (World, TopReply) {
    match Normalize(w, msg.from)
    case Unreadable => (w, Panicked)
    case Unmapped => (w, Rejected)
    case Mapped(from) =>
      if !Present(w.actors, from) then (w, Rejected)
      else
        var w1 := World(BumpNonce(w.actors, from.id), w.states);
        var call := Call(from, msg.to, msg.value, msg.methodNum, msg.params);
        var (w2, reply) := Invoke(env, from, fuel, w1, call, Some(w.actors[from.id]));
        (w2, Applied(reply))
  }

  function ApplyAll(env: Env, fuel: nat, w: World, msgs: seq<Message>): World
    decreases |msgs|
  {
    if msgs == [] then w else ApplyAll(env, fuel, ApplyMessage(env, fuel, w, msgs[0]).0, msgs[1..])
  }
}
