/**
 * What a message is answered with, said from the outside: which method runs, what it is told, and how
 * its result, its abort or its panic comes back to whoever sent the message.
 */
module VmReplies {
  import opened Common
  import opened VmTypes
  import opened VmSemantics
  import opened VmInvariants
  import opened VmAccounts
  import opened VmTransactions

  // ----- the method that runs, and its answer -----

  /** The program a method number of some code yields, None where there is no method or no fitting argument. */
  function ProgramOf(env: Env, code: Cid, n: uint64, info: CallInfo, params: Obj): Option<Program> {
    if code in env.registry && n < |env.registry[code].exports| && env.registry[code].exports[n].Some?
    then env.registry[code].exports[n].value(info, params)
    else None
  }

  /** The Init actor is there and its state is readable, as resolving any other target needs. */
  ghost predicate Resolves(w: World) {
    INIT_ACTOR.id in w.actors && InitStateOf(w).Some? && InitStateOf(w).value.InitState?
  }

  /** The records a method is told of, after value has moved between two different actors or not at all. */
  function Told(origin: Address, w: World, from: nat, to: nat, value: int, n: uint64, params: Obj,
                cached: Actor): CallInfo
    requires from in w.actors && to in w.actors
  {
    var call := Call(ID(from), ID(to), value, n, params);
    if value == 0 then CallInfo(origin, call, Some(cached), w.actors[to])
    else
      var m := Move(w.actors, from, to, value);
      CallInfo(origin, call, Some(w.actors[from].(balance := w.actors[from].balance - value)), m[to])
  }

  /** How a run of a method ends for its caller. */
  function Answer(entry: World, run: Step<(Obj, bool)>): (World, Reply) {
    match run
    case Done(w, out) => (w, Returned(out.0, ExitOk))
    case Fail(states, Abort(code)) => (World(entry.actors, states), Returned(Empty, code))
    case Fail(states, Crash) => (World(entry.actors, states), Crashed)
    case Fail(states, Exhausted) => (World(entry.actors, states), OutOfFuel)
  }

  /**
   * An invocation of a method between two actors that are there is answered with what the method returns
   * in the world its run ends in, or with how it failed in the world of the entry.
   */
  lemma MethodAnswers(
      env: Env, origin: Address, fuel: nat, w: World, from: nat, to: nat, value: int, n: uint64, params: Obj,
      cached: Actor, p: Program)
    requires fuel > 0 && Resolves(w) && from in w.actors && to in w.actors && n != 0
    requires value == 0 || (0 < value <= cached.balance && value <= w.actors[from].balance)
    requires ProgramOf(env, w.actors[to].code, n, Told(origin, w, from, to, value, n, params, cached), params)
          == Some(p)
    ensures Invoke(env, origin, fuel, w, Call(ID(from), ID(to), value, n, params), Some(cached))
         == Answer(w, Run(env, Told(origin, w, from, to, value, n, params, cached), fuel - 1,
                          World(Move(w.actors, from, to, value), w.states), true, p))
  {
    hide Run, ResolveTarget, Execute;
    KnownTarget(env, origin, fuel - 1, w, to);
    if value == 0 {
      assert Move(w.actors, from, to, 0) == w.actors;
    }
    var call := Call(ID(from), ID(to), value, n, params);
    var info := Told(origin, w, from, to, value, n, params, cached);
    var funded := Fund(w, ID(from), ID(to), value, Some(cached), w.actors[to]);
    assert funded == Done(World(Move(w.actors, from, to, value), w.states), (info.toActor, info.fromActor));
    FundingDecides(env, origin, fuel - 1, w, call, cached);
    assert Dispatch(env, info) == Runs(p);
    var s := Deliver(env, info, fuel - 1, funded.w);
    assert Execute(env, origin, fuel - 1, w, call, Some(cached)) == s;
    assert Conclude(w, s) == Answer(w, Run(env, info, fuel - 1, funded.w, true, p));
  }

  /** The same for a message from the outside, which is charged to its sender by one nonce. */
  lemma MessageAnswers(
      env: Env, fuel: nat, w: World, from: nat, to: nat, value: int, n: uint64, params: Obj, p: Program)
    requires fuel > 0 && Resolves(w) && from in w.actors && to in w.actors && n != 0
    requires 0 <= value && (value == 0 || value <= w.actors[from].balance)
    requires var w1 := World(BumpNonce(w.actors, from), w.states);
             ProgramOf(env, w.actors[to].code, n,
                       Told(ID(from), w1, from, to, value, n, params, w.actors[from]), params) == Some(p)
    ensures var w1 := World(BumpNonce(w.actors, from), w.states);
            var run := Run(env, Told(ID(from), w1, from, to, value, n, params, w.actors[from]), fuel - 1,
                           World(Move(w1.actors, from, to, value), w.states), true, p);
            ApplyMessage(env, fuel, w, Message(ID(from), ID(to), value, n, params))
            == (Answer(w1, run).0, Applied(Answer(w1, run).1))
  {
    hide Run, Invoke, Answer, Told, ProgramOf;
    var w1 := World(BumpNonce(w.actors, from), w.states);
    MethodAnswers(env, ID(from), fuel, w1, from, to, value, n, params, w.actors[from], p);
  }

  /**
   * And for a message sent by a method: it comes from the actor whose method sends it, on behalf of the
   * same originator, and the method goes on from its exit code and its result.
   */
  lemma SendAnswers(
      env: Env, info: CallInfo, fuel: nat, w: World, to: nat, value: int, n: uint64, params: Obj,
      accepts: Obj -> bool, next: (ExitCode, Obj) -> Program, p: Program)
    requires fuel > 1 && Resolves(w) && Present(w.actors, info.call.to) && to in w.actors && n != 0
    requires var from := info.call.to.id;
             value == 0 || (0 < value <= info.toActor.balance && value <= w.actors[from].balance)
    requires ProgramOf(env, w.actors[to].code, n,
                       Told(info.origin, w, info.call.to.id, to, value, n, params, info.toActor), params) == Some(p)
    ensures var from := info.call.to.id;
            var run := Run(env, Told(info.origin, w, from, to, value, n, params, info.toActor), fuel - 2,
                           World(Move(w.actors, from, to, value), w.states), true, p);
            Run(env, info, fuel, w, true, Send(ID(to), n, value, params, accepts, next))
            == match Answer(w, run)
               case (w', Returned(ret, code)) =>
                 if accepts(ret) then Run(env, info, fuel - 1, w', true, next(code, ret))
                 else Fail(w'.states, Abort(ErrSerialization))
               case (w', Crashed) => Fail(w'.states, Crash)
               case (w', OutOfFuel) => Fail(w'.states, Exhausted)
  {
    hide Invoke, Answer, Told, ProgramOf;
    MethodAnswers(env, info.origin, fuel - 1, w, info.call.to.id, to, value, n, params, info.toActor, p);
  }

  // ----- a message that only moves funds -----

  /** Who has what after it: the sender less, the receiver more, all others what they had. */
  lemma BareTransfer(env: Env, fuel: nat, w: World, from: nat, to: nat, value: int, params: Obj)
    requires fuel > 0 && Resolves(w) && from in w.actors && to in w.actors && 0 < value <= w.actors[from].balance
    ensures var (w', reply) := ApplyMessage(env, fuel, w, Message(ID(from), ID(to), value, 0, params));
            && reply == Applied(Returned(Empty, ExitOk)) && w'.states == w.states
            && w'.actors.Keys == w.actors.Keys
            && (forall k :: k in w.actors && k != from && k != to ==> w'.actors[k] == w.actors[k])
            && w'.actors[from].callSeqNum == (w.actors[from].callSeqNum + 1) % 0x1_0000_0000_0000_0000
            && (from == to ==> w'.actors[from].balance == w.actors[from].balance)
            && (from != to ==>
                  && w'.actors[from].balance == w.actors[from].balance - value
                  && w'.actors[to] == w.actors[to].(balance := w.actors[to].balance + value))
  {
    hide ResolveTarget, Execute, Run;
    var w1 := World(BumpNonce(w.actors, from), w.states);
    KnownTarget(env, ID(from), fuel - 1, w1, to);
    SendExecutes(env, ID(from), fuel - 1, w1, Call(ID(from), ID(to), value, METHOD_SEND, params), w.actors[from]);
  }

  // ----- a method that returns what it is given -----

  /** Whatever it is told, the method returns its parameters. */
  ghost predicate Echoes(env: Env, code: Cid, n: uint64) {
    forall info: CallInfo, params: Obj :: ProgramOf(env, code, n, info, params) == Some(Return(params))
  }

  /** A message to it is answered with its own parameters. */
  lemma EchoReply(env: Env, fuel: nat, w: World, from: nat, to: nat, n: uint64, params: Obj)
    requires 1 < fuel && Resolves(w) && from in w.actors && to in w.actors && n != 0
    requires Echoes(env, w.actors[to].code, n)
    ensures ApplyMessage(env, fuel, w, Message(ID(from), ID(to), 0, n, params))
         == (World(BumpNonce(w.actors, from), w.states), Applied(Returned(params, ExitOk)))
  {
    hide ProgramOf;
    var w1 := World(BumpNonce(w.actors, from), w.states);
    MessageAnswers(env, fuel, w, from, to, 0, n, params, Return(params));
    assert Move(w1.actors, from, to, 0) == w1.actors;
  }

  /** And so is a message sent by a method. */
  lemma EchoAnswer(
      env: Env, info: CallInfo, fuel: nat, w: World, to: nat, n: uint64, params: Obj,
      accepts: Obj -> bool, next: (ExitCode, Obj) -> Program)
    requires 2 < fuel && Resolves(w) && Present(w.actors, info.call.to) && to in w.actors && n != 0
    requires Echoes(env, w.actors[to].code, n) && accepts(params)
    ensures Run(env, info, fuel, w, true, Send(ID(to), n, 0, params, accepts, next))
         == Run(env, info, fuel - 1, w, true, next(ExitOk, params))
  {
    hide ProgramOf;
    SendAnswers(env, info, fuel, w, to, 0, n, params, accepts, next, Return(params));
    assert Move(w.actors, info.call.to.id, to, 0) == w.actors;
  }

  // ----- messages that find no method -----

  /**
   * A method number without a method: an abort between the last method and 2^63, a panic at the number
   * of methods itself and from 2^63 on, where the guard is compared as a signed number.
   */
  lemma NoSuchMethod(env: Env, fuel: nat, w: World, from: nat, to: nat, n: uint64, params: Obj)
    requires fuel > 0 && Resolves(w) && from in w.actors && to in w.actors && n != 0
    ensures var code := w.actors[to].code;
            var r := ApplyMessage(env, fuel, w, Message(ID(from), ID(to), 0, n, params));
            var bumped := World(BumpNonce(w.actors, from), w.states);
            && (code !in env.registry ==> r == (bumped, Applied(Returned(Empty, SysErrInvalidMethod))))
            && (code in env.registry && |env.registry[code].exports| < n < 0x8000_0000_0000_0000 ==>
                  r == (bumped, Applied(Returned(Empty, SysErrInvalidMethod))))
            && (code in env.registry && n < |env.registry[code].exports| && env.registry[code].exports[n].None? ==>
                  r == (bumped, Applied(Returned(Empty, SysErrInvalidMethod))))
            && (code in env.registry && n == |env.registry[code].exports| ==> r == (bumped, Applied(Crashed)))
            && (code in env.registry && n >= 0x8000_0000_0000_0000 && |env.registry[code].exports| <= n ==>
                  r == (bumped, Applied(Crashed)))
  {
    hide Run, ResolveTarget, Execute;
    var w1 := World(BumpNonce(w.actors, from), w.states);
    KnownTarget(env, ID(from), fuel - 1, w1, to);
    var call := Call(ID(from), ID(to), 0, n, params);
    FundingDecides(env, ID(from), fuel - 1, w1, call, w.actors[from]);
    var info := CallInfo(ID(from), call, Some(w.actors[from]), w1.actors[to]);
    assert Execute(env, ID(from), fuel - 1, w1, call, Some(w.actors[from])) == Deliver(env, info, fuel - 1, w1);
    assert w1.actors[to].code == w.actors[to].code;
  }

  /** A method whose argument does not decode is answered like one that is not there. */
  lemma ArgumentRefused(env: Env, fuel: nat, w: World, from: nat, to: nat, n: uint64, params: Obj)
    requires fuel > 0 && Resolves(w) && from in w.actors && to in w.actors && n != 0
    requires var code := w.actors[to].code;
             code in env.registry && n < |env.registry[code].exports|
    requires var w1 := World(BumpNonce(w.actors, from), w.states);
             ProgramOf(env, w.actors[to].code, n,
                       Told(ID(from), w1, from, to, 0, n, params, w.actors[from]), params).None?
    ensures ApplyMessage(env, fuel, w, Message(ID(from), ID(to), 0, n, params))
         == (World(BumpNonce(w.actors, from), w.states), Applied(Returned(Empty, SysErrInvalidMethod)))
  {
    hide Run, ResolveTarget, Execute;
    var w1 := World(BumpNonce(w.actors, from), w.states);
    KnownTarget(env, ID(from), fuel - 1, w1, to);
    var call := Call(ID(from), ID(to), 0, n, params);
    FundingDecides(env, ID(from), fuel - 1, w1, call, w.actors[from]);
    var info := CallInfo(ID(from), call, Some(w.actors[from]), w1.actors[to]);
    assert Execute(env, ID(from), fuel - 1, w1, call, Some(w.actors[from])) == Deliver(env, info, fuel - 1, w1);
    assert Dispatch(env, info) == Fails(Abort(SysErrInvalidMethod));
  }

  // ----- messages that find no target -----

  /** A target that is no actor and cannot become one. */
  lemma NoSuchTarget(env: Env, fuel: nat, w: World, from: nat, to: Address, value: int, n: uint64, params: Obj)
    requires fuel > 0 && Resolves(w) && from in w.actors
    ensures var init := InitStateOf(w).value;
            var r := ApplyMessage(env, fuel, w, Message(ID(from), to, value, n, params));
            var bumped := World(BumpNonce(w.actors, from), w.states);
            && (to.ID? && to.id !in w.actors ==> r == (bumped, Applied(Returned(Empty, SysErrInvalidReceiver))))
            && (!to.ID? && to in init.addressMap && init.addressMap[to] !in w.actors ==>
                  r == (bumped, Applied(Returned(Empty, SysErrInvalidReceiver))))
            && ((to.ActorHash? || to.Undef?) && to !in init.addressMap ==>
                  r == (bumped, Applied(Returned(Empty, SysErrInvalidReceiver))))
  {
    hide CreateAccount, Fund, Deliver, Execute;
    var w1 := World(BumpNonce(w.actors, from), w.states);
    FundingDecides(env, ID(from), fuel - 1, w1, Call(ID(from), to, value, n, params), w.actors[from]);
  }

  /** Without an Init actor no message gets anywhere. */
  lemma NoInitActor(env: Env, fuel: nat, w: World, from: nat, to: Address, value: int, n: uint64, params: Obj)
    requires fuel > 0 && INIT_ACTOR.id !in w.actors && from in w.actors
    ensures ApplyMessage(env, fuel, w, Message(ID(from), to, value, n, params))
         == (World(BumpNonce(w.actors, from), w.states), Applied(Returned(Empty, SysErrSenderInvalid)))
  {
    hide Fund, Deliver, Execute;
    var w1 := World(BumpNonce(w.actors, from), w.states);
    FundingDecides(env, ID(from), fuel - 1, w1, Call(ID(from), to, value, n, params), w.actors[from]);
  }

  /** The Init actor itself is found without its state; for any other target its state must be readable. */
  lemma InitStateUnreadable(env: Env, fuel: nat, w: World, from: nat, to: Address, params: Obj)
    requires fuel > 0 && INIT_ACTOR.id in w.actors && Unreadable(w) && from in w.actors
    ensures var r := ApplyMessage(env, fuel, w, Message(ID(from), to, 0, 0, params));
            var bumped := World(BumpNonce(w.actors, from), w.states);
            r == (bumped, Applied(if to == ID(1) then Returned(Empty, ExitOk) else Crashed))
  {
    hide CreateAccount, Execute;
    var w1 := World(BumpNonce(w.actors, from), w.states);
    FundingDecides(env, ID(from), fuel - 1, w1, Call(ID(from), to, 0, 0, params), w.actors[from]);
  }

  // ----- the constructor of an account -----

  /** The world in which it runs: the address mapped to the next ID, an empty account record at that ID. */
  function Entered(env: Env, w: World, target: Address): World
    requires Resolves(w)
  {
    var init := InitStateOf(w).value;
    var init' := InitState(init.addressMap[target := init.nextId], init.nextId + 1);
    World(w.actors[1 := w.actors[1].(head := env.cidOf(init'))]
                  [init.nextId := Actor(env.accountCode, env.emptyObject, 0, 0)],
          w.states[env.cidOf(init') := init'])
  }

  /**
   * Whatever the constructor is: it is method 1, it is called by actor 0 without funds and without a
   * caller's record, it is given the address, and its result, abort or panic decides.
   */
  lemma ConstructorDecides(env: Env, origin: Address, fuel: nat, w: World, target: Address, p: Program)
    requires Resolves(w) && (target.Secp256k1? || target.BLS?) && target !in InitStateOf(w).value.addressMap
    requires InitStateOf(w).value.nextId !in w.actors && 2 <= fuel
    requires env.accountCode in env.registry && !env.registry[env.accountCode].singleton
    requires var id := InitStateOf(w).value.nextId;
             var call := Call(ID(0), ID(id), 0, 1, AddressObj(target));
             var info := CallInfo(origin, call, None, Actor(env.accountCode, env.emptyObject, 0, 0));
             ProgramOf(env, env.accountCode, 1, info, AddressObj(target)) == Some(p)
    ensures var id := InitStateOf(w).value.nextId;
            var call := Call(ID(0), ID(id), 0, 1, AddressObj(target));
            var info := CallInfo(origin, call, None, Actor(env.accountCode, env.emptyObject, 0, 0));
            var s := ResolveTarget(env, origin, fuel, w, target);
            match Run(env, info, fuel - 2, Entered(env, w, target), true, p)
            case Done(w', _) => id in w'.actors && s == Done(w', (w'.actors[id], ID(id)))
            case Fail(states, why) =>
              if why != Abort(ExitOk) then s == Fail(states, why)
              else s == Done(World(Entered(env, w, target).actors, states), (info.toActor, ID(id)))
  {
    hide Run, Execute, Invoke, Total, NonNegative, HeadsStored, StatesKept, AddsFreshRecords;
    var init := InitStateOf(w).value;
    var call := ConstructorCall(target, init.nextId);
    var info := CallInfo(origin, call, None, Actor(env.accountCode, env.emptyObject, 0, 0));
    var entered := Entered(env, w, target);
    assert EnterAccount(env, w, target, init) == Done(entered, ());
    assert InitStateOf(entered) == Some(AddMapping(init, target));
    RunEvolves(env, info, fuel - 2, entered, true, p);
    ConstructorInvoked(env, origin, fuel - 1, entered, call, init.nextId, info, p);
    assert ResolveTarget(env, origin, fuel, w, target) == CreateAccount(env, origin, fuel, w, target, init);
  }

  lemma ConstructorInvoked(
      env: Env, origin: Address, fuel: nat, w: World, call: Call, id: nat, info: CallInfo, p: Program)
    requires fuel > 0 && Resolves(w) && id in w.actors
    requires call.from.ID? && call.to == ID(id) && call.value == 0 && call.methodNum == 1
    requires info == CallInfo(origin, call, None, w.actors[id])
    requires ProgramOf(env, w.actors[id].code, 1, info, call.params) == Some(p)
    ensures Invoke(env, origin, fuel, w, call, None) == Answer(w, Run(env, info, fuel - 1, w, true, p))
  {
    hide Run, ResolveTarget;
    KnownTarget(env, origin, fuel - 1, w, id);
    assert Dispatch(env, info) == Runs(p);
    var s := Deliver(env, info, fuel - 1, w);
    assert Execute(env, origin, fuel - 1, w, call, None) == s;
    assert Conclude(w, s) == Answer(w, Run(env, info, fuel - 1, w, true, p));
  }

  // ----- messages that find no sender -----

  /** The sender's ID, as the world has it. */
  function SenderId(w: World, from: Address): Option<nat> {
    if from.ID? then Some(from.id)
    else if INIT_ACTOR.id in w.actors && w.actors[INIT_ACTOR.id].head in w.states then
      match w.states[w.actors[INIT_ACTOR.id].head]
      case InitState(addressMap, _) => if from in addressMap then Some(addressMap[from]) else None
      case _ => None
    else None
  }

  /** The Init actor's state cannot be read, so that no address but an ID can be looked up. */
  predicate Unreadable(w: World) {
    INIT_ACTOR.id !in w.actors || w.actors[INIT_ACTOR.id].head !in w.states
    || !w.states[w.actors[INIT_ACTOR.id].head].InitState?
  }

  /**
   * Exactly when a message panics before it begins, when it is turned away with SysErrSenderInvalid, and
   * when it is accepted.
   */
  lemma SenderDecides(env: Env, fuel: nat, w: World, msg: Message)
    ensures var r := ApplyMessage(env, fuel, w, msg);
            && (r.1 == Panicked <==> !msg.from.ID? && Unreadable(w))
            && (r.1 == Rejected <==>
                  && (msg.from.ID? || !Unreadable(w))
                  && (SenderId(w, msg.from).None? || SenderId(w, msg.from).value !in w.actors))
            && (r.1.Applied? <==> SenderId(w, msg.from).Some? && SenderId(w, msg.from).value in w.actors)
            && (!r.1.Applied? ==> r.0 == w)
  {
    hide Invoke;
  }
}
