/**
 * The invocation context: one object per message invocation, all of them writing to one shared
 * store through records they read earlier. Every method is proved to compute what VmSemantics says.
 */
module VmContext {
  import opened Common
  import opened VmTypes
  import opened VmStore
  import S = VmSemantics

  class InvocationContext {
    const store: ActorStore
    const origin: Address
    var msg: Call
    var fromActor: Option<Actor>
    var toActor: Option<Actor>
    var allowSideEffects: bool

    constructor (store: ActorStore, origin: Address, msg: Call, fromActor: Option<Actor>)
      ensures this.store == store && this.origin == origin && this.msg == msg && this.fromActor == fromActor
      ensures allowSideEffects && toActor == None
    {
      this.store := store;
      this.origin := origin;
      this.msg := msg;
      this.fromActor := fromActor;
      this.toActor := None;
      this.allowSideEffects := true;
    }

    /** What the method being run was called with. */
    ghost function Info(): (info: CallInfo)
      requires toActor.Some?
      reads this
    {
      CallInfo(origin, msg, fromActor, toActor.value)
    }

    /** Traps aborts and panics: the store goes back to the root taken on entry. */
    method Invoke(fuel: nat) returns (reply: Reply)
      requires store.Valid() && allowSideEffects
      modifies this, store
      ensures store.Valid() && old(store.snapshots.Keys) <= store.snapshots.Keys
      ensures (store.Current(), reply)
           == S.Invoke(store.env, origin, fuel, old(store.Current()), old(msg), old(fromActor))
      decreases fuel, 3
    {
      if fuel == 0 {
        return OutOfFuel;
      }
      var priorRoot := store.Checkpoint();
      var r := Execute(fuel - 1);
      if r.Value? {
        return Returned(r.v, ExitOk);
      }
      var restored := store.Rollback(priorRoot);
      assert restored && store.actors == old(store.actors);
      match r.why {
        case Abort(code) => reply := Returned(Empty, code);
        case Crash => reply := Crashed;
        case Exhausted => reply := OutOfFuel;
      }
    }

    method Execute(fuel: nat) returns (r: Outcome<Obj>)
      requires store.Valid() && allowSideEffects
      modifies this, store
      ensures store.Valid() && old(store.snapshots.Keys) <= store.snapshots.Keys
      ensures store.Agrees(r, S.Execute(store.env, origin, fuel, old(store.Current()), old(msg), old(fromActor)))
      decreases fuel, 2
    {
      if !msg.from.ID? {
        return Failed(Crash);
      }
      var target :- ResolveTarget(fuel, msg.to);
      toActor, msg := Some(target.0), msg.(to := target.1);
      if msg.value != 0 {
        if msg.value < 0 {
          return Failed(Abort(SysErrForbidden));
        }
        if fromActor.None? {
          return Failed(Crash);
        }
        if fromActor.value.balance < msg.value {
          return Failed(Abort(SysErrInsufficientFunds));
        }
        var ends :- Transfer(msg.from, msg.to, msg.value);
        toActor, fromActor := Some(ends.0), Some(ends.1);
      }
      if msg.methodNum == METHOD_SEND {
        return Value(Empty);
      }
      match S.Dispatch(store.env, CallInfo(origin, msg, fromActor, toActor.value)) {
        case Fails(why) => r := Failed(why);
        case Runs(program) => r := Run(fuel, program);
      }
    }

    method ResolveTarget(fuel: nat, target: Address) returns (r: Outcome<(Actor, Address)>)
      requires store.Valid()
      modifies store
      ensures store.Valid() && old(store.snapshots.Keys) <= store.snapshots.Keys
      ensures store.Agrees(r, S.ResolveTarget(store.env, origin, fuel, old(store.Current()), target))
      decreases fuel, 1
    {
      var entry := store.GetActor(INIT_ACTOR);
      if !entry.Found? {
        return Failed(Abort(SysErrSenderInvalid));
      }
      if target == INIT_ACTOR {
        return Value((entry.actor, target));
      }
      if entry.actor.head !in store.states {
        return Failed(Crash);
      }
      var init := store.states[entry.actor.head];
      match S.ResolveIn(init, target) {
        case Unreadable => r := Failed(Crash);
        case Mapped(idAddr) =>
          var found := store.GetActor(idAddr);
          match found {
            case BadAddress => r := Failed(Crash);
            case NotFound => r := Failed(Abort(SysErrInvalidReceiver));
            case Found(actor) => r := Value((actor, idAddr));
          }
        case Unmapped =>
          if !target.HasKey() {
            return Failed(Abort(SysErrInvalidReceiver));
          }
          r := CreateAccount(fuel, target, entry.actor, init);
      }
    }

    /** The creating half of resolving a target; writes back the Init record its caller loaded. */
    method CreateAccount(fuel: nat, target: Address, entry: Actor, init: Obj)
      returns (r: Outcome<(Actor, Address)>)
      requires store.Valid()
      requires INIT_ACTOR.id in store.actors && store.actors[INIT_ACTOR.id] == entry && init.InitState?
      modifies store
      ensures store.Valid() && old(store.snapshots.Keys) <= store.snapshots.Keys
      ensures store.Agrees(r, S.CreateAccount(store.env, origin, fuel, old(store.Current()), target, init))
      decreases fuel, 0
    {
      var idAddr := ID(init.nextId);
      var initHead := store.PutState(S.AddMapping(init, target));
      var _ := store.SetActor(INIT_ACTOR, entry.(head := initHead));
      var _ :- CreateActor(store.env.accountCode, idAddr);
      if fuel == 0 {
        return Failed(Exhausted);
      }
      var inner := new InvocationContext(store, origin, S.ConstructorCall(target, init.nextId), None);
      var reply := inner.Invoke(fuel - 1);
      match reply {
        case Crashed => return Failed(Crash);
        case OutOfFuel => return Failed(Exhausted);
        case Returned(_, code) =>
          if code != ExitOk {
            return Failed(Abort(code));
          }
      }
      var found := store.GetActor(idAddr);
      r := if found.Found? then Value((found.actor, idAddr)) else Failed(Crash);
    }

    /** Debits one stored record, writes it, then reloads the other: the two may be the same record. */
    method Transfer(debitFrom: Address, creditTo: Address, amount: int) returns (r: Outcome<(Actor, Actor)>)
      requires store.Valid()
      modifies store`actors
      ensures store.Valid()
      ensures store.Agrees(r, S.Transfer(old(store.Current()), debitFrom, creditTo, amount))
    {
      if amount < 0 {
        return Failed(Crash);
      }
      var debit := store.GetActor(debitFrom);
      if !debit.Found? || debit.actor.balance < amount {
        return Failed(Crash);
      }
      var from := debit.actor.(balance := debit.actor.balance - amount);
      var _ := store.SetActor(debitFrom, from);
      var credit := store.GetActor(creditTo);
      if !credit.Found? {
        return Failed(Crash);
      }
      var to := credit.actor.(balance := credit.actor.balance + amount);
      var _ := store.SetActor(creditTo, to);
      assert store.actors == S.Move(old(store.actors), debitFrom.id, creditTo.id, amount);
      return Value((to, from));
    }

    // ----- runtime calls made by actor code -----

    method Run(fuel: nat, p: Program) returns (r: Outcome<Obj>)
      requires store.Valid() && toActor.Some?
      modifies `allowSideEffects, store
      ensures store.Valid() && old(store.snapshots.Keys) <= store.snapshots.Keys
      ensures RunAgrees(r, S.Run(store.env, Info(), fuel, old(store.Current()), old(allowSideEffects), p))
      decreases fuel, 0
    {
      hide S.DoSend, S.Transact, S.Perform, S.DeleteFailure, RootsDetermine;
      if fuel == 0 {
        return Failed(Exhausted);
      }
      if p.Local() {
        var next :- Perform(p);
        r := Run(fuel - 1, next);
        return;
      }
      match p {
        case Return(ret) => return Value(ret);
        case AbortWith(code) => return Failed(Abort(code));
        case PanicNow => return Failed(Crash);
        case DeleteActor(beneficiary) =>
          var why := DeleteActor(beneficiary);
          return Failed(why);
        case Send(to, methodNum, value, params, accepts, next) =>
          var answer :- Send(fuel - 1, to, methodNum, value, params, accepts);
          r := Run(fuel - 1, next(answer.0, answer.1));
        case StateTransaction(body, next) =>
          var obj :- StateTransaction(fuel - 1, body);
          r := Run(fuel - 1, next(obj));
      }
    }

    /** The calls that run no other code. */
    method Perform(p: Program) returns (r: Outcome<Program>)
      requires store.Valid() && p.Local()
      modifies store`actors, store`states
      ensures store.Valid()
      ensures store.Agrees(r, S.Perform(store.env, old(store.Current()), msg.to, p))
    {
      hide S.NewActor, S.InitialiseState, S.LoadState, S.Normalize, RootsDetermine;
      match p {
        case CreateActor(code, addr, next) =>
          var _ :- CreateActor(code, addr);
          r := Value(next);
        case StateCreate(obj, next) =>
          var _ :- StateCreate(obj);
          r := Value(next);
        case StateReadonly(next) =>
          var obj :- LoadState();
          r := Value(next(obj));
        case ResolveAddress(addr, next) =>
          var resolved := store.NormalizeAddress(addr);
          match resolved {
            case Unreadable => r := Failed(Crash);
            case Unmapped => r := Value(next(None));
            case Mapped(idAddr) => r := Value(next(Some(idAddr)));
          }
        case GetActorCode(addr, next) =>
          var found := store.GetActor(addr);
          r := Value(next(if found.Found? then Some(found.actor.code) else None));
        case StorePut(obj, next) =>
          var c := store.PutState(obj);
          r := Value(next(c));
        case StoreGet(cid, next) =>
          r := Value(next(if cid in store.states then Some(store.states[cid]) else None));
      }
    }

    /** Agrees, for a run: the side-effect lock left behind is part of the result. */
    ghost predicate RunAgrees(r: Outcome<Obj>, s: S.Step<(Obj, bool)>)
      reads this, store
    {
      match s
      case Done(w, out) => r == Value(out.0) && allowSideEffects == out.1 && store.Current() == w
      case Fail(states, why) => r == Failed(why) && store.states == states
    }

    method Send(fuel: nat, to: Address, methodNum: uint64, value: int, params: Obj, accepts: Obj -> bool)
      returns (r: Outcome<(ExitCode, Obj)>)
      requires store.Valid() && toActor.Some?
      modifies store
      ensures store.Valid() && old(store.snapshots.Keys) <= store.snapshots.Keys
      ensures store.Agrees(r, S.DoSend(store.env, Info(), fuel, old(store.Current()), allowSideEffects,
                                       Call(msg.to, to, value, methodNum, params), accepts))
      decreases fuel, 4
    {
      if !allowSideEffects {
        return Failed(Abort(SysErrorIllegalActor));
      }
      var inner := new InvocationContext(store, origin, Call(msg.to, to, value, methodNum, params), toActor);
      var reply := inner.Invoke(fuel);
      match reply {
        case Crashed => r := Failed(Crash);
        case OutOfFuel => r := Failed(Exhausted);
        case Returned(ret, code) =>
          r := if accepts(ret) then Value((code, ret)) else Failed(Abort(ErrSerialization));
      }
    }

    method CreateActor(code: Cid, addr: Address) returns (r: Outcome<()>)
      requires store.Valid()
      modifies store`actors
      ensures store.Valid()
      ensures store.Agrees(r, S.NewActor(store.env, old(store.Current()), code, addr))
    {
      if code !in store.env.registry || store.env.registry[code].singleton {
        return Failed(Abort(SysErrorIllegalArgument));
      }
      var found := store.GetActor(addr);
      match found {
        case BadAddress => r := Failed(Crash);
        case Found(_) => r := Failed(Abort(SysErrorIllegalArgument));
        case NotFound =>
          var _ := store.SetActor(addr, Actor(code, store.env.emptyObject, 0, 0));
          r := Value(());
      }
    }

    /** Moves the remaining funds, then meets a deletion that is not implemented. */
    method DeleteActor(beneficiary: Address) returns (why: Failure)
      requires store.Valid()
      modifies store`actors
      ensures store.Valid()
      ensures why == S.DeleteFailure(old(store.Current()), msg.to)
    {
      var found := store.GetActor(msg.to);
      match found {
        case BadAddress => why := Crash;
        case NotFound => why := Abort(SysErrorIllegalActor);
        case Found(receiver) =>
          if receiver.balance > 0 {
            var _ := Transfer(msg.to, beneficiary, receiver.balance);
          }
          why := Crash;
      }
    }

    method StateCreate(obj: Obj) returns (r: Outcome<()>)
      requires store.Valid()
      modifies store`actors, store`states
      ensures store.Valid()
      ensures store.Agrees(r, S.InitialiseState(store.env, old(store.Current()), msg.to, obj))
    {
      var found := store.GetActor(msg.to);
      if !found.Found? {
        return Failed(Crash);
      }
      if found.actor.head.Defined() && found.actor.head != store.env.emptyObject {
        return Failed(Abort(SysErrorIllegalActor));
      }
      var c := store.PutState(obj);
      var _ := store.SetActor(msg.to, found.actor.(head := c));
      return Value(());
    }

    method LoadState() returns (r: Outcome<Obj>)
      requires store.Valid()
      ensures store.Agrees(r, S.LoadState(store.Current(), msg.to))
    {
      var found := store.GetActor(msg.to);
      if !found.Found? {
        return Failed(Crash);
      }
      if !found.actor.head.Defined() {
        return Failed(Abort(SysErrorIllegalActor));
      }
      r := if found.actor.head in store.states then Value(store.states[found.actor.head]) else Failed(Crash);
    }

    method Replace(obj: Obj) returns (r: Outcome<()>)
      requires store.Valid()
      modifies store`actors, store`states
      ensures store.Valid()
      ensures store.Agrees(r, S.Replace(store.env, old(store.Current()), msg.to, obj))
    {
      var found := store.GetActor(msg.to);
      match found {
        case BadAddress => return Failed(Crash);
        case NotFound => return Failed(Abort(ErrIllegalState));
        case Found(actor) =>
          var c := store.PutState(obj);
          var _ := store.SetActor(msg.to, actor.(head := c));
          return Value(());
      }
    }

    /** The lock is taken and dropped unconditionally: it does not nest. */
    method StateTransaction(fuel: nat, body: Obj -> Program) returns (r: Outcome<Obj>)
      requires store.Valid() && toActor.Some?
      modifies `allowSideEffects, store
      ensures store.Valid() && old(store.snapshots.Keys) <= store.snapshots.Keys
      ensures store.Agrees(r, S.Transact(store.env, Info(), fuel, old(store.Current()), body))
      ensures r.Value? ==> allowSideEffects
      decreases fuel, 1
    {
      var obj :- LoadState();
      allowSideEffects := false;
      var result :- Run(fuel, body(obj));
      allowSideEffects := true;
      var _ :- Replace(result);
      r := Value(result);
    }
  }
}
