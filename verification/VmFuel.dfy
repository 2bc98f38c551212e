/** Fuel bounds the length of an execution and nothing else: what finishes is the same with more of it. */
module VmFuel {
  import opened Common
  import opened VmTypes
  import opened VmSemantics

  ghost predicate Finished<T>(s: Step<T>) {
    s.Done? || s.why != Exhausted
  }

  lemma {:induction false} InvokeMonotone(
      env: Env, origin: Address, fuel: nat, w: World, call: Call, fromActor: Option<Actor>)
    requires Invoke(env, origin, fuel, w, call, fromActor).1 != OutOfFuel
    ensures Invoke(env, origin, fuel + 1, w, call, fromActor) == Invoke(env, origin, fuel, w, call, fromActor)
    decreases fuel, 3
  {
    ExecuteMonotone(env, origin, fuel - 1, w, call, fromActor);
  }

  lemma {:induction false} ExecuteMonotone(
      env: Env, origin: Address, fuel: nat, w: World, call: Call, fromActor: Option<Actor>)
    requires Finished(Execute(env, origin, fuel, w, call, fromActor))
    ensures Execute(env, origin, fuel + 1, w, call, fromActor) == Execute(env, origin, fuel, w, call, fromActor)
    decreases fuel, 2
  {
    hide ResolveTarget, Fund, Run, Dispatch;
    if call.from.ID? {
      ResolveMonotone(env, origin, fuel, w, call.to);
      var resolved := ResolveTarget(env, origin, fuel, w, call.to);
      if resolved.Done? {
        var (w1, target) := (resolved.w, resolved.v);
        var funded := Fund(w1, call.from, target.1, call.value, fromActor, target.0);
        if funded.Done? && call.methodNum != METHOD_SEND {
          var info := CallInfo(origin, call.(to := target.1), funded.v.1, funded.v.0);
          var d := Dispatch(env, info);
          if d.Runs? {
            RunMonotone(env, info, fuel, funded.w, true, d.program);
          }
        }
      }
    }
  }

  lemma {:induction false} ResolveMonotone(env: Env, origin: Address, fuel: nat, w: World, target: Address)
    requires Finished(ResolveTarget(env, origin, fuel, w, target))
    ensures ResolveTarget(env, origin, fuel + 1, w, target) == ResolveTarget(env, origin, fuel, w, target)
    decreases fuel, 1
  {
    hide CreateAccount;
    var init := InitStateOf(w);
    if init.Some? && target != INIT_ACTOR && ResolveIn(init.value, target).Unmapped? && target.HasKey() {
      CreateAccountMonotone(env, origin, fuel, w, target, init.value);
    }
  }

  lemma {:induction false} CreateAccountMonotone(
      env: Env, origin: Address, fuel: nat, w: World, target: Address, init: Obj)
    requires INIT_ACTOR.id in w.actors && init.InitState?
    requires Finished(CreateAccount(env, origin, fuel, w, target, init))
    ensures CreateAccount(env, origin, fuel + 1, w, target, init) == CreateAccount(env, origin, fuel, w, target, init)
    decreases fuel, 0
  {
    hide Invoke, EnterAccount;
    var entered := EnterAccount(env, w, target, init);
    if entered.Done? {
      InvokeMonotone(env, origin, fuel - 1, entered.w, ConstructorCall(target, init.nextId), None);
    }
  }

  lemma {:induction false} RunMonotone(env: Env, info: CallInfo, fuel: nat, w: World, allowed: bool, p: Program)
    requires Finished(Run(env, info, fuel, w, allowed, p))
    ensures Run(env, info, fuel + 1, w, allowed, p) == Run(env, info, fuel, w, allowed, p)
    decreases fuel, 0
  {
    hide DoSend, Transact, Perform;
    match p {
      case Return(_) =>
      case AbortWith(_) =>
      case PanicNow =>
      case DeleteActor(_) =>
      case Send(to, methodNum, value, params, accepts, next) =>
        var call := Call(info.call.to, to, value, methodNum, params);
        SendMonotone(env, info, fuel - 1, w, allowed, call, accepts);
        var s := DoSend(env, info, fuel - 1, w, allowed, call, accepts);
        if s.Done? {
          RunMonotone(env, info, fuel - 1, s.w, allowed, next(s.v.0, s.v.1));
        }
      case StateTransaction(body, next) =>
        TransactMonotone(env, info, fuel - 1, w, body);
        var s := Transact(env, info, fuel - 1, w, body);
        if s.Done? {
          RunMonotone(env, info, fuel - 1, s.w, true, next(s.v));
        }
      case _ =>
        var s := Perform(env, w, info.call.to, p);
        if s.Done? {
          RunMonotone(env, info, fuel - 1, s.w, allowed, s.v);
        }
    }
  }

  lemma {:induction false} SendMonotone(
      env: Env, info: CallInfo, fuel: nat, w: World, allowed: bool, call: Call, accepts: Obj -> bool)
    requires Finished(DoSend(env, info, fuel, w, allowed, call, accepts))
    ensures DoSend(env, info, fuel + 1, w, allowed, call, accepts) == DoSend(env, info, fuel, w, allowed, call, accepts)
    decreases fuel, 4
  {
    if allowed {
      InvokeMonotone(env, info.origin, fuel, w, call, Some(info.toActor));
    }
  }

  lemma {:induction false} TransactMonotone(env: Env, info: CallInfo, fuel: nat, w: World, body: Obj -> Program)
    requires Finished(Transact(env, info, fuel, w, body))
    ensures Transact(env, info, fuel + 1, w, body) == Transact(env, info, fuel, w, body)
    decreases fuel, 1
  {
    hide Run, LoadState, Replace;
    var loaded := LoadState(w, info.call.to);
    if loaded.Done? {
      RunMonotone(env, info, fuel, w, false, body(loaded.v));
    }
  }

  /** What a message does once it finishes does not depend on the fuel it was given. */
  lemma {:induction false} FuelIrrelevant(
      env: Env, origin: Address, fuel: nat, more: nat, w: World, call: Call, fromActor: Option<Actor>)
    requires fuel <= more && Invoke(env, origin, fuel, w, call, fromActor).1 != OutOfFuel
    ensures Invoke(env, origin, more, w, call, fromActor) == Invoke(env, origin, fuel, w, call, fromActor)
    decreases more - fuel
  {
    if fuel < more {
      InvokeMonotone(env, origin, fuel, w, call, fromActor);
      FuelIrrelevant(env, origin, fuel + 1, more, w, call, fromActor);
    }
  }
}
