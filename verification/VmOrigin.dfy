/**
 * On whose behalf: every method that runs anywhere inside a message is told the originator of the
 * message, however deep the call. So methods that differ only for other originators cannot be told apart.
 */
module VmOrigin {
  import opened Common
  import opened VmTypes
  import opened VmSemantics
  import opened VmAccounts

  /** Two machines that are the same but for what their methods do on behalf of others than o. */
  ghost predicate AgreeFor(o: Address, env: Env, env': Env) {
    && env'.cidOf == env.cidOf && env'.rootOf == env.rootOf
    && env'.emptyObject == env.emptyObject && env'.accountCode == env.accountCode
    && env'.registry.Keys == env.registry.Keys
    && forall code :: code in env.registry ==> SameFor(o, env.registry[code], env'.registry[code])
  }

  ghost predicate SameFor(o: Address, i: Implementation, i': Implementation) {
    && i'.singleton == i.singleton && |i'.exports| == |i.exports|
    && forall n :: 0 <= n < |i.exports| ==>
         && (i.exports[n].Some? <==> i'.exports[n].Some?)
         && (i.exports[n].Some? ==>
               forall info: CallInfo, params: Obj :: info.origin == o ==>
                 i.exports[n].value(info, params) == i'.exports[n].value(info, params))
  }

  lemma DispatchSame(o: Address, env: Env, env': Env, info: CallInfo)
    requires AgreeFor(o, env, env') && info.origin == o
    ensures Dispatch(env, info) == Dispatch(env', info)
  {
    var code := info.toActor.code;
    assert code in env.registry <==> code in env'.registry;
    if code in env.registry {
      assert SameFor(o, env.registry[code], env'.registry[code]);
    }
  }

  lemma NewActorSame(o: Address, env: Env, env': Env, w: World, code: Cid, addr: Address)
    requires AgreeFor(o, env, env')
    ensures NewActor(env, w, code, addr) == NewActor(env', w, code, addr)
  {
    assert code in env.registry <==> code in env'.registry;
    if code in env.registry {
      assert SameFor(o, env.registry[code], env'.registry[code]);
    }
  }

  lemma EnterSame(o: Address, env: Env, env': Env, w: World, target: Address, init: Obj)
    requires AgreeFor(o, env, env') && INIT_ACTOR.id in w.actors && init.InitState?
    ensures EnterAccount(env, w, target, init) == EnterAccount(env', w, target, init)
  {
    hide NewActor, SameFor;
    var init' := AddMapping(init, target);
    NewActorSame(o, env, env', World(SetHead(w.actors, INIT_ACTOR.id, env.cidOf(init')), Put(env, w.states, init')),
                 env.accountCode, ID(init.nextId));
  }

  lemma PerformSame(o: Address, env: Env, env': Env, w: World, receiver: Address, p: Program)
    requires AgreeFor(o, env, env') && p.Local()
    ensures Perform(env, w, receiver, p) == Perform(env', w, receiver, p)
  {
    hide NewActor, LoadState, Normalize, CodeOf, SameFor;
    if p.CreateActor? {
      NewActorSame(o, env, env', w, p.actorCode, p.addr);
    }
  }

  // ----- the induction over executions -----

  /** An invocation depends on what methods do on behalf of its own originator, and on nothing else of them. */
  lemma {:induction false} InvokeSame(
      o: Address, env: Env, env': Env, fuel: nat, w: World, call: Call, fromActor: Option<Actor>)
    requires AgreeFor(o, env, env')
    ensures Invoke(env, o, fuel, w, call, fromActor) == Invoke(env', o, fuel, w, call, fromActor)
    decreases fuel, 3
  {
    hide Execute, AgreeFor;
    if fuel > 0 {
      ExecuteSame(o, env, env', fuel - 1, w, call, fromActor);
    }
  }

  lemma {:induction false} ExecuteSame(
      o: Address, env: Env, env': Env, fuel: nat, w: World, call: Call, fromActor: Option<Actor>)
    requires AgreeFor(o, env, env')
    ensures Execute(env, o, fuel, w, call, fromActor) == Execute(env', o, fuel, w, call, fromActor)
    decreases fuel, 2
  {
    hide ResolveTarget, Fund, Deliver, AgreeFor;
    ResolveSame(o, env, env', fuel, w, call.to);
    var resolved := ResolveTarget(env, o, fuel, w, call.to);
    if call.from.ID? && resolved.Done? {
      var (w1, target) := (resolved.w, resolved.v);
      var funded := Fund(w1, call.from, target.1, call.value, fromActor, target.0);
      if funded.Done? {
        DeliverSame(o, env, env', CallInfo(o, call.(to := target.1), funded.v.1, funded.v.0), fuel, funded.w);
      }
    }
  }

  lemma {:induction false} DeliverSame(o: Address, env: Env, env': Env, info: CallInfo, fuel: nat, w: World)
    requires AgreeFor(o, env, env') && info.origin == o
    ensures Deliver(env, info, fuel, w) == Deliver(env', info, fuel, w)
    decreases fuel, 1
  {
    hide Dispatch, Run, AgreeFor;
    DispatchSame(o, env, env', info);
    var d := Dispatch(env, info);
    if d.Runs? {
      RunSame(o, env, env', info, fuel, w, true, d.program);
    }
  }

  lemma {:induction false} ResolveSame(o: Address, env: Env, env': Env, fuel: nat, w: World, target: Address)
    requires AgreeFor(o, env, env')
    ensures ResolveTarget(env, o, fuel, w, target) == ResolveTarget(env', o, fuel, w, target)
    decreases fuel, 1
  {
    hide CreateAccount, AgreeFor;
    if NeedsAccount(w, target) {
      CreateAccountSame(o, env, env', fuel, w, target, InitStateOf(w).value);
    }
  }

  lemma {:induction false} CreateAccountSame(
      o: Address, env: Env, env': Env, fuel: nat, w: World, target: Address, init: Obj)
    requires AgreeFor(o, env, env') && INIT_ACTOR.id in w.actors && init.InitState?
    ensures CreateAccount(env, o, fuel, w, target, init) == CreateAccount(env', o, fuel, w, target, init)
    decreases fuel, 0
  {
    hide Invoke, EnterAccount, AgreeFor;
    EnterSame(o, env, env', w, target, init);
    var entered := EnterAccount(env, w, target, init);
    if entered.Done? && fuel > 0 {
      InvokeSame(o, env, env', fuel - 1, entered.w, ConstructorCall(target, init.nextId), None);
    }
  }

  lemma {:induction false} RunSame(
      o: Address, env: Env, env': Env, info: CallInfo, fuel: nat, w: World, allowed: bool, p: Program)
    requires AgreeFor(o, env, env') && info.origin == o
    ensures Run(env, info, fuel, w, allowed, p) == Run(env', info, fuel, w, allowed, p)
    decreases fuel, 0
  {
    hide DoSend, Transact, Perform, AgreeFor;
    if fuel > 0 {
      match p {
        case Return(_) =>
        case AbortWith(_) =>
        case PanicNow =>
        case DeleteActor(_) =>
        case Send(to, methodNum, value, params, accepts, next) =>
          var call := Call(info.call.to, to, value, methodNum, params);
          SendSame(o, env, env', info, fuel - 1, w, allowed, call, accepts);
          var s := DoSend(env, info, fuel - 1, w, allowed, call, accepts);
          if s.Done? {
            RunSame(o, env, env', info, fuel - 1, s.w, allowed, next(s.v.0, s.v.1));
          }
        case StateTransaction(body, next) =>
          TransactSame(o, env, env', info, fuel - 1, w, body);
          var s := Transact(env, info, fuel - 1, w, body);
          if s.Done? {
            RunSame(o, env, env', info, fuel - 1, s.w, true, next(s.v));
          }
        case _ =>
          LocalSame(o, env, env', info, fuel, w, allowed, p);
      }
    }
  }

  lemma {:induction false} LocalSame(
      o: Address, env: Env, env': Env, info: CallInfo, fuel: nat, w: World, allowed: bool, p: Program)
    requires AgreeFor(o, env, env') && info.origin == o && p.Local() && fuel > 0
    ensures Run(env, info, fuel, w, allowed, p) == Run(env', info, fuel, w, allowed, p)
    decreases fuel - 1, 2
  {
    hide Perform, AgreeFor;
    PerformSame(o, env, env', w, info.call.to, p);
    var s := Perform(env, w, info.call.to, p);
    if s.Done? {
      RunSame(o, env, env', info, fuel - 1, s.w, allowed, s.v);
    }
  }

  lemma {:induction false} SendSame(
      o: Address, env: Env, env': Env, info: CallInfo, fuel: nat, w: World, allowed: bool, call: Call,
      accepts: Obj -> bool)
    requires AgreeFor(o, env, env') && info.origin == o
    ensures DoSend(env, info, fuel, w, allowed, call, accepts) == DoSend(env', info, fuel, w, allowed, call, accepts)
    decreases fuel, 4
  {
    hide Invoke, AgreeFor;
    InvokeSame(o, env, env', fuel, w, call, Some(info.toActor));
  }

  lemma {:induction false} TransactSame(
      o: Address, env: Env, env': Env, info: CallInfo, fuel: nat, w: World, body: Obj -> Program)
    requires AgreeFor(o, env, env') && info.origin == o
    ensures Transact(env, info, fuel, w, body) == Transact(env', info, fuel, w, body)
    decreases fuel, 1
  {
    hide Run, SameFor;
    var loaded := LoadState(w, info.call.to);
    if loaded.Done? {
      RunSame(o, env, env', info, fuel, w, false, body(loaded.v));
    }
  }

  /** A message from the outside acts on behalf of its sender, by ID. */
  lemma MessageSame(env: Env, env': Env, fuel: nat, w: World, msg: Message)
    requires Normalize(w, msg.from).Mapped? ==> AgreeFor(Normalize(w, msg.from).addr, env, env')
    ensures ApplyMessage(env, fuel, w, msg) == ApplyMessage(env', fuel, w, msg)
  {
    hide Invoke, AgreeFor;
    var from := Normalize(w, msg.from);
    if from.Mapped? && Present(w.actors, from.addr) {
      var w1 := World(BumpNonce(w.actors, from.addr.id), w.states);
      var call := Call(from.addr, msg.to, msg.value, msg.methodNum, msg.params);
      InvokeSame(from.addr, env, env', fuel, w1, call, Some(w.actors[from.addr.id]));
    }
  }
}
