/**
 * Two promises of the machine that hold only under a condition, with the inputs that break them:
 * that overspending is an abort, and that an Ok exit code means the effects were kept.
 */
module VmHazards {
  import opened Common
  import opened VmTypes
  import opened VmSemantics
  import opened VmAccounts
  import opened VmTransactions

  // ----- the cached caller record -----

  /** A method that pays the same amount twice. */
  function PayTwice(first: Address, second: Address, value: int): Program {
    Send(first, METHOD_SEND, value, Empty, _ => true,
         (_, _) => Send(second, METHOD_SEND, value, Empty, _ => true, (_, _) => Return(Empty)))
  }

  /** What a nested payment comes to, from what the payer believes it has and what it has. */
  lemma NestedPayment(env: Env, info: CallInfo, fuel: nat, w: World, to: nat, value: int, accepts: Obj -> bool)
    requires Present(w.actors, info.call.to) && to in w.actors && 0 < value && 1 <= fuel && accepts(Empty)
    requires INIT_ACTOR.id in w.actors && InitStateOf(w).Some? && InitStateOf(w).value.InitState?
    ensures
      var s := DoSend(env, info, fuel, w, true, Call(info.call.to, ID(to), value, METHOD_SEND, Empty), accepts);
      var believed := info.toActor.balance;
      var stored := w.actors[info.call.to.id].balance;
      if believed < value then s == Done(w, (SysErrInsufficientFunds, Empty))
      else if stored < value then s == Fail(w.states, Crash)
      else s == Done(World(Move(w.actors, info.call.to.id, to, value), w.states), (ExitOk, Empty))
  {
    hide Execute, ResolveTarget;
    var call := Call(info.call.to, ID(to), value, METHOD_SEND, Empty);
    SendExecutes(env, info.origin, fuel - 1, w, call, info.toActor);
    KnownTarget(env, info.origin, fuel - 1, w, to);
  }

  /**
   * Paying twice out of a balance that covers the amount once is not an abort: the first check uses
   * the record cached when the method began, the second finds the stored one too small and panics.
   * Below and above that range the method ends normally.
   */
  lemma PayTwiceOutcome(env: Env, info: CallInfo, fuel: nat, w: World, first: nat, second: nat, value: int)
    requires Present(w.actors, info.call.to) && info.toActor.balance == w.actors[info.call.to.id].balance
    requires INIT_ACTOR.id in w.actors && InitStateOf(w).Some? && InitStateOf(w).value.InitState?
    requires first in w.actors && second in w.actors && first != info.call.to.id
    requires 0 < value && 4 <= fuel
    ensures
      var payer := info.call.to.id;
      var balance := w.actors[payer].balance;
      var s := Run(env, info, fuel, w, true, PayTwice(ID(first), ID(second), value));
      if balance < value then s == Done(w, (Empty, true))
      else if balance < 2 * value then s == Fail(w.states, Crash)
      else s == Done(World(Move(Move(w.actors, payer, first, value), payer, second, value), w.states), (Empty, true))
  {
    hide DoSend;
    var payer := info.call.to.id;
    var p := PayTwice(ID(first), ID(second), value);
    NestedPayment(env, info, fuel - 1, w, first, value, p.accepts);
    var s1 := DoSend(env, info, fuel - 1, w, true, Call(info.call.to, ID(first), value, METHOD_SEND, Empty), p.accepts);
    if s1.Done? {
      var q := p.afterSend(s1.v.0, s1.v.1);
      assert q.Send? && q.to == ID(second);
      NestedPayment(env, info, fuel - 2, s1.w, second, value, q.accepts);
      var call := Call(info.call.to, ID(second), value, METHOD_SEND, Empty);
      var s2 := DoSend(env, info, fuel - 2, s1.w, true, call, q.accepts);
      if s2.Done? {
        assert Run(env, info, fuel - 2, s2.w, true, q.afterSend(s2.v.0, s2.v.1)) == Done(s2.w, (Empty, true));
      }
      assert Run(env, info, fuel - 1, s1.w, true, q)
          == if s2.Done? then Done(s2.w, (Empty, true)) else Fail(s2.states, s2.why);
    }
  }

  // ----- the exit code of an abort -----

  /** The run of a program comes to an abort with the code that means success, its own or a transaction body's. */
  ghost predicate AbortsOk(env: Env, info: CallInfo, fuel: nat, w: World, allowed: bool, p: Program)
    decreases fuel, 0
  {
    fuel > 0 &&
    match p
    case AbortWith(code) => code == ExitOk
    case Send(to, methodNum, value, params, accepts, next) =>
      var s := DoSend(env, info, fuel - 1, w, allowed, Call(info.call.to, to, value, methodNum, params), accepts);
      s.Done? && AbortsOk(env, info, fuel - 1, s.w, allowed, next(s.v.0, s.v.1))
    case StateTransaction(body, next) =>
      || BodyAbortsOk(env, info, fuel - 1, w, body)
      || (var s := Transact(env, info, fuel - 1, w, body);
          s.Done? && AbortsOk(env, info, fuel - 1, s.w, true, next(s.v)))
    case _ =>
      && p.Local()
      && var s := Perform(env, w, info.call.to, p);
         s.Done? && AbortsOk(env, info, fuel - 1, s.w, allowed, s.v)
  }

  ghost predicate BodyAbortsOk(env: Env, info: CallInfo, fuel: nat, w: World, body: Obj -> Program)
    decreases fuel, 1
  {
    var loaded := LoadState(w, info.call.to);
    loaded.Done? && AbortsOk(env, info, fuel, w, false, body(loaded.v))
  }

  ghost predicate EndsOk<T>(s: Step<T>) {
    s.Fail? && s.why == Abort(ExitOk)
  }

  lemma SendNeverOk(env: Env, info: CallInfo, fuel: nat, w: World, allowed: bool, call: Call, accepts: Obj -> bool)
    ensures !EndsOk(DoSend(env, info, fuel, w, allowed, call, accepts))
  {
    hide Invoke;
  }

  lemma PerformNeverOk(env: Env, w: World, receiver: Address, p: Program)
    requires p.Local()
    ensures !EndsOk(Perform(env, w, receiver, p))
  {
    hide Normalize, Put, CodeOf;
  }

  /** A run fails with Ok exactly when it comes to such an abort: sends, loads and stores never do. */
  lemma {:induction false} FailsOkIff(env: Env, info: CallInfo, fuel: nat, w: World, allowed: bool, p: Program)
    ensures EndsOk(Run(env, info, fuel, w, allowed, p)) <==> AbortsOk(env, info, fuel, w, allowed, p)
    decreases fuel, 0
  {
    hide DoSend, Perform, Transact, BodyAbortsOk;
    if fuel > 0 {
      match p {
        case Return(_) =>
        case AbortWith(_) =>
        case PanicNow =>
        case DeleteActor(_) =>
        case Send(to, methodNum, value, params, accepts, next) =>
          var call := Call(info.call.to, to, value, methodNum, params);
          SendNeverOk(env, info, fuel - 1, w, allowed, call, accepts);
          var s := DoSend(env, info, fuel - 1, w, allowed, call, accepts);
          if s.Done? {
            FailsOkIff(env, info, fuel - 1, s.w, allowed, next(s.v.0, s.v.1));
          }
        case StateTransaction(body, next) =>
          TransactFailsOkIff(env, info, fuel - 1, w, body);
          var s := Transact(env, info, fuel - 1, w, body);
          if s.Done? {
            FailsOkIff(env, info, fuel - 1, s.w, true, next(s.v));
          }
        case _ =>
          PerformNeverOk(env, w, info.call.to, p);
          var s := Perform(env, w, info.call.to, p);
          if s.Done? {
            FailsOkIff(env, info, fuel - 1, s.w, allowed, s.v);
          }
      }
    }
  }

  lemma {:induction false} TransactFailsOkIff(env: Env, info: CallInfo, fuel: nat, w: World, body: Obj -> Program)
    ensures EndsOk(Transact(env, info, fuel, w, body)) <==> BodyAbortsOk(env, info, fuel, w, body)
    decreases fuel, 1
  {
    hide Run, AbortsOk;
    var loaded := LoadState(w, info.call.to);
    if loaded.Done? {
      FailsOkIff(env, info, fuel, w, false, body(loaded.v));
    }
  }

  lemma ResolveNeverOk(env: Env, origin: Address, fuel: nat, w: World, target: Address)
    ensures !EndsOk(ResolveTarget(env, origin, fuel, w, target))
  {
    hide Invoke;
  }

  lemma FundNeverOk(w: World, from: Address, to: Address, value: int, fromActor: Option<Actor>, toActor: Actor)
    ensures !EndsOk(Fund(w, from, to, value, fromActor, toActor))
  {}

  /** The invocation gets as far as running its method, and that run comes to an abort with Ok. */
  ghost predicate MethodAbortsOk(
      env: Env, origin: Address, fuel: nat, w: World, call: Call, fromActor: Option<Actor>) {
    && call.from.ID? && call.methodNum != METHOD_SEND
    && var resolved := ResolveTarget(env, origin, fuel, w, call.to);
    && resolved.Done?
    && var funded := Fund(resolved.w, call.from, resolved.v.1, call.value, fromActor, resolved.v.0);
    && funded.Done?
    && var info := CallInfo(origin, call.(to := resolved.v.1), funded.v.1, funded.v.0);
       var d := Dispatch(env, info);
    && d.Runs? && AbortsOk(env, info, fuel, funded.w, true, d.program)
  }

  lemma ExecuteFailsOkIff(env: Env, origin: Address, fuel: nat, w: World, call: Call, fromActor: Option<Actor>)
    ensures EndsOk(Execute(env, origin, fuel, w, call, fromActor))
       <==> MethodAbortsOk(env, origin, fuel, w, call, fromActor)
  {
    hide Run, ResolveTarget, Fund, Dispatch, AbortsOk;
    ResolveNeverOk(env, origin, fuel, w, call.to);
    var resolved := ResolveTarget(env, origin, fuel, w, call.to);
    if resolved.Done? {
      FundNeverOk(resolved.w, call.from, resolved.v.1, call.value, fromActor, resolved.v.0);
      var funded := Fund(resolved.w, call.from, resolved.v.1, call.value, fromActor, resolved.v.0);
      if funded.Done? {
        var info := CallInfo(origin, call.(to := resolved.v.1), funded.v.1, funded.v.0);
        DispatchNeverOk(env, info);
        var d := Dispatch(env, info);
        if d.Runs? {
          FailsOkIff(env, info, fuel, funded.w, true, d.program);
        }
      }
    }
  }

  lemma DispatchNeverOk(env: Env, info: CallInfo)
    ensures Dispatch(env, info) != Fails(Abort(ExitOk))
  {}

  /**
   * An Ok reply means that the effects were kept unless, and only unless, the method's own run came to
   * an abort with Ok. Then the caller is told Ok and the actors are those of the entry.
   */
  lemma OkMeansCommittedIff(env: Env, origin: Address, fuel: nat, w: World, call: Call, fromActor: Option<Actor>)
    requires fuel > 0
    ensures var (w', reply) := Invoke(env, origin, fuel, w, call, fromActor);
            var s := Execute(env, origin, fuel - 1, w, call, fromActor);
            && (s.Done? ==> w' == s.w && reply == Returned(s.v, ExitOk))
            && ((reply.Returned? && reply.code == ExitOk && s.Fail?)
                <==> MethodAbortsOk(env, origin, fuel - 1, w, call, fromActor))
            && (MethodAbortsOk(env, origin, fuel - 1, w, call, fromActor) ==> w'.actors == w.actors)
  {
    hide Execute, MethodAbortsOk;
    ExecuteFailsOkIff(env, origin, fuel - 1, w, call, fromActor);
  }

  // ----- registries that are honest about it -----

  /** No exported method can abort with the code that means success. */
  ghost predicate HonestAborts(env: Env) {
    forall code, n: nat, info: CallInfo, params: Obj, steps: nat ::
      code in env.registry && n < |env.registry[code].exports| && env.registry[code].exports[n].Some?
      && env.registry[code].exports[n].value(info, params).Some?
      ==> Throughout(steps, env.registry[code].exports[n].value(info, params).value, NotOkAbort)
  }

  predicate NotOkAbort(c: Program) {
    c != AbortWith(ExitOk)
  }

  lemma {:induction false} HonestRun(env: Env, info: CallInfo, fuel: nat, w: World, allowed: bool, p: Program)
    requires Throughout(fuel, p, NotOkAbort)
    ensures !AbortsOk(env, info, fuel, w, allowed, p)
    decreases fuel, 0
  {
    hide DoSend, Perform, Transact;
    if fuel > 0 {
      match p {
        case Return(_) =>
        case AbortWith(_) =>
        case PanicNow =>
        case DeleteActor(_) =>
        case Send(to, methodNum, value, params, accepts, next) =>
          var call := Call(info.call.to, to, value, methodNum, params);
          var s := DoSend(env, info, fuel - 1, w, allowed, call, accepts);
          if s.Done? {
            HonestRun(env, info, fuel - 1, s.w, allowed, next(s.v.0, s.v.1));
          }
        case StateTransaction(body, next) =>
          var loaded := LoadState(w, info.call.to);
          if loaded.Done? {
            HonestRun(env, info, fuel - 1, w, false, body(loaded.v));
          }
          var s := Transact(env, info, fuel - 1, w, body);
          if s.Done? {
            HonestRun(env, info, fuel - 1, s.w, true, next(s.v));
          }
        case _ =>
          HonestLocal(env, info, fuel, w, allowed, p);
      }
    }
  }

  lemma {:induction false} HonestLocal(env: Env, info: CallInfo, fuel: nat, w: World, allowed: bool, p: Program)
    requires Throughout(fuel, p, NotOkAbort) && p.Local() && fuel > 0
    ensures !AbortsOk(env, info, fuel, w, allowed, p)
    decreases fuel - 1, 2
  {
    hide Perform;
    var s := Perform(env, w, info.call.to, p);
    if s.Done? {
      AnswersThroughout(env, w, info.call.to, fuel, p, NotOkAbort);
      HonestRun(env, info, fuel - 1, s.w, allowed, s.v);
    }
  }

  /** There an Ok result says exactly that the effects were kept. */
  lemma OkMeansCommitted(env: Env, origin: Address, fuel: nat, w: World, call: Call, fromActor: Option<Actor>)
    requires HonestAborts(env) && fuel > 0
    ensures var (w', reply) := Invoke(env, origin, fuel, w, call, fromActor);
            var s := Execute(env, origin, fuel - 1, w, call, fromActor);
            && ((reply.Returned? && reply.code == ExitOk) <==> s.Done?)
            && (s.Done? ==> w' == s.w && reply.ret == s.v)
  {
    hide Invoke, Execute, AbortsOk, HonestAborts, ResolveTarget, Fund, Dispatch;
    OkMeansCommittedIff(env, origin, fuel, w, call, fromActor);
    if MethodAbortsOk(env, origin, fuel - 1, w, call, fromActor) {
      var resolved := ResolveTarget(env, origin, fuel - 1, w, call.to);
      var funded := Fund(resolved.w, call.from, resolved.v.1, call.value, fromActor, resolved.v.0);
      var info := CallInfo(origin, call.(to := resolved.v.1), funded.v.1, funded.v.0);
      DispatchHonest(env, info, fuel - 1);
      HonestRun(env, info, fuel - 1, funded.w, true, Dispatch(env, info).program);
    }
  }

  lemma DispatchHonest(env: Env, info: CallInfo, steps: nat)
    requires HonestAborts(env) && Dispatch(env, info).Runs?
    ensures Throughout(steps, Dispatch(env, info).program, NotOkAbort)
  {}

  /**
   * Elsewhere it may not: a method that aborts with Ok reports success to its caller, while the funds
   * sent along with the call never moved.
   */
  lemma OkAbortDiscards(env: Env, origin: Address, fuel: nat, w: World, from: nat, to: nat, call: Call)
    requires from in w.actors && to in w.actors && call.from == ID(from) && call.to == ID(to)
    requires INIT_ACTOR.id in w.actors && InitStateOf(w).Some? && InitStateOf(w).value.InitState?
    requires 0 < call.value <= w.actors[from].balance && from != to
    requires call.methodNum != METHOD_SEND && 2 <= fuel
    requires forall info: CallInfo :: info.call == call && info.toActor.code == w.actors[to].code
               ==> Dispatch(env, info) == Runs(AbortWith(ExitOk))
    ensures var (w', reply) := Invoke(env, origin, fuel, w, call, Some(w.actors[from]));
            && reply == Returned(Empty, ExitOk) && w'.actors == w.actors
            && w'.actors != Move(w.actors, from, to, call.value)
  {
    hide ResolveTarget, Dispatch;
    KnownTarget(env, origin, fuel - 1, w, to);
    var funded := Fund(w, call.from, call.to, call.value, Some(w.actors[from]), w.actors[to]);
    var info := CallInfo(origin, call, funded.v.1, funded.v.0);
    assert Dispatch(env, info) == Runs(AbortWith(ExitOk));
    assert Run(env, info, fuel - 1, funded.w, true, AbortWith(ExitOk)) == Fail(funded.w.states, Abort(ExitOk));
    assert Execute(env, origin, fuel - 1, w, call, Some(w.actors[from])) == Fail(w.states, Abort(ExitOk));
    assert Move(w.actors, from, to, call.value)[from].balance != w.actors[from].balance;
  }
}
