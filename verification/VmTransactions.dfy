/** State transactions: what the side-effect lock protects, and where it stops protecting. */
module VmTransactions {
  import opened Common
  import opened VmTypes
  import opened VmSemantics
  import opened VmAccounts

  /** Every command a program can reach within so many steps satisfies ok. */
  ghost predicate Throughout(steps: nat, p: Program, ok: Program -> bool) {
    steps == 0 ||
    (ok(p) &&
     match p
     case Return(_) => true
     case AbortWith(_) => true
     case PanicNow => true
     case DeleteActor(_) => true
     case Send(_, _, _, _, _, next) => forall code, ret :: Throughout(steps - 1, next(code, ret), ok)
     case CreateActor(_, _, next) => Throughout(steps - 1, next, ok)
     case StateCreate(_, next) => Throughout(steps - 1, next, ok)
     case StateReadonly(next) => forall obj :: Throughout(steps - 1, next(obj), ok)
     case StateTransaction(body, next) =>
       forall obj :: Throughout(steps - 1, body(obj), ok) && Throughout(steps - 1, next(obj), ok)
     case ResolveAddress(_, next) => forall a :: Throughout(steps - 1, next(a), ok)
     case GetActorCode(_, next) => forall c :: Throughout(steps - 1, next(c), ok)
     case StorePut(_, next) => forall c :: Throughout(steps - 1, next(c), ok)
     case StoreGet(_, next) => forall o :: Throughout(steps - 1, next(o), ok))
  }

  /** A transaction body that opens no transaction of its own. */
  ghost predicate Flat(steps: nat, p: Program) {
    Throughout(steps, p, NoTransaction)
  }

  predicate NoTransaction(c: Program) {
    !c.StateTransaction?
  }

  // ----- what the lock protects -----

  /** Records that were there keep everything; new ones hold no funds and no state. */
  ghost predicate OnlyAdds(env: Env, m: ActorMap, m': ActorMap) {
    && (forall k :: k in m ==> k in m' && m'[k] == m[k])
    && (forall k :: k in m' && k !in m ==> m'[k].balance == 0 && m'[k].head == env.emptyObject)
  }

  /** The receiver has been given a state. */
  ghost predicate Initialised(env: Env, w: World, receiver: Address) {
    Present(w.actors, receiver) && w.actors[receiver.id].head.Defined()
    && w.actors[receiver.id].head != env.emptyObject
  }

  /** Nobody else's record moves, and of the receiver's only a head that was never set. */
  ghost predicate LockKeeps(env: Env, receiver: Address, w: World, w': World) {
    && Present(w.actors, receiver) && Present(w'.actors, receiver)
    && OnlyAdds(env, w.actors - {receiver.id}, w'.actors - {receiver.id})
    && w'.actors[receiver.id] == w.actors[receiver.id].(head := w'.actors[receiver.id].head)
    && (Initialised(env, w, receiver) ==> w'.actors[receiver.id] == w.actors[receiver.id])
  }

  /** The run of a program, under the lock, comes to a transaction. */
  ghost predicate Opens(env: Env, info: CallInfo, fuel: nat, w: World, p: Program)
    decreases fuel
  {
    fuel > 0 &&
    (p.StateTransaction? ||
     (p.Local() && Perform(env, w, info.call.to, p).Done?
      && Opens(env, info, fuel - 1, Perform(env, w, info.call.to, p).w, Perform(env, w, info.call.to, p).v)))
  }

  /** Somewhere in the run of a program, inner transactions included, a message is sent and answered. */
  ghost predicate Sends(env: Env, info: CallInfo, fuel: nat, w: World, allowed: bool, p: Program)
    decreases fuel, 0
  {
    fuel > 0 &&
    match p
    case Send(to, methodNum, value, params, accepts, _) =>
      DoSend(env, info, fuel - 1, w, allowed, Call(info.call.to, to, value, methodNum, params), accepts).Done?
    case StateTransaction(body, next) =>
      || BodySends(env, info, fuel - 1, w, body)
      || (var s := Transact(env, info, fuel - 1, w, body);
          s.Done? && Sends(env, info, fuel - 1, s.w, true, next(s.v)))
    case _ =>
      && p.Local()
      && var s := Perform(env, w, info.call.to, p);
         s.Done? && Sends(env, info, fuel - 1, s.w, allowed, s.v)
  }

  ghost predicate BodySends(env: Env, info: CallInfo, fuel: nat, w: World, body: Obj -> Program)
    decreases fuel, 1
  {
    var loaded := LoadState(w, info.call.to);
    loaded.Done? && Sends(env, info, fuel, w, false, body(loaded.v))
  }

  /** Under the lock a run that opens no transaction sends nothing. */
  lemma {:induction false} SendsNothing(env: Env, info: CallInfo, fuel: nat, w: World, p: Program)
    requires !Opens(env, info, fuel, w, p)
    ensures !Sends(env, info, fuel, w, false, p)
    decreases fuel
  {
    hide Perform;
    if fuel > 0 && p.Local() {
      var s := Perform(env, w, info.call.to, p);
      if s.Done? {
        SendsNothing(env, info, fuel - 1, s.w, s.v);
      }
    }
  }

  /** A lock that is off stays off. */
  lemma {:induction false} UnlockedStays(env: Env, info: CallInfo, fuel: nat, w: World, p: Program)
    ensures var s := Run(env, info, fuel, w, true, p);
            s.Done? ==> s.v.1
    decreases fuel
  {
    hide DoSend, Transact, Perform;
    if fuel > 0 {
      match p {
        case Send(to, methodNum, value, params, accepts, next) =>
          var call := Call(info.call.to, to, value, methodNum, params);
          var s := DoSend(env, info, fuel - 1, w, true, call, accepts);
          if s.Done? {
            UnlockedStays(env, info, fuel - 1, s.w, next(s.v.0, s.v.1));
          }
        case StateTransaction(body, next) =>
          var s := Transact(env, info, fuel - 1, w, body);
          if s.Done? {
            UnlockedStays(env, info, fuel - 1, s.w, next(s.v));
          }
        case _ =>
          if p.Local() {
            var s := Perform(env, w, info.call.to, p);
            if s.Done? {
              UnlockedStays(env, info, fuel - 1, s.w, s.v);
            }
          }
      }
    }
  }

  /**
   * The lock is still on at the end of a run exactly when the run opened no transaction, and then no
   * existing record has moved.
   */
  lemma {:induction false} LockedRun(env: Env, info: CallInfo, fuel: nat, w: World, p: Program)
    requires Present(w.actors, info.call.to)
    ensures var s := Run(env, info, fuel, w, false, p);
            s.Done? ==>
              && (!s.v.1 <==> !Opens(env, info, fuel, w, p))
              && (!s.v.1 ==> LockKeeps(env, info.call.to, w, s.w))
    decreases fuel
  {
    hide Perform, Transact;
    if fuel > 0 {
      if p.StateTransaction? {
        var s := Transact(env, info, fuel - 1, w, p.body);
        if s.Done? {
          UnlockedStays(env, info, fuel - 1, s.w, p.afterTransaction(s.v));
        }
      } else if p.Local() {
        LockedPerform(env, w, info.call.to, p);
        var s := Perform(env, w, info.call.to, p);
        if s.Done? {
          LockedRun(env, info, fuel - 1, s.w, s.v);
        }
      }
    }
  }

  /** A program without transactions opens none. */
  lemma {:induction false} FlatOpensNone(env: Env, info: CallInfo, fuel: nat, w: World, p: Program)
    requires Flat(fuel, p)
    ensures !Opens(env, info, fuel, w, p)
    decreases fuel
  {
    hide Perform;
    if fuel > 0 && p.Local() {
      var s := Perform(env, w, info.call.to, p);
      if s.Done? {
        AnswersThroughout(env, w, info.call.to, fuel, p, NoTransaction);
        FlatOpensNone(env, info, fuel - 1, s.w, s.v);
      }
    }
  }

  /** Whatever the answer, what goes on from a call is within the same bounds. */
  lemma AnswersThroughout(env: Env, w: World, receiver: Address, steps: nat, p: Program, ok: Program -> bool)
    requires p.Local() && steps > 0 && Throughout(steps, p, ok) && Perform(env, w, receiver, p).Done?
    ensures Throughout(steps - 1, Perform(env, w, receiver, p).v, ok)
  {
    hide NewActor, InitialiseState, LoadState, Normalize, CodeOf, Put;
  }

  lemma LockedPerform(env: Env, w: World, receiver: Address, p: Program)
    requires p.Local() && Present(w.actors, receiver)
    ensures var s := Perform(env, w, receiver, p);
            s.Done? ==> LockKeeps(env, receiver, w, s.w)
  {
    hide NewActor, LoadState, Normalize, CodeOf, Put;
    if p.CreateActor? {
      NewActorOnlyAdds(env, w, p.actorCode, p.addr);
    }
  }

  lemma NewActorOnlyAdds(env: Env, w: World, code: Cid, addr: Address)
    ensures var s := NewActor(env, w, code, addr);
            s.Done? ==> OnlyAdds(env, w.actors, s.w.actors)
  {}

  /**
   * A transaction whose run opens no other one is atomic: no message is sent inside it, its receiver's
   * head goes from the state loaded to the state the body returned, and nobody else's record moves. Once
   * the receiver has a state, nothing inside the body moves its head either. That the run opens no other
   * one is exactly what keeps the lock on to the end.
   */
  lemma TransactionAtomic(env: Env, info: CallInfo, fuel: nat, w: World, body: Obj -> Program)
    ensures var s := Transact(env, info, fuel, w, body);
            s.Done? ==>
              && Present(w.actors, info.call.to) && w.actors[info.call.to.id].head in w.states
              && var id := info.call.to.id;
                 var p := body(w.states[w.actors[id].head]);
                 var ran := Run(env, info, fuel, w, false, p);
              && ran.Done? && ran.v.0 == s.v
              && (!ran.v.1 <==> !Opens(env, info, fuel, w, p))
              && (!Opens(env, info, fuel, w, p) ==> !Sends(env, info, fuel, w, false, p))
              && env.cidOf(s.v) in s.w.states && s.w.states[env.cidOf(s.v)] == s.v
              && (!Opens(env, info, fuel, w, p) ==>
                    && (Initialised(env, w, info.call.to) ==> ran.w.actors[id] == w.actors[id])
                    && id in s.w.actors && s.w.actors[id] == w.actors[id].(head := env.cidOf(s.v))
                    && OnlyAdds(env, w.actors - {id}, s.w.actors - {id}))
  {
    hide Run, Opens, Sends;
    var loaded := LoadState(w, info.call.to);
    if loaded.Done? {
      LockedRun(env, info, fuel, w, body(loaded.v));
      if !Opens(env, info, fuel, w, body(loaded.v)) {
        SendsNothing(env, info, fuel, w, body(loaded.v));
      }
    }
  }

  /**
   * For the Init actor this means that no address mapping is overwritten: its transactions work on
   * the mappings there are when they begin, and what they return is what there is when they end.
   */
  lemma MappingsAreNotOverwritten(env: Env, info: CallInfo, fuel: nat, w: World, body: Obj -> Program)
    requires info.call.to == INIT_ACTOR
    ensures var s := Transact(env, info, fuel, w, body);
            s.Done? ==>
              && InitStateOf(w).Some? && InitStateOf(s.w) == Some(s.v)
              && var p := body(InitStateOf(w).value);
                 var ran := Run(env, info, fuel, w, false, p);
              && ran.Done? && ran.v.0 == s.v
              && (!Opens(env, info, fuel, w, p) && Initialised(env, w, INIT_ACTOR) ==>
                    ran.w.actors[INIT_ACTOR.id] == w.actors[INIT_ACTOR.id])
  {
    hide Run, Opens, OnlyAdds, Sends;
    TransactionAtomic(env, info, fuel, w, body);
  }

  /** Atomic in particular: transactions whose bodies have no other transaction in them. */
  lemma FlatTransactionAtomic(env: Env, info: CallInfo, fuel: nat, w: World, body: Obj -> Program)
    requires forall obj :: Flat(fuel, body(obj))
    ensures var s := Transact(env, info, fuel, w, body);
            s.Done? ==>
              && Present(w.actors, info.call.to)
              && var id := info.call.to.id;
              && id in s.w.actors && s.w.actors[id] == w.actors[id].(head := env.cidOf(s.v))
              && OnlyAdds(env, w.actors - {id}, s.w.actors - {id})
              && !BodySends(env, info, fuel, w, body)
  {
    hide Run, Opens, OnlyAdds, Transact, Flat, Sends;
    TransactionAtomic(env, info, fuel, w, body);
    if Transact(env, info, fuel, w, body).Done? {
      FlatOpensNone(env, info, fuel, w, body(w.states[w.actors[info.call.to.id].head]));
    }
  }

  /** Under the lock a send is refused, whatever it asks for. */
  lemma SendRefused(env: Env, info: CallInfo, fuel: nat, w: World, p: Program)
    requires p.Send? && fuel > 0
    ensures Run(env, info, fuel, w, false, p) == Fail(w.states, Abort(SysErrorIllegalActor))
  {}

  // ----- where the lock stops -----

  /** A transaction inside a transaction, then a payment, both under what should be one lock. */
  function PayInside(to: Address, value: int): Obj -> Program {
    outer => StateTransaction(
        inner => Return(inner),
        _ => Send(to, METHOD_SEND, value, Empty, _ => true, (_, _) => Return(outer)))
  }

  /**
   * The lock does not nest: the inner transaction drops it, so the payment that follows goes through
   * in the middle of the outer transaction. This fails for every payment a plain send could make.
   */
  lemma NestedTransactionUnlocks(env: Env, info: CallInfo, fuel: nat, w: World, to: nat, value: int)
    requires Present(w.actors, info.call.to)
    requires w.actors[info.call.to.id].head.Defined() && w.actors[info.call.to.id].head in w.states
    requires env.cidOf(w.states[w.actors[info.call.to.id].head]) == w.actors[info.call.to.id].head
    requires INIT_ACTOR.id in w.actors && InitStateOf(w).Some? && InitStateOf(w).value.InitState?
    requires to in w.actors && 0 < value <= w.actors[info.call.to.id].balance && value <= info.toActor.balance
    requires 4 <= fuel
    ensures var s := Transact(env, info, fuel, w, PayInside(ID(to), value));
            s.Done? && s.w.actors == Move(w.actors, info.call.to.id, to, value)
  {
    var id := info.call.to.id;
    var obj := w.states[w.actors[id].head];
    var outer := PayInside(ID(to), value)(obj);
    var pay := outer.afterTransaction(obj);
    assert SetHead(w.actors, id, env.cidOf(obj)) == w.actors;
    assert Put(env, w.states, obj) == w.states;
    assert Run(env, info, fuel - 1, w, false, outer.body(obj)) == Done(w, (obj, false));
    assert Transact(env, info, fuel - 1, w, outer.body) == Done(w, obj);
    PaymentGoesThrough(env, info, fuel - 2, w, to, value, pay.accepts);
    var paid := World(Move(w.actors, id, to, value), w.states);
    assert Run(env, info, fuel - 2, paid, true, pay.afterSend(ExitOk, Empty)) == Done(paid, (obj, true));
    assert Run(env, info, fuel - 1, w, true, pay) == Done(paid, (obj, true));
    assert Run(env, info, fuel, w, false, outer) == Done(paid, (obj, true));
    assert SetHead(paid.actors, id, env.cidOf(obj)) == paid.actors;
  }

  lemma PaymentGoesThrough(env: Env, info: CallInfo, fuel: nat, w: World, to: nat, value: int, accepts: Obj -> bool)
    requires Present(w.actors, info.call.to) && accepts(Empty)
    requires INIT_ACTOR.id in w.actors && InitStateOf(w).Some? && InitStateOf(w).value.InitState?
    requires to in w.actors && 0 < value <= w.actors[info.call.to.id].balance && value <= info.toActor.balance
    requires 1 <= fuel
    ensures DoSend(env, info, fuel, w, true, Call(info.call.to, ID(to), value, METHOD_SEND, Empty), accepts)
         == Done(World(Move(w.actors, info.call.to.id, to, value), w.states), (ExitOk, Empty))
  {
    hide Execute, ResolveTarget;
    var call := Call(info.call.to, ID(to), value, METHOD_SEND, Empty);
    SendExecutes(env, info.origin, fuel - 1, w, call, info.toActor);
    assert !NeedsAccount(w, ID(to));
    KnownTarget(env, info.origin, fuel - 1, w, to);
  }

  lemma KnownTarget(env: Env, origin: Address, fuel: nat, w: World, to: nat)
    requires INIT_ACTOR.id in w.actors && InitStateOf(w).Some? && InitStateOf(w).value.InitState?
    requires to in w.actors
    ensures ResolveTarget(env, origin, fuel, w, ID(to)) == Done(w, (w.actors[to], ID(to)))
  {
    hide CreateAccount;
  }

  /**
   * On the Init actor it costs a mapping: the payment, of nothing to a key address nobody owns, creates an
   * account inside the outer transaction, which then puts back the mappings it began with. The account
   * record stays, its address needs an account still, and in the world left behind no account can be
   * created at all, since the next ID is taken.
   */
  lemma MappingLost(env: Env, info: CallInfo, fuel: nat, w: World, key: Address)
    requires StandardAccounts(env) && CidsDistinct(env) && NeedsAccount(w, key)
    requires info.call.to == INIT_ACTOR && w.actors[INIT_ACTOR.id].head.Defined()
    requires env.cidOf(InitStateOf(w).value) == w.actors[INIT_ACTOR.id].head
    requires InitStateOf(w).value.nextId !in w.actors && 8 <= fuel
    ensures var s := Transact(env, info, fuel, w, PayInside(key, 0));
      && s.Done? && InitStateOf(s.w) == InitStateOf(w) && NeedsAccount(s.w, key)
      && InitStateOf(w).value.nextId in s.w.actors
      && s.w.actors[InitStateOf(w).value.nextId].code == env.accountCode
      && forall origin, more, other :: NeedsAccount(s.w, other) && ACCOUNT_FUEL <= more ==>
           var r := ResolveTarget(env, origin, more, s.w, other);
           r.Fail? && r.why == Abort(SysErrorIllegalArgument)
  {
    hide StandardAccounts, ResolveTarget;
    var init := InitStateOf(w).value;
    var outer := PayInside(key, 0)(init);
    var pay := outer.afterTransaction(init);
    assert SetHead(w.actors, INIT_ACTOR.id, env.cidOf(init)) == w.actors;
    assert Put(env, w.states, init) == w.states;
    assert Run(env, info, fuel - 1, w, false, outer.body(init)) == Done(w, (init, false));
    assert Transact(env, info, fuel - 1, w, outer.body) == Done(w, init);
    var w' := WithAccount(env, w, key, init);
    EmptySendCreates(env, info, fuel - 2, w, key, pay.accepts);
    assert Run(env, info, fuel - 2, w', true, pay.afterSend(ExitOk, Empty)) == Done(w', (init, true));
    assert Run(env, info, fuel - 1, w, true, pay) == Done(w', (init, true));
    assert Run(env, info, fuel, w, false, outer) == Done(w', (init, true));
    var s := Transact(env, info, fuel, w, PayInside(key, 0));
    assert s.Done? && InitStateOf(s.w) == Some(init);
    forall origin, more, other | NeedsAccount(s.w, other) && ACCOUNT_FUEL <= more
      ensures var r := ResolveTarget(env, origin, more, s.w, other);
              r.Fail? && r.why == Abort(SysErrorIllegalArgument)
    {
      AccountCreatedExactly(env, origin, more, s.w, other);
    }
  }

  /** A send of nothing to a key address nobody owns creates its account and does nothing else. */
  lemma EmptySendCreates(env: Env, info: CallInfo, fuel: nat, w: World, key: Address, accepts: Obj -> bool)
    requires StandardAccounts(env) && NeedsAccount(w, key) && info.call.to.ID? && accepts(Empty)
    requires InitStateOf(w).value.nextId !in w.actors && ACCOUNT_FUEL < fuel
    ensures DoSend(env, info, fuel, w, true, Call(info.call.to, key, 0, METHOD_SEND, Empty), accepts)
         == Done(WithAccount(env, w, key, InitStateOf(w).value), (ExitOk, Empty))
  {
    hide StandardAccounts, ResolveTarget, Execute, WithAccount;
    var call := Call(info.call.to, key, 0, METHOD_SEND, Empty);
    AccountCreatedExactly(env, info.origin, fuel - 1, w, key);
    SendExecutes(env, info.origin, fuel - 1, w, call, info.toActor);
  }
}
