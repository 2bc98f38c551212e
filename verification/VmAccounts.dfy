/** Implicit account creation, and what a plain transfer of funds comes to. */
module VmAccounts {
  import opened Common
  import opened VmTypes
  import opened VmSemantics
  import opened VmInvariants

  /** The target of a message is a key address nobody owns yet. */
  ghost predicate NeedsAccount(w: World, target: Address) {
    && INIT_ACTOR.id in w.actors
    && InitStateOf(w).Some? && InitStateOf(w).value.InitState?
    && target.HasKey() && target !in InitStateOf(w).value.addressMap
  }

  /** Resolving a target that is already known, or cannot be created, never touches the world. */
  lemma ResolvingOnlyReads(env: Env, origin: Address, fuel: nat, w: World, target: Address)
    requires !NeedsAccount(w, target)
    ensures var s := ResolveTarget(env, origin, fuel, w, target);
            match s
            case Done(w', v) => w' == w && v.1.ID? && v.1.id in w.actors && v.0 == w.actors[v.1.id]
            case Fail(states, _) => states == w.states
  {
    hide CreateAccount;
  }

  /**
   * Whatever the account constructor does: a message to an unowned key address that ends Ok leaves
   * an account actor at the fresh ID, and one that does not leaves no actor there.
   */
  lemma ImplicitAccountAllOrNothing(
      env: Env, origin: Address, fuel: nat, w: World, call: Call, fromActor: Option<Actor>)
    requires NeedsAccount(w, call.to)
    ensures var (w', reply) := Invoke(env, origin, fuel, w, call, fromActor);
            var id := InitStateOf(w).value.nextId;
            if id in w.actors then w'.actors == w.actors
            else
              || w'.actors == w.actors
              || (reply.Returned? && reply.code == ExitOk
                  && id in w'.actors && w'.actors[id].code == env.accountCode && w'.actors[id].callSeqNum == 0)
  {
    hide Invoke, Execute, CreateAccount, Evolves;
    ExecuteCreatesAccount(env, origin, if fuel > 0 then fuel - 1 else 0, w, call, fromActor);
    InvokeFromExecute(env, origin, fuel, w, call, fromActor);
  }

  lemma InvokeFromExecute(env: Env, origin: Address, fuel: nat, w: World, call: Call, fromActor: Option<Actor>)
    ensures var (w', reply) := Invoke(env, origin, fuel, w, call, fromActor);
            if fuel > 0 && Execute(env, origin, fuel - 1, w, call, fromActor).Done?
            then w' == Execute(env, origin, fuel - 1, w, call, fromActor).w && reply.Returned? && reply.code == ExitOk
            else w'.actors == w.actors
  {
    hide Execute;
  }

  lemma CreatedAccount(env: Env, origin: Address, fuel: nat, w: World, target: Address, init: Obj)
    requires INIT_ACTOR.id in w.actors && init.InitState?
    ensures var s := CreateAccount(env, origin, fuel, w, target, init);
            s.Done? ==>
              && init.nextId !in w.actors && s.v.1 == ID(init.nextId)
              && init.nextId in s.w.actors && s.v.0 == s.w.actors[init.nextId]
              && s.v.0.code == env.accountCode && s.v.0.callSeqNum == 0
  {
    hide Invoke, Total, NonNegative, HeadsStored, AddsFreshRecords;
    var entered := EnterAccount(env, w, target, init);
    if entered.Done? && fuel > 0 {
      InvokeEvolves(env, origin, fuel - 1, entered.w, ConstructorCall(target, init.nextId), None);
    }
  }

  lemma ExecuteCreatesAccount(env: Env, origin: Address, fuel: nat, w: World, call: Call, fromActor: Option<Actor>)
    requires NeedsAccount(w, call.to)
    ensures var s := Execute(env, origin, fuel, w, call, fromActor);
            var id := InitStateOf(w).value.nextId;
            s.Done? ==> id !in w.actors && id in s.w.actors
                        && s.w.actors[id].code == env.accountCode && s.w.actors[id].callSeqNum == 0
  {
    hide CreateAccount, Fund, Run, Dispatch, Total, NonNegative, HeadsStored, AddsFreshRecords;
    var init := InitStateOf(w).value;
    CreatedAccount(env, origin, fuel, w, call.to, init);
    var resolved := ResolveTarget(env, origin, fuel, w, call.to);
    if call.from.ID? && resolved.Done? {
      var (w1, target) := (resolved.w, resolved.v);
      FundEvolves(env, w1, call.from, target.1, call.value, fromActor, target.0);
      var funded := Fund(w1, call.from, target.1, call.value, fromActor, target.0);
      if funded.Done? {
        var info := CallInfo(origin, call.(to := target.1), funded.v.1, funded.v.0);
        var d := Dispatch(env, info);
        if call.methodNum != METHOD_SEND && d.Runs? {
          RunEvolves(env, info, fuel, funded.w, true, d.program);
        }
      }
    }
  }

  // ----- with the account actor's own constructor -----

  /** The account actor's constructor: for the system actor only, and for key addresses only. */
  function AccountConstructor(info: CallInfo, key: Address): Program {
    if info.call.from != SYSTEM_ACTOR then AbortWith(ErrForbidden)
    else if key.HasKey() then StateCreate(AddressObj(key), Return(Empty))
    else AbortWith(ErrIllegalArgument)
  }

  ghost predicate StandardAccounts(env: Env) {
    && env.accountCode in env.registry
    && !env.registry[env.accountCode].singleton
    && METHOD_CONSTRUCTOR < |env.registry[env.accountCode].exports|
    && env.registry[env.accountCode].exports[METHOD_CONSTRUCTOR].Some?
    && forall info: CallInfo, key: Address ::
         env.registry[env.accountCode].exports[METHOD_CONSTRUCTOR].value(info, AddressObj(key))
         == Some(AccountConstructor(info, key))
  }

  /** Fuel that is enough to create an account. */
  const ACCOUNT_FUEL: nat := 4

  /** The world with an account for the target: one mapping more, one actor more, nothing else. */
  function WithAccount(env: Env, w: World, target: Address, init: Obj): World
    requires INIT_ACTOR.id in w.actors && init.InitState?
  {
    var init' := AddMapping(init, target);
    var state := AddressObj(target);
    World(SetHead(w.actors, INIT_ACTOR.id, env.cidOf(init'))
            [init.nextId := Actor(env.accountCode, env.cidOf(state), 0, 0)],
          Put(env, Put(env, w.states, init'), state))
  }

  /** Creating an account succeeds exactly when the next ID is free, and then yields that world. */
  lemma AccountCreatedExactly(env: Env, origin: Address, fuel: nat, w: World, target: Address)
    requires StandardAccounts(env) && NeedsAccount(w, target) && ACCOUNT_FUEL <= fuel
    ensures var init := InitStateOf(w).value;
            var s := ResolveTarget(env, origin, fuel, w, target);
            if init.nextId in w.actors then s.Fail? && s.why == Abort(SysErrorIllegalArgument)
            else
              var w' := WithAccount(env, w, target, init);
              s == Done(w', (w'.actors[init.nextId], ID(init.nextId)))
  {
    hide Invoke, StandardAccounts;
    var init := InitStateOf(w).value;
    var entered := EnterAccount(env, w, target, init);
    AccountRegistered(env);
    if init.nextId !in w.actors {
      ConstructorRuns(env, origin, fuel - 1, entered.w, target, init.nextId);
    }
  }

  lemma AccountRegistered(env: Env)
    requires StandardAccounts(env)
    ensures env.accountCode in env.registry && !env.registry[env.accountCode].singleton
  {}

  lemma ConstructorRuns(env: Env, origin: Address, fuel: nat, w: World, target: Address, id: nat)
    requires StandardAccounts(env) && target.HasKey() && 3 <= fuel
    requires INIT_ACTOR.id in w.actors && InitStateOf(w).Some? && InitStateOf(w).value.InitState?
    requires id in w.actors && id != INIT_ACTOR.id && w.actors[id] == Actor(env.accountCode, env.emptyObject, 0, 0)
    ensures Invoke(env, origin, fuel, w, ConstructorCall(target, id), None)
         == (World(SetHead(w.actors, id, env.cidOf(AddressObj(target))), Put(env, w.states, AddressObj(target))),
             Returned(Empty, ExitOk))
  {
    var call := ConstructorCall(target, id);
    var info := CallInfo(origin, call, None, w.actors[id]);
    assert Dispatch(env, info) == Runs(AccountConstructor(info, target));
    var w1 := World(SetHead(w.actors, id, env.cidOf(AddressObj(target))), Put(env, w.states, AddressObj(target)));
    assert Run(env, info, fuel - 2, w1, true, Return(Empty)) == Done(w1, (Empty, true));
    assert Run(env, info, fuel - 1, w, true, AccountConstructor(info, target)) == Done(w1, (Empty, true));
    assert Deliver(env, info, fuel - 1, w) == Done(w1, Empty);
    assert ResolveTarget(env, origin, fuel - 1, w, ID(id)) == Done(w, (w.actors[id], ID(id)));
  }

  /** Resolving twice: the second time finds the account the first one made, and creates nothing. */
  lemma ResolvedStaysResolved(env: Env, origin: Address, fuel: nat, again: nat, w: World, target: Address)
    requires StandardAccounts(env) && CidsDistinct(env) && NeedsAccount(w, target) && ACCOUNT_FUEL <= fuel
    requires InitStateOf(w).value.nextId !in w.actors
    ensures var s := ResolveTarget(env, origin, fuel, w, target);
            s.Done? && Normalize(s.w, target) == Mapped(s.v.1) && ResolveTarget(env, origin, again, s.w, target) == s
  {
    hide ResolveTarget, StandardAccounts;
    AccountCreatedExactly(env, origin, fuel, w, target);
    var init := InitStateOf(w).value;
    var w' := WithAccount(env, w, target, init);
    assert env.cidOf(AddMapping(init, target)) != env.cidOf(AddressObj(target));
    assert InitStateOf(w') == Some(AddMapping(init, target));
    ResolvedTwice(env, origin, again, w', target);
  }

  lemma ResolvedTwice(env: Env, origin: Address, fuel: nat, w: World, target: Address)
    requires INIT_ACTOR.id in w.actors && InitStateOf(w).Some? && InitStateOf(w).value.InitState?
    requires target.HasKey() && target in InitStateOf(w).value.addressMap
    requires InitStateOf(w).value.addressMap[target] in w.actors
    ensures var id := InitStateOf(w).value.addressMap[target];
            ResolveTarget(env, origin, fuel, w, target) == Done(w, (w.actors[id], ID(id)))
  {
    hide CreateAccount;
  }

  // ----- a transfer of funds from the top level -----

  /** Where the funds of a message end up, None when its target cannot be resolved. */
  ghost function Destination(env: Env, w: World, target: Address): Option<(World, nat)> {
    if NeedsAccount(w, target) then
      var init := InitStateOf(w).value;
      if init.nextId in w.actors then None
      else Some((WithAccount(env, w, target, init), init.nextId))
    else
      match ResolveTarget(env, target, 0, w, target)
      case Done(_, v) => if v.1.ID? then Some((w, v.1.id)) else None
      case Fail(_, _) => None
  }

  lemma DestinationResolves(env: Env, origin: Address, fuel: nat, w: World, target: Address)
    requires StandardAccounts(env) && ACCOUNT_FUEL <= fuel
    ensures var s := ResolveTarget(env, origin, fuel, w, target);
            match Destination(env, w, target)
            case None => s.Fail? && s.why != Abort(ExitOk)
            case Some((w', id)) => id in w'.actors && s == Done(w', (w'.actors[id], ID(id)))
    ensures match Destination(env, w, target)
            case None => true
            case Some((w', _)) =>
              forall k :: k in w.actors ==> k in w'.actors && w'.actors[k].balance == w.actors[k].balance
  {
    if NeedsAccount(w, target) {
      hide ResolveTarget, StandardAccounts;
      AccountCreatedExactly(env, origin, fuel, w, target);
    } else {
      hide CreateAccount, WithAccount;
      ResolvingOnlyReads(env, origin, fuel, w, target);
      ResolvingOnlyReads(env, target, 0, w, target);
    }
  }

  /**
   * At top level the cached sender balance and the stored one agree when they are checked, whatever
   * method is called: a negative value and an excessive one are aborts, nothing else about the funds can
   * go wrong, and otherwise the message comes to what its method comes to from the world with the funds
   * moved.
   */
  lemma TopLevelFunds(env: Env, fuel: nat, w: World, msg: Message)
    requires StandardAccounts(env) && ACCOUNT_FUEL < fuel
    requires Normalize(w, msg.from).Mapped? && Present(w.actors, Normalize(w, msg.from).addr)
    ensures
      var from := Normalize(w, msg.from).addr.id;
      var w1 := World(BumpNonce(w.actors, from), w.states);
      var (w', reply) := ApplyMessage(env, fuel, w, msg);
      match Destination(env, w1, msg.to)
      case None => w'.actors == w1.actors && reply != Applied(Returned(Empty, ExitOk))
      case Some((w2, to)) =>
        && from in w2.actors && to in w2.actors
        && if msg.value < 0 then
             w'.actors == w1.actors && reply == Applied(Returned(Empty, SysErrForbidden))
           else if 0 < msg.value && w.actors[from].balance < msg.value then
             w'.actors == w1.actors && reply == Applied(Returned(Empty, SysErrInsufficientFunds))
           else
             var (w3, info) := (Moved(w2, from, to, msg.value), InfoAfterMove(w, w2, from, to, msg));
             (w', reply) == Topped(Conclude(w1, Deliver(env, info, fuel - 1, w3)))
  {
    hide StandardAccounts, Destination, ResolveTarget, Execute, Deliver;
    var from := Normalize(w, msg.from).addr;
    var w1 := World(BumpNonce(w.actors, from.id), w.states);
    DestinationResolves(env, from, fuel - 1, w1, msg.to);
    var call := Call(from, msg.to, msg.value, msg.methodNum, msg.params);
    FundingDecides(env, from, fuel - 1, w1, call, w.actors[from.id]);
    var destination := Destination(env, w1, msg.to);
    if destination.Some? && (msg.value == 0 || 0 < msg.value <= w.actors[from.id].balance) {
      var (w2, to) := destination.value;
      FundsMove(w2, from.id, to, msg.value, w.actors[from.id]);
    }
  }

  lemma FundsMove(w: World, from: nat, to: nat, value: int, cached: Actor)
    requires from in w.actors && to in w.actors && cached.balance == w.actors[from].balance
    requires value == 0 || 0 < value <= cached.balance
    ensures var sender := if value == 0 then cached else w.actors[from].(balance := w.actors[from].balance - value);
            Fund(w, ID(from), ID(to), value, Some(cached), w.actors[to])
            == Done(Moved(w, from, to, value), (Moved(w, from, to, value).actors[to], Some(sender)))
  {
    if value == 0 {
      assert Move(w.actors, from, to, 0) == w.actors;
    }
  }

  /** The world once the funds of a message have moved. */
  function Moved(w: World, from: nat, to: nat, value: int): World
    requires from in w.actors && to in w.actors
  {
    World(Move(w.actors, from, to, value), w.states)
  }

  /** What the method of a top-level message is told: the records as they were when the funds moved. */
  function InfoAfterMove(w: World, w2: World, from: nat, to: nat, msg: Message): CallInfo
    requires from in w.actors && from in w2.actors && to in w2.actors
  {
    var call := Call(ID(from), ID(to), msg.value, msg.methodNum, msg.params);
    var sender := if msg.value == 0 then w.actors[from]
                  else w2.actors[from].(balance := w2.actors[from].balance - msg.value);
    CallInfo(ID(from), call, Some(sender), Moved(w2, from, to, msg.value).actors[to])
  }

  function Topped(r: (World, Reply)): (World, TopReply) {
    (r.0, Applied(r.1))
  }

  /** What goes wrong with the target or with the funds goes wrong with the invocation; then the rest follows. */
  lemma FundingDecides(env: Env, origin: Address, fuel: nat, w: World, call: Call, fromActor: Actor)
    requires call.from.ID?
    ensures var s := Execute(env, origin, fuel, w, call, Some(fromActor));
            match ResolveTarget(env, origin, fuel, w, call.to)
            case Fail(states, why) => s == Fail(states, why)
            case Done(w1, v) =>
              match Fund(w1, call.from, v.1, call.value, Some(fromActor), v.0)
              case Fail(states, why) => s == Fail(states, why)
              case Done(w2, ends) =>
                s == Deliver(env, CallInfo(origin, call.(to := v.1), ends.1, ends.0), fuel, w2)
  {
    hide ResolveTarget, Fund, Deliver;
  }

  /**
   * The whole effect of a top-level transfer. The cached sender balance and the stored one agree,
   * so the outcome is decided by the sender's balance alone and the panics of a transfer are
   * unreachable; the funds move, to the sender itself if need be, and the account is created first.
   */
  lemma PlainTransfer(env: Env, fuel: nat, w: World, msg: Message)
    requires StandardAccounts(env) && ACCOUNT_FUEL < fuel && msg.methodNum == METHOD_SEND
    requires Normalize(w, msg.from).Mapped? && Present(w.actors, Normalize(w, msg.from).addr)
    ensures
      var from := Normalize(w, msg.from).addr.id;
      var w1 := World(BumpNonce(w.actors, from), w.states);
      var (w', reply) := ApplyMessage(env, fuel, w, msg);
      match Destination(env, w1, msg.to)
      case None => w'.actors == w1.actors && reply != Applied(Returned(Empty, ExitOk))
      case Some((w2, to)) =>
        if msg.value < 0 then
          w'.actors == w1.actors && reply == Applied(Returned(Empty, SysErrForbidden))
        else if 0 < msg.value && w.actors[from].balance < msg.value then
          w'.actors == w1.actors && reply == Applied(Returned(Empty, SysErrInsufficientFunds))
        else
          && from in w2.actors && to in w2.actors
          && w' == World(Move(w2.actors, from, to, msg.value), w2.states)
          && reply == Applied(Returned(Empty, ExitOk))
  {
    hide StandardAccounts, Destination, ResolveTarget, Execute;
    var from := Normalize(w, msg.from).addr;
    var w1 := World(BumpNonce(w.actors, from.id), w.states);
    DestinationResolves(env, from, fuel - 1, w1, msg.to);
    var call := Call(from, msg.to, msg.value, METHOD_SEND, msg.params);
    SendExecutes(env, from, fuel - 1, w1, call, w.actors[from.id]);
    var destination := Destination(env, w1, msg.to);
    if msg.value == 0 && destination.Some? {
      var (w2, to) := destination.value;
      assert Move(w2.actors, from.id, to, 0) == w2.actors;
    }
  }

  /** A bare send, once its target is resolved: the checks, in order, and then the move. */
  lemma SendExecutes(env: Env, origin: Address, fuel: nat, w: World, call: Call, fromActor: Actor)
    requires call.methodNum == METHOD_SEND && call.from.ID?
    ensures var resolved := ResolveTarget(env, origin, fuel, w, call.to);
            var s := Execute(env, origin, fuel, w, call, Some(fromActor));
            match resolved
            case Fail(states, why) => s == Fail(states, why)
            case Done(w1, v) =>
              if call.value == 0 then s == Done(w1, Empty)
              else if call.value < 0 then s == Fail(w1.states, Abort(SysErrForbidden))
              else if fromActor.balance < call.value then s == Fail(w1.states, Abort(SysErrInsufficientFunds))
              else if Present(w1.actors, call.from) && Present(w1.actors, v.1)
                   && call.value <= w1.actors[call.from.id].balance
              then s == Done(World(Move(w1.actors, call.from.id, v.1.id, call.value), w1.states), Empty)
              else s == Fail(w1.states, Crash)
  {
    hide ResolveTarget, Run, Dispatch;
  }
}
