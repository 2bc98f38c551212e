/** What every execution keeps: funds, signs, records, nonces, code and stored state. */
module VmInvariants {
  import opened Common
  import opened VmTypes
  import opened VmSemantics

  // ----- total funds -----

  ghost function Total(m: ActorMap): int {
    if m == map[] then 0
    else
      var k :| k in m;
      m[k].balance + Total(m - {k})
  }

  lemma {:induction false} TotalRemove(m: ActorMap, k: nat)
    requires k in m
    ensures Total(m) == m[k].balance + Total(m - {k})
    decreases m.Keys
  {
    var j :| j in m && Total(m) == m[j].balance + Total(m - {j});
    if j != k {
      TotalRemove(m - {j}, k);
      TotalRemove(m - {k}, j);
      assert m - {j} - {k} == m - {k} - {j};
    }
  }

  lemma TotalUpdate(m: ActorMap, k: nat, a: Actor)
    ensures Total(m[k := a]) == Total(m) + a.balance - (if k in m then m[k].balance else 0)
  {
    TotalRemove(m[k := a], k);
    if k in m {
      TotalRemove(m, k);
      assert m[k := a] - {k} == m - {k};
    } else {
      assert m[k := a] - {k} == m;
    }
  }

  lemma TotalMove(m: ActorMap, from: nat, to: nat, amount: int)
    requires from in m && to in m
    ensures Total(Move(m, from, to, amount)) == Total(m)
  {
    if from != to {
      var debited := m[from := m[from].(balance := m[from].balance - amount)];
      TotalUpdate(m, from, debited[from]);
      TotalUpdate(debited, to, m[to].(balance := m[to].balance + amount));
    }
  }

  // ----- the invariant -----

  ghost predicate NonNegative(m: ActorMap) {
    forall k :: k in m ==> 0 <= m[k].balance
  }

  /** No record is lost, and none changes its code or its nonce. */
  ghost predicate KeepsRecords(m: ActorMap, m': ActorMap) {
    forall k :: k in m ==> k in m' && m'[k].code == m[k].code && m'[k].callSeqNum == m[k].callSeqNum
  }

  /** Records that appear are new: never used, running registered code of a kind that may be many. */
  ghost predicate AddsFreshRecords(env: Env, m: ActorMap, m': ActorMap) {
    forall k :: k in m' && k !in m ==>
      m'[k].callSeqNum == 0 && m'[k].code in env.registry && !env.registry[m'[k].code].singleton
  }

  ghost predicate HeadsStored(w: World) {
    forall k :: k in w.actors && w.actors[k].head.Defined() ==> w.actors[k].head in w.states
  }

  /** Every state object is stored under its own CID. */
  ghost predicate Keyed(env: Env, states: StateMap) {
    forall c :: c in states ==> env.cidOf(states[c]) == c
  }

  /** No state goes missing; without collisions none is exchanged for another one either. */
  ghost predicate StatesKept(env: Env, states: StateMap, states': StateMap) {
    && states.Keys <= states'.Keys
    && (CidsDistinct(env) && Keyed(env, states) ==>
          Keyed(env, states') && forall c :: c in states ==> states'[c] == states[c])
  }

  ghost predicate Evolves(env: Env, w: World, w': World) {
    && StatesKept(env, w.states, w'.states)
    && KeepsRecords(w.actors, w'.actors)
    && AddsFreshRecords(env, w.actors, w'.actors)
    && Total(w'.actors) == Total(w.actors)
    && (NonNegative(w.actors) ==> NonNegative(w'.actors))
    && (HeadsStored(w) && env.emptyObject in w.states ==> HeadsStored(w'))
  }

  ghost predicate StepEvolves<T>(env: Env, w: World, s: Step<T>) {
    match s
    case Done(w', _) => Evolves(env, w, w')
    case Fail(states, _) => StatesKept(env, w.states, states)
  }

  lemma EvolvesThen(env: Env, w0: World, w1: World, w2: World)
    requires Evolves(env, w0, w1) && Evolves(env, w1, w2)
    ensures Evolves(env, w0, w2)
  {
    StatesKeptThen(env, w0.states, w1.states, w2.states);
  }

  lemma StatesKeptThen(env: Env, s0: StateMap, s1: StateMap, s2: StateMap)
    requires StatesKept(env, s0, s1) && StatesKept(env, s1, s2)
    ensures StatesKept(env, s0, s2)
  {}

  lemma PutKeeps(env: Env, states: StateMap, obj: Obj)
    ensures StatesKept(env, states, Put(env, states, obj))
  {}

  /** Any step that starts where an evolution ended, and whose own outcome is known. */
  lemma StepThen<T>(env: Env, w0: World, w1: World, s: Step<T>)
    requires Evolves(env, w0, w1) && StepEvolves(env, w1, s)
    ensures StepEvolves(env, w0, s)
  {
    hide Evolves;
    match s {
      case Done(w2, _) => EvolvesThen(env, w0, w1, w2);
      case Fail(states, _) =>
        KeepsStates(env, w0, w1);
        StatesKeptThen(env, w0.states, w1.states, states);
    }
  }

  lemma KeepsStates(env: Env, w: World, w': World)
    requires Evolves(env, w, w')
    ensures StatesKept(env, w.states, w'.states)
  {}

  lemma RollbackEvolves(env: Env, w: World, states: StateMap)
    requires StatesKept(env, w.states, states)
    ensures Evolves(env, w, World(w.actors, states))
  {}

  lemma SetHeadEvolves(env: Env, w: World, id: nat, obj: Obj)
    requires id in w.actors
    ensures Evolves(env, w, World(SetHead(w.actors, id, env.cidOf(obj)), Put(env, w.states, obj)))
  {
    PutKeeps(env, w.states, obj);
    TotalUpdate(w.actors, id, w.actors[id].(head := env.cidOf(obj)));
  }

  lemma PutEvolves(env: Env, w: World, obj: Obj)
    ensures Evolves(env, w, World(w.actors, Put(env, w.states, obj)))
  {
    PutKeeps(env, w.states, obj);
    RollbackEvolves(env, w, Put(env, w.states, obj));
  }

  lemma InitialiseEvolves(env: Env, w: World, receiver: Address, obj: Obj)
    ensures StepEvolves(env, w, InitialiseState(env, w, receiver, obj))
  {
    if Present(w.actors, receiver) {
      SetHeadEvolves(env, w, receiver.id, obj);
    }
  }

  lemma NewActorEvolves(env: Env, w: World, code: Cid, addr: Address)
    ensures StepEvolves(env, w, NewActor(env, w, code, addr))
  {
    if addr.ID? {
      TotalUpdate(w.actors, addr.id, Actor(code, env.emptyObject, 0, 0));
    }
  }

  lemma TransferEvolves(env: Env, w: World, from: Address, to: Address, amount: int)
    ensures StepEvolves(env, w, Transfer(w, from, to, amount))
  {
    hide Total;
    if Transfer(w, from, to, amount).Done? {
      TotalMove(w.actors, from.id, to.id, amount);
    }
  }

  lemma FundEvolves(
      env: Env, w: World, from: Address, to: Address, value: int, fromActor: Option<Actor>,
      toActor: Actor)
    ensures StepEvolves(env, w, Fund(w, from, to, value, fromActor, toActor))
  {
    TransferEvolves(env, w, from, to, value);
  }

  // ----- the induction over executions -----

  lemma {:induction false} InvokeEvolves(
      env: Env, origin: Address, fuel: nat, w: World, call: Call, fromActor: Option<Actor>)
    ensures Evolves(env, w, Invoke(env, origin, fuel, w, call, fromActor).0)
    decreases fuel, 3
  {
    if fuel > 0 {
      ExecuteEvolves(env, origin, fuel - 1, w, call, fromActor);
      var s := Execute(env, origin, fuel - 1, w, call, fromActor);
      if s.Fail? {
        RollbackEvolves(env, w, s.states);
      }
    }
  }

  lemma {:induction false} ExecuteEvolves(
      env: Env, origin: Address, fuel: nat, w: World, call: Call, fromActor: Option<Actor>)
    ensures StepEvolves(env, w, Execute(env, origin, fuel, w, call, fromActor))
    decreases fuel, 2
  {
    hide ResolveTarget, Fund, Run, Dispatch, Evolves;
    var resolved := ResolveTarget(env, origin, fuel, w, call.to);
    ResolveEvolves(env, origin, fuel, w, call.to);
    if call.from.ID? && resolved.Done? {
      var (w1, target) := (resolved.w, resolved.v);
      FundEvolves(env, w1, call.from, target.1, call.value, fromActor, target.0);
      var funded := Fund(w1, call.from, target.1, call.value, fromActor, target.0);
      StepThen(env, w, w1, funded);
      if funded.Done? {
        KeepsStates(env, w, funded.w);
        var info := CallInfo(origin, call.(to := target.1), funded.v.1, funded.v.0);
        var d := Dispatch(env, info);
        if call.methodNum != METHOD_SEND && d.Runs? {
          RunEvolves(env, info, fuel, funded.w, true, d.program);
          StepThen(env, w, funded.w, Run(env, info, fuel, funded.w, true, d.program));
        }
      }
    }
  }

  lemma {:induction false} ResolveEvolves(env: Env, origin: Address, fuel: nat, w: World, target: Address)
    ensures StepEvolves(env, w, ResolveTarget(env, origin, fuel, w, target))
    decreases fuel, 1
  {
    hide CreateAccount, Evolves;
    RollbackEvolves(env, w, w.states);
    var init := InitStateOf(w);
    if init.Some? && init.value.InitState? {
      CreateAccountEvolves(env, origin, fuel, w, target, init.value);
    }
  }

  /** The account record and mapping are in place just before the constructor is called. */
  lemma EntryEvolves(env: Env, w: World, target: Address, init: Obj)
    requires INIT_ACTOR.id in w.actors && init.InitState?
    ensures StepEvolves(env, w, EnterAccount(env, w, target, init))
  {
    var init' := AddMapping(init, target);
    var w1 := World(SetHead(w.actors, INIT_ACTOR.id, env.cidOf(init')), Put(env, w.states, init'));
    SetHeadEvolves(env, w, INIT_ACTOR.id, init');
    NewActorEvolves(env, w1, env.accountCode, ID(init.nextId));
    var created := NewActor(env, w1, env.accountCode, ID(init.nextId));
    if created.Done? {
      EvolvesThen(env, w, w1, created.w);
    }
  }

  lemma {:induction false} CreateAccountEvolves(
      env: Env, origin: Address, fuel: nat, w: World, target: Address, init: Obj)
    requires INIT_ACTOR.id in w.actors && init.InitState?
    ensures StepEvolves(env, w, CreateAccount(env, origin, fuel, w, target, init))
    decreases fuel, 0
  {
    hide Invoke, EnterAccount, Evolves;
    EntryEvolves(env, w, target, init);
    var entered := EnterAccount(env, w, target, init);
    if entered.Done? {
      KeepsStates(env, w, entered.w);
    }
    if entered.Done? && fuel > 0 {
      InvokeEvolves(env, origin, fuel - 1, entered.w, ConstructorCall(target, init.nextId), None);
      var (w3, _) := Invoke(env, origin, fuel - 1, entered.w, ConstructorCall(target, init.nextId), None);
      EvolvesThen(env, w, entered.w, w3);
      KeepsStates(env, w, w3);
    }
  }

  lemma {:induction false} RunEvolves(env: Env, info: CallInfo, fuel: nat, w: World, allowed: bool, p: Program)
    ensures StepEvolves(env, w, Run(env, info, fuel, w, allowed, p))
    decreases fuel, 0
  {
    hide DoSend, Transact, Perform, Evolves;
    if fuel > 0 {
      match p {
        case Return(_) => RollbackEvolves(env, w, w.states);
        case AbortWith(_) =>
        case PanicNow =>
        case DeleteActor(_) =>
        case Send(to, methodNum, value, params, accepts, next) =>
          var call := Call(info.call.to, to, value, methodNum, params);
          SendEvolves(env, info, fuel - 1, w, allowed, call, accepts);
          var s := DoSend(env, info, fuel - 1, w, allowed, call, accepts);
          if s.Done? {
            ThenRunEvolves(env, info, fuel - 1, w, s.w, allowed, next(s.v.0, s.v.1));
          }
        case StateTransaction(body, next) =>
          TransactEvolves(env, info, fuel - 1, w, body);
          var s := Transact(env, info, fuel - 1, w, body);
          if s.Done? {
            ThenRunEvolves(env, info, fuel - 1, w, s.w, true, next(s.v));
          }
        case _ =>
          PerformEvolves(env, w, info.call.to, p);
          var s := Perform(env, w, info.call.to, p);
          if s.Done? {
            ThenRunEvolves(env, info, fuel - 1, w, s.w, allowed, s.v);
          }
      }
    }
  }

  lemma PerformEvolves(env: Env, w: World, receiver: Address, p: Program)
    requires p.Local()
    ensures StepEvolves(env, w, Perform(env, w, receiver, p))
  {
    hide NewActor, InitialiseState, Normalize, Put, Evolves;
    RollbackEvolves(env, w, w.states);
    match p {
      case CreateActor(code, addr, _) => NewActorEvolves(env, w, code, addr);
      case StateCreate(obj, _) => InitialiseEvolves(env, w, receiver, obj);
      case StorePut(obj, _) => PutEvolves(env, w, obj);
      case _ =>
    }
  }

  /** One evolution followed by a run. */
  lemma {:induction false} ThenRunEvolves(
      env: Env, info: CallInfo, fuel: nat, w: World, w1: World, allowed: bool, p: Program)
    requires Evolves(env, w, w1)
    ensures StepEvolves(env, w, Run(env, info, fuel, w1, allowed, p))
    decreases fuel, 1
  {
    RunEvolves(env, info, fuel, w1, allowed, p);
    StepThen(env, w, w1, Run(env, info, fuel, w1, allowed, p));
  }

  lemma {:induction false} SendEvolves(
      env: Env, info: CallInfo, fuel: nat, w: World, allowed: bool, call: Call, accepts: Obj -> bool)
    ensures StepEvolves(env, w, DoSend(env, info, fuel, w, allowed, call, accepts))
    decreases fuel, 4
  {
    InvokeEvolves(env, info.origin, fuel, w, call, Some(info.toActor));
  }

  lemma {:induction false} TransactEvolves(env: Env, info: CallInfo, fuel: nat, w: World, body: Obj -> Program)
    ensures StepEvolves(env, w, Transact(env, info, fuel, w, body))
    decreases fuel, 1
  {
    var loaded := LoadState(w, info.call.to);
    if loaded.Done? {
      RunEvolves(env, info, fuel, w, false, body(loaded.v));
      var ran := Run(env, info, fuel, w, false, body(loaded.v));
      if ran.Done? {
        SetHeadEvolves(env, ran.w, info.call.to.id, ran.v.0);
        EvolvesThen(env, w, ran.w, World(SetHead(ran.w.actors, info.call.to.id, env.cidOf(ran.v.0)),
                                         Put(env, ran.w.states, ran.v.0)));
      }
    }
  }
}
