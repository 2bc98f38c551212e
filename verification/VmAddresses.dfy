/**
 * The address map over whole runs: if the Init actor's own transactions only ever extend it, nothing
 * any actor does, no failure and no implicit creation ever takes a mapping away or changes one.
 */
module VmAddresses {
  import opened Common
  import opened VmTypes
  import opened VmSemantics
  import opened VmInvariants
  import opened VmAccounting
  import opened VmAccounts
  import opened VmTransactions

  /** Which code is the Init actor's, and which addresses are to keep their mappings: all with a key at least. */
  datatype Rule = Rule(code: Cid, tracked: Address -> bool)

  ghost predicate TracksKeys(rule: Rule) {
    forall a: Address :: a.HasKey() ==> rule.tracked(a)
  }

  /** The second state has all tracked mappings of the first. */
  ghost predicate Extends(rule: Rule, o: Obj, o': Obj) {
    o.InitState? ==>
      && o'.InitState?
      && forall a :: a in o.addressMap && rule.tracked(a) ==>
           a in o'.addressMap && o'.addressMap[a] == o.addressMap[a]
  }

  /** A transaction body that opens no other transaction and returns an extension of what it was given. */
  ghost predicate ExtendingBody(rule: Rule, body: Obj -> Program) {
    forall obj, steps: nat :: Throughout(steps, body(obj), Extending(rule, obj))
  }

  ghost function Extending(rule: Rule, obj: Obj): Program -> bool {
    (c: Program) => !c.StateTransaction? && (c.Return? ==> Extends(rule, obj, c.ret))
  }

  ghost function InitCommand(rule: Rule): Program -> bool {
    (c: Program) => c.StateTransaction? ==> ExtendingBody(rule, c.body)
  }

  /** All transactions in the methods of the Init actor's code are of that kind. */
  ghost predicate InitOnlyExtends(env: Env, rule: Rule) {
    forall n: nat, info: CallInfo, params: Obj, steps: nat ::
      rule.code in env.registry && n < |env.registry[rule.code].exports| && env.registry[rule.code].exports[n].Some?
      && env.registry[rule.code].exports[n].value(info, params).Some?
      ==> Throughout(steps, env.registry[rule.code].exports[n].value(info, params).value, InitCommand(rule))
  }

  /** Hashes as they should be. */
  ghost predicate SoundCids(env: Env) {
    && CidsDistinct(env) && env.emptyObject == env.cidOf(Empty)
    && forall o :: env.cidOf(o).Defined()
  }

  ghost predicate Good(env: Env, rule: Rule, w: World) {
    && SoundCids(env) && Keyed(env, w.states) && TracksKeys(rule) && InitOnlyExtends(env, rule)
    && INIT_ACTOR.id in w.actors && w.actors[INIT_ACTOR.id].code == rule.code
    && InitStateOf(w).Some? && InitStateOf(w).value.InitState?
  }

  /** The Init actor is as it should be, before and after, and no mapping is lost or changed. */
  ghost predicate Grows(env: Env, rule: Rule, w: World, w': World) {
    && Good(env, rule, w) && Good(env, rule, w')
    && Extends(rule, InitStateOf(w).value, InitStateOf(w').value)
  }

  ghost predicate StepGrows<T>(env: Env, rule: Rule, w: World, s: Step<T>) {
    s.Done? ==> Grows(env, rule, w, s.w)
  }

  lemma GrowsThen(env: Env, rule: Rule, w0: World, w1: World, w2: World)
    requires Grows(env, rule, w0, w1) && Grows(env, rule, w1, w2)
    ensures Grows(env, rule, w0, w2)
  {
    hide SoundCids, InitOnlyExtends, Keyed, InitStateOf;
  }

  lemma GrowsIsGood(env: Env, rule: Rule, w: World, w': World)
    requires Grows(env, rule, w, w')
    ensures Good(env, rule, w')
  {}

  /** Whoever leaves the Init actor's head alone leaves the map alone. */
  lemma SameHeadGrows(env: Env, rule: Rule, w: World, w': World)
    requires Good(env, rule, w) && Evolves(env, w, w')
    requires INIT_ACTOR.id in w'.actors && w'.actors[INIT_ACTOR.id].head == w.actors[INIT_ACTOR.id].head
    ensures Grows(env, rule, w, w')
  {
    hide InitOnlyExtends, Total, NonNegative, HeadsStored, AddsFreshRecords;
  }

  lemma RollbackGrows(env: Env, rule: Rule, w: World, states: StateMap)
    requires Good(env, rule, w) && StatesKept(env, w.states, states)
    ensures Grows(env, rule, w, World(w.actors, states))
  {
    hide InitOnlyExtends, Evolves, Grows;
    RollbackEvolves(env, w, states);
    SameHeadGrows(env, rule, w, World(w.actors, states));
  }

  lemma SameWorldGrows(env: Env, rule: Rule, w: World)
    requires Good(env, rule, w)
    ensures Grows(env, rule, w, w)
  {
    RollbackGrows(env, rule, w, w.states);
  }

  /** A good Init actor has a state, so nobody can initialise it again. */
  lemma GoodIsInitialised(env: Env, rule: Rule, w: World)
    requires Good(env, rule, w)
    ensures Initialised(env, w, INIT_ACTOR)
    ensures w.states[w.actors[INIT_ACTOR.id].head] == InitStateOf(w).value
  {
    hide InitOnlyExtends;
    var head := w.actors[INIT_ACTOR.id].head;
    assert env.cidOf(w.states[head]) == head;
  }

  // ----- one step at a time -----

  lemma FundGrows(
      env: Env, rule: Rule, w: World, from: Address, to: Address, value: int,
      fromActor: Option<Actor>, toActor: Actor)
    requires Good(env, rule, w)
    ensures StepGrows(env, rule, w, Fund(w, from, to, value, fromActor, toActor))
  {
    hide Grows, Evolves, InitOnlyExtends;
    FundEvolves(env, w, from, to, value, fromActor, toActor);
    var s := Fund(w, from, to, value, fromActor, toActor);
    if s.Done? {
      SameHeadGrows(env, rule, w, s.w);
    }
  }

  lemma PerformGrows(env: Env, rule: Rule, w: World, receiver: Address, p: Program)
    requires p.Local() && Good(env, rule, w)
    ensures StepGrows(env, rule, w, Perform(env, w, receiver, p))
  {
    hide Evolves, Good, Grows;
    PerformEvolves(env, w, receiver, p);
    GoodIsInitialised(env, rule, w);
    var s := Perform(env, w, receiver, p);
    if s.Done? {
      PerformKeepsInit(env, w, receiver, p);
      SameHeadGrows(env, rule, w, s.w);
    }
  }

  lemma PerformKeepsInit(env: Env, w: World, receiver: Address, p: Program)
    requires p.Local() && Initialised(env, w, INIT_ACTOR) && Perform(env, w, receiver, p).Done?
    ensures var w' := Perform(env, w, receiver, p).w;
            Present(w'.actors, INIT_ACTOR) && w'.actors[INIT_ACTOR.id].head == w.actors[INIT_ACTOR.id].head
  {
    hide LoadState, Normalize, CodeOf, Put;
  }

  /** Adding a mapping for an address that has none. */
  lemma EntryGrows(env: Env, rule: Rule, w: World, target: Address, init: Obj)
    requires Good(env, rule, w) && InitStateOf(w) == Some(init) && target !in init.addressMap
    ensures var s := EnterAccount(env, w, target, init);
            StepGrows(env, rule, w, s) && (s.Done? ==> InitStateOf(s.w) == Some(AddMapping(init, target)))
  {
    hide InitOnlyExtends;
    PutKeeps(env, w.states, AddMapping(init, target));
  }

  // ----- transactions -----

  /** A run under the lock ends with a result that some command within its bounds returned. */
  lemma {:induction false} LockedRunReturns(
      env: Env, info: CallInfo, fuel: nat, w: World, p: Program, ok: Program -> bool)
    requires Throughout(fuel, p, ok) && forall c: Program :: ok(c) ==> !c.StateTransaction?
    ensures var s := Run(env, info, fuel, w, false, p);
            s.Done? ==> ok(Return(s.v.0))
    ensures !Opens(env, info, fuel, w, p)
    decreases fuel
  {
    hide Perform;
    if fuel > 0 && p.Local() {
      var s := Perform(env, w, info.call.to, p);
      if s.Done? {
        AnswersThroughout(env, w, info.call.to, fuel, p, ok);
        LockedRunReturns(env, info, fuel - 1, s.w, s.v, ok);
      }
    }
  }

  /** The Init actor's own transactions. */
  lemma InitTransactGrows(env: Env, rule: Rule, info: CallInfo, fuel: nat, w: World, body: Obj -> Program)
    requires Good(env, rule, w) && info.call.to == INIT_ACTOR && ExtendingBody(rule, body)
    ensures StepGrows(env, rule, w, Transact(env, info, fuel, w, body))
  {
    hide Run, Opens, Throughout, Evolves, OnlyAdds, InitOnlyExtends, Keyed;
    var s := Transact(env, info, fuel, w, body);
    TransactEvolves(env, info, fuel, w, body);
    if s.Done? {
      GoodIsInitialised(env, rule, w);
      var init := InitStateOf(w).value;
      LockedRunReturns(env, info, fuel, w, body(init), Extending(rule, init));
      MappingsAreNotOverwritten(env, info, fuel, w, body);
      assert Extends(rule, init, s.v);
      ReplacedIsGood(env, rule, w, s.w);
    }
  }

  lemma ReplacedIsGood(env: Env, rule: Rule, w: World, w': World)
    requires Good(env, rule, w) && Evolves(env, w, w')
    requires InitStateOf(w').Some? && InitStateOf(w').value.InitState?
    ensures Good(env, rule, w')
  {
    hide InitOnlyExtends, Total, NonNegative, HeadsStored, AddsFreshRecords;
  }

  // ----- the induction over executions -----

  /** A resolved target is the stored record. */
  lemma ResolvedRecord(env: Env, origin: Address, fuel: nat, w: World, target: Address)
    ensures var s := ResolveTarget(env, origin, fuel, w, target);
            s.Done? ==> s.v.1.ID? && s.v.1.id in s.w.actors && s.v.0 == s.w.actors[s.v.1.id]
  {
    hide CreateAccount;
    if NeedsAccount(w, target) {
      CreatedAccount(env, origin, fuel, w, target, InitStateOf(w).value);
    } else {
      ResolvingOnlyReads(env, origin, fuel, w, target);
    }
  }

  /** Only the Init actor's code is run on the Init actor. */
  lemma InitRunsItsCode(
      env: Env, rule: Rule, info: CallInfo, steps: nat)
    requires InitOnlyExtends(env, rule) && info.toActor.code == rule.code && Dispatch(env, info).Runs?
    ensures Throughout(steps, Dispatch(env, info).program, InitCommand(rule))
  {
    hide Throughout;
  }

  /** On the Init actor, the program is one of those its code may run. */
  ghost predicate Expected(rule: Rule, info: CallInfo, steps: nat, p: Program) {
    info.call.to == INIT_ACTOR ==> Throughout(steps, p, InitCommand(rule))
  }

  lemma {:induction false} InvokeGrows(
      env: Env, rule: Rule, origin: Address, fuel: nat, w: World, call: Call, fromActor: Option<Actor>)
    requires Good(env, rule, w)
    ensures Grows(env, rule, w, Invoke(env, origin, fuel, w, call, fromActor).0)
    decreases fuel, 3
  {
    hide Good, Grows, Execute, StatesKept;
    SameWorldGrows(env, rule, w);
    if fuel > 0 {
      ExecuteGrows(env, rule, origin, fuel - 1, w, call, fromActor);
      ExecuteEvolves(env, origin, fuel - 1, w, call, fromActor);
      var s := Execute(env, origin, fuel - 1, w, call, fromActor);
      if s.Fail? {
        RollbackGrows(env, rule, w, s.states);
      }
    }
  }

  lemma {:induction false} ExecuteGrows(
      env: Env, rule: Rule, origin: Address, fuel: nat, w: World, call: Call, fromActor: Option<Actor>)
    requires Good(env, rule, w)
    ensures StepGrows(env, rule, w, Execute(env, origin, fuel, w, call, fromActor))
    ensures Execute(env, origin, fuel, w, call, fromActor).Done? ==>
      var resolved := ResolveTarget(env, origin, fuel, w, call.to);
      resolved.Done? && Grows(env, rule, resolved.w, Execute(env, origin, fuel, w, call, fromActor).w)
    decreases fuel, 2
  {
    hide ResolveTarget, Fund, Run, Dispatch, Good, Grows;
    ResolveGrows(env, rule, origin, fuel, w, call.to);
    ResolvedRecord(env, origin, fuel, w, call.to);
    var resolved := ResolveTarget(env, origin, fuel, w, call.to);
    if call.from.ID? && resolved.Done? {
      var (w1, target) := (resolved.w, resolved.v);
      GrowsIsGood(env, rule, w, w1);
      FundGrows(env, rule, w1, call.from, target.1, call.value, fromActor, target.0);
      var funded := Fund(w1, call.from, target.1, call.value, fromActor, target.0);
      if funded.Done? {
        var info := CallInfo(origin, call.(to := target.1), funded.v.1, funded.v.0);
        var d := Dispatch(env, info);
        if call.methodNum != METHOD_SEND && d.Runs? {
          ProgramIsExpected(env, rule, w1, info, call.from, target.0, fromActor, fuel);
          ThenRunGrows(env, rule, info, fuel, w1, funded.w, true, d.program);
        }
        assert StepGrows(env, rule, w1, Deliver(env, info, fuel, funded.w));
      }
      var s := Execute(env, origin, fuel, w, call, fromActor);
      if s.Done? {
        GrowsThen(env, rule, w, w1, s.w);
      }
    }
  }

  lemma ProgramIsExpected(
      env: Env, rule: Rule, w: World, info: CallInfo, from: Address, toActor: Actor,
      fromActor: Option<Actor>, fuel: nat)
    requires Good(env, rule, w) && info.call.to.ID? && info.call.to.id in w.actors
    requires toActor == w.actors[info.call.to.id] && Dispatch(env, info).Runs?
    requires var funded := Fund(w, from, info.call.to, info.call.value, fromActor, toActor);
             funded.Done? && info.toActor == funded.v.0
    ensures Expected(rule, info, fuel, Dispatch(env, info).program)
  {
    hide Throughout, InitOnlyExtends, Dispatch;
    if info.call.to == INIT_ACTOR {
      InitRunsItsCode(env, rule, info, fuel);
    }
  }

  lemma {:induction false} ResolveGrows(
      env: Env, rule: Rule, origin: Address, fuel: nat, w: World, target: Address)
    requires Good(env, rule, w)
    ensures StepGrows(env, rule, w, ResolveTarget(env, origin, fuel, w, target))
    decreases fuel, 1
  {
    hide CreateAccount, Good, Grows;
    if NeedsAccount(w, target) {
      CreateAccountGrows(env, rule, origin, fuel, w, target);
    } else {
      ResolvingOnlyReads(env, origin, fuel, w, target);
      SameWorldGrows(env, rule, w);
    }
  }

  /** The new mapping is there when the constructor has run, whatever the constructor did. */
  lemma {:induction false} CreateAccountGrows(
      env: Env, rule: Rule, origin: Address, fuel: nat, w: World, target: Address)
    requires Good(env, rule, w) && NeedsAccount(w, target)
    ensures var init := InitStateOf(w).value;
            var s := CreateAccount(env, origin, fuel, w, target, init);
            StepGrows(env, rule, w, s)
            && (s.Done? ==> InitStateOf(s.w).Some? && Extends(rule, AddMapping(init, target), InitStateOf(s.w).value))
    decreases fuel, 0
  {
    hide Invoke, EnterAccount, SoundCids, InitOnlyExtends, Keyed, Extends;
    var init := InitStateOf(w).value;
    EntryGrows(env, rule, w, target, init);
    var entered := EnterAccount(env, w, target, init);
    if entered.Done? && fuel > 0 {
      var call := ConstructorCall(target, init.nextId);
      InvokeGrows(env, rule, origin, fuel - 1, entered.w, call, None);
      GrowsThen(env, rule, w, entered.w, Invoke(env, origin, fuel - 1, entered.w, call, None).0);
    }
  }

  lemma {:induction false} RunGrows(
      env: Env, rule: Rule, info: CallInfo, fuel: nat, w: World, allowed: bool, p: Program)
    requires Good(env, rule, w) && Expected(rule, info, fuel, p)
    ensures StepGrows(env, rule, w, Run(env, info, fuel, w, allowed, p))
    decreases fuel, 0
  {
    hide DoSend, Transact, Perform, Good, Grows, ExtendingBody;
    if fuel > 0 {
      match p {
        case Return(_) => SameWorldGrows(env, rule, w);
        case AbortWith(_) =>
        case PanicNow =>
        case DeleteActor(_) =>
        case Send(to, methodNum, value, params, accepts, next) =>
          var call := Call(info.call.to, to, value, methodNum, params);
          SendGrows(env, rule, info, fuel - 1, w, allowed, call, accepts);
          var s := DoSend(env, info, fuel - 1, w, allowed, call, accepts);
          if s.Done? {
            ThenRunGrows(env, rule, info, fuel - 1, w, s.w, allowed, next(s.v.0, s.v.1));
          }
        case StateTransaction(body, next) =>
          TransactGrows(env, rule, info, fuel - 1, w, body);
          var s := Transact(env, info, fuel - 1, w, body);
          if s.Done? {
            ThenRunGrows(env, rule, info, fuel - 1, w, s.w, true, next(s.v));
          }
        case _ =>
          LocalGrows(env, rule, info, fuel, w, allowed, p);
      }
    }
  }

  lemma {:induction false} LocalGrows(
      env: Env, rule: Rule, info: CallInfo, fuel: nat, w: World, allowed: bool, p: Program)
    requires Good(env, rule, w) && Expected(rule, info, fuel, p) && p.Local() && fuel > 0
    ensures StepGrows(env, rule, w, Run(env, info, fuel, w, allowed, p))
    decreases fuel - 1, 2
  {
    hide Perform, Good, Grows, Throughout;
    PerformGrows(env, rule, w, info.call.to, p);
    var s := Perform(env, w, info.call.to, p);
    if s.Done? {
      if info.call.to == INIT_ACTOR {
        AnswersThroughout(env, w, info.call.to, fuel, p, InitCommand(rule));
      }
      ThenRunGrows(env, rule, info, fuel - 1, w, s.w, allowed, s.v);
    }
  }

  lemma {:induction false} ThenRunGrows(
      env: Env, rule: Rule, info: CallInfo, fuel: nat, w: World, w1: World, allowed: bool, p: Program)
    requires Grows(env, rule, w, w1) && Expected(rule, info, fuel, p)
    ensures StepGrows(env, rule, w, Run(env, info, fuel, w1, allowed, p))
    decreases fuel, 1
  {
    hide Run, Good, Grows, Expected;
    GrowsIsGood(env, rule, w, w1);
    RunGrows(env, rule, info, fuel, w1, allowed, p);
    var s := Run(env, info, fuel, w1, allowed, p);
    if s.Done? {
      GrowsThen(env, rule, w, w1, s.w);
    }
  }

  lemma {:induction false} SendGrows(
      env: Env, rule: Rule, info: CallInfo, fuel: nat, w: World, allowed: bool, call: Call, accepts: Obj -> bool)
    requires Good(env, rule, w)
    ensures StepGrows(env, rule, w, DoSend(env, info, fuel, w, allowed, call, accepts))
    decreases fuel, 4
  {
    hide Invoke, Good, Grows;
    InvokeGrows(env, rule, info.origin, fuel, w, call, Some(info.toActor));
  }

  lemma {:induction false} TransactGrows(
      env: Env, rule: Rule, info: CallInfo, fuel: nat, w: World, body: Obj -> Program)
    requires Good(env, rule, w) && (info.call.to == INIT_ACTOR ==> ExtendingBody(rule, body))
    ensures StepGrows(env, rule, w, Transact(env, info, fuel, w, body))
    decreases fuel, 1
  {
    hide Run, SoundCids, InitOnlyExtends, Keyed, Evolves, ExtendingBody;
    if info.call.to == INIT_ACTOR {
      InitTransactGrows(env, rule, info, fuel, w, body);
    } else {
      var loaded := LoadState(w, info.call.to);
      if loaded.Done? {
        RunGrows(env, rule, info, fuel, w, false, body(loaded.v));
        var ran := Run(env, info, fuel, w, false, body(loaded.v));
        var s := Transact(env, info, fuel, w, body);
        if s.Done? {
          SetHeadEvolves(env, ran.w, info.call.to.id, ran.v.0);
          SameHeadGrows(env, rule, ran.w, s.w);
          GrowsThen(env, rule, w, ran.w, s.w);
        }
      }
    }
  }

  // ----- what it comes to -----

  /**
   * What implicit creation promises an address for good: once a message to an unowned key address has
   * ended Ok, the address is mapped to the ID that was next, whatever constructor and method did.
   */
  lemma CreatedAddressIsMapped(
      env: Env, rule: Rule, origin: Address, fuel: nat, w: World, call: Call, fromActor: Option<Actor>)
    requires Good(env, rule, w) && NeedsAccount(w, call.to)
    ensures var s := Execute(env, origin, fuel, w, call, fromActor);
            var init := InitStateOf(w).value;
            s.Done? ==>
              && Good(env, rule, s.w) && Extends(rule, AddMapping(init, call.to), InitStateOf(s.w).value)
              && Normalize(s.w, call.to) == Mapped(ID(init.nextId))
  {
    hide CreateAccount, Execute, SoundCids, InitOnlyExtends, Keyed;
    var init := InitStateOf(w).value;
    CreateAccountGrows(env, rule, origin, fuel, w, call.to);
    ExecuteGrows(env, rule, origin, fuel, w, call, fromActor);
  }

  /** All or nothing, then: an account at a fresh ID with its address mapped to it, or neither. */
  lemma AccountAndMappingOrNeither(
      env: Env, rule: Rule, origin: Address, fuel: nat, w: World, call: Call, fromActor: Option<Actor>)
    requires Good(env, rule, w) && NeedsAccount(w, call.to)
    ensures var (w', reply) := Invoke(env, origin, fuel, w, call, fromActor);
            var id := InitStateOf(w).value.nextId;
            || (w'.actors == w.actors && NeedsAccount(w', call.to))
            || (&& reply.Returned? && reply.code == ExitOk
                && id !in w.actors && id in w'.actors && w'.actors[id].code == env.accountCode
                && Normalize(w', call.to) == Mapped(ID(id)))
  {
    hide Invoke, Execute, Evolves, SoundCids, InitOnlyExtends, Keyed;
    var (w', reply) := Invoke(env, origin, fuel, w, call, fromActor);
    InvokeEvolves(env, origin, fuel, w, call, fromActor);
    InvokeFromExecute(env, origin, fuel, w, call, fromActor);
    if fuel > 0 && Execute(env, origin, fuel - 1, w, call, fromActor).Done? {
      ExecuteCreatesAccount(env, origin, fuel - 1, w, call, fromActor);
      CreatedAddressIsMapped(env, rule, origin, fuel - 1, w, call, fromActor);
    } else {
      SameActorsSameMap(env, rule, w, w');
    }
  }

  lemma SameActorsSameMap(env: Env, rule: Rule, w: World, w': World)
    requires Good(env, rule, w) && Evolves(env, w, w') && w'.actors == w.actors
    ensures InitStateOf(w') == InitStateOf(w)
  {
    hide InitOnlyExtends, Total, NonNegative, HeadsStored, AddsFreshRecords;
  }

  lemma MessageGrows(env: Env, rule: Rule, fuel: nat, w: World, msg: Message)
    requires Good(env, rule, w)
    ensures Grows(env, rule, w, ApplyMessage(env, fuel, w, msg).0)
  {
    hide Invoke, InitOnlyExtends, SoundCids, Keyed;
    SameWorldGrows(env, rule, w);
    var sender := SenderOf(w, msg);
    if sender.Some? {
      var w1 := World(BumpNonce(w.actors, sender.value), w.states);
      var call := Call(ID(sender.value), msg.to, msg.value, msg.methodNum, msg.params);
      assert Grows(env, rule, w, w1);
      InvokeGrows(env, rule, ID(sender.value), fuel, w1, call, Some(w.actors[sender.value]));
      GrowsThen(env, rule, w, w1, ApplyMessage(env, fuel, w, msg).0);
    }
  }

  /**
   * Over any list of messages the address map only grows: through nested sends, aborts and panics,
   * rollbacks and implicit creation, every address that has an ID keeps it.
   */
  lemma {:induction false} AddressesOnlyGrow(env: Env, rule: Rule, fuel: nat, w: World, msgs: seq<Message>)
    requires Good(env, rule, w)
    ensures Grows(env, rule, w, ApplyAll(env, fuel, w, msgs))
    decreases |msgs|
  {
    hide ApplyMessage, Good, Grows;
    SameWorldGrows(env, rule, w);
    if msgs != [] {
      var w1 := ApplyMessage(env, fuel, w, msgs[0]).0;
      MessageGrows(env, rule, fuel, w, msgs[0]);
      GrowsIsGood(env, rule, w, w1);
      AddressesOnlyGrow(env, rule, fuel, w1, msgs[1..]);
      GrowsThen(env, rule, w, w1, ApplyAll(env, fuel, w1, msgs[1..]));
    }
  }
}
