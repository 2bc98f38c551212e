/**
 * A method of the Init actor that creates actors: it maps the address the machine makes up for a new
 * actor. Why keeping the mappings of key addresses is what can be promised, and what happens to others.
 */
module VmExec {
  import opened Common
  import opened VmTypes
  import opened VmSemantics
  import opened VmTransactions
  import opened VmAddresses

  const METHOD_EXEC: uint64 := 2

  /** The transaction: map an address to the next ID, whether it is mapped or not. */
  function MapNew(a: Address): Obj -> Program {
    (obj: Obj) => if obj.InitState? then Return(AddMapping(obj, a)) else PanicNow
  }

  /** Map, then create an actor of the given code at the ID. */
  function ExecProgram(a: Address, code: Cid): Program {
    StateTransaction(MapNew(a), (obj: Obj) => CreateNext(obj, code))
  }

  function CreateNext(obj: Obj, code: Cid): Program {
    if obj.InitState? && obj.nextId > 0
    then CreateActor(code, ID(obj.nextId - 1), Return(AddressObj(ID(obj.nextId - 1))))
    else PanicNow
  }

  // ----- when the rule is kept -----

  /** The transaction extends every state it may be given exactly when the address is one nobody tracks. */
  lemma MapNewExtendsIff(rule: Rule, a: Address)
    ensures ExtendingBody(rule, MapNew(a)) <==> !rule.tracked(a)
  {
    if rule.tracked(a) {
      var obj := InitState(map[a := 1], 0);
      assert AddMapping(obj, a).addressMap[a] == 0;
      assert !Throughout(1, MapNew(a)(obj), Extending(rule, obj));
    }
  }

  /** So the method is one the Init actor may have, if no made-up address is tracked. */
  lemma ExecKeepsRule(rule: Rule, a: Address, code: Cid, steps: nat)
    requires !rule.tracked(a)
    ensures Throughout(steps, ExecProgram(a, code), InitCommand(rule))
  {
    hide ExtendingBody;
    MapNewExtendsIff(rule, a);
    var ok := InitCommand(rule);
    if steps > 0 {
      forall obj
        ensures Throughout(steps - 1, MapNew(a)(obj), ok)
        ensures Throughout(steps - 1, CreateNext(obj, code), ok)
      {
        FirstSteps(obj, a, code, steps - 1, ok);
      }
    }
  }

  lemma FirstSteps(obj: Obj, a: Address, code: Cid, steps: nat, ok: Program -> bool)
    requires forall c: Program :: !c.StateTransaction? ==> ok(c)
    ensures Throughout(steps, MapNew(a)(obj), ok) && Throughout(steps, CreateNext(obj, code), ok)
  {
    var id := ID(if obj.InitState? && obj.nextId > 0 then obj.nextId - 1 else 0);
    assert Throughout(if steps > 0 then steps - 1 else 0, Return(AddressObj(id)), ok);
  }

  /** Every mapping of the first map is in the second. */
  ghost predicate KeepsMappings(o: Obj, o': Obj) {
    o.InitState? && o'.InitState?
    && forall x :: x in o.addressMap ==> x in o'.addressMap && o'.addressMap[x] == o.addressMap[x]
  }

  /** For one address and one state: no mapping changes exactly if it had none, or the one it is given. */
  lemma MapNewKeepsIff(env: Env, info: CallInfo, fuel: nat, w: World, a: Address)
    requires info.call.to == INIT_ACTOR && fuel > 0 && INIT_ACTOR.id in w.actors
    requires w.actors[INIT_ACTOR.id].head.Defined() && InitStateOf(w).Some? && InitStateOf(w).value.InitState?
    ensures var s := Transact(env, info, fuel, w, MapNew(a));
            var init := InitStateOf(w).value;
            && s.Done? && InitStateOf(s.w) == Some(AddMapping(init, a))
            && (KeepsMappings(init, InitStateOf(s.w).value)
                <==> a !in init.addressMap || init.addressMap[a] == init.nextId)
  {
    var init := InitStateOf(w).value;
    assert Run(env, info, fuel, w, false, MapNew(a)(init)) == Done(w, (AddMapping(init, a), false));
    if a in init.addressMap && init.addressMap[a] != init.nextId {
      assert AddMapping(init, a).addressMap[a] == init.nextId;
    }
  }

  // ----- one originator, two actors -----

  /**
   * The Init actor's code runs Exec, with the address made up from the originator alone: the other
   * ingredients of a made-up address never change.
   */
  ghost predicate RunsExec(env: Env, initCode: Cid, newAddress: Address -> Address, code: Cid) {
    && initCode in env.registry && METHOD_EXEC < |env.registry[initCode].exports|
    && env.registry[initCode].exports[METHOD_EXEC].Some?
    && (forall info: CallInfo, params: Obj ::
          env.registry[initCode].exports[METHOD_EXEC].value(info, params)
          == Some(ExecProgram(newAddress(info.origin), code)))
    && code in env.registry && !env.registry[code].singleton
  }

  ghost predicate ReadyForExec(env: Env, w: World, from: nat, newAddress: Address -> Address, code: Cid) {
    && from in w.actors && INIT_ACTOR.id in w.actors && w.actors[INIT_ACTOR.id].head.Defined()
    && InitStateOf(w).Some? && InitStateOf(w).value.InitState?
    && InitStateOf(w).value.nextId !in w.actors
    && RunsExec(env, w.actors[INIT_ACTOR.id].code, newAddress, code)
  }

  function ExecMessage(from: nat, params: Obj): Message {
    Message(ID(from), INIT_ACTOR, 0, METHOD_EXEC, params)
  }

  /** What Exec leaves behind. */
  function AfterExec(env: Env, w: World, a: Address, code: Cid): World
    requires INIT_ACTOR.id in w.actors && InitStateOf(w).Some? && InitStateOf(w).value.InitState?
  {
    var init := InitStateOf(w).value;
    var init' := AddMapping(init, a);
    World(SetHead(w.actors, INIT_ACTOR.id, env.cidOf(init'))[init.nextId := Actor(code, env.emptyObject, 0, 0)],
          Put(env, w.states, init'))
  }

  lemma ExecRuns(env: Env, info: CallInfo, fuel: nat, w: World, a: Address, code: Cid)
    requires info.call.to == INIT_ACTOR && 4 <= fuel && INIT_ACTOR.id in w.actors
    requires w.actors[INIT_ACTOR.id].head.Defined() && InitStateOf(w).Some? && InitStateOf(w).value.InitState?
    requires InitStateOf(w).value.nextId !in w.actors && code in env.registry && !env.registry[code].singleton
    ensures var s := Run(env, info, fuel, w, true, ExecProgram(a, code));
            s.Done? && s.w == AfterExec(env, w, a, code)
  {
    var init := InitStateOf(w).value;
    var init' := AddMapping(init, a);
    assert Run(env, info, fuel - 1, w, false, MapNew(a)(init)) == Done(w, (init', false));
    var w1 := World(SetHead(w.actors, INIT_ACTOR.id, env.cidOf(init')), Put(env, w.states, init'));
    assert Transact(env, info, fuel - 1, w, MapNew(a)) == Done(w1, init');
    var next := CreateNext(init', code);
    var w2 := AfterExec(env, w, a, code);
    assert Perform(env, w1, info.call.to, next) == Done(w2, Return(AddressObj(ID(init.nextId))));
    assert Run(env, info, fuel - 2, w2, true, Return(AddressObj(ID(init.nextId)))).Done?;
    assert Run(env, info, fuel - 1, w1, true, next) == Run(env, info, fuel - 2, w2, true, next.afterCreate);
  }

  lemma ExecApplied(
      env: Env, fuel: nat, w: World, from: nat, newAddress: Address -> Address, code: Cid, params: Obj)
    requires ReadyForExec(env, w, from, newAddress, code) && 6 <= fuel
    ensures var w1 := World(BumpNonce(w.actors, from), w.states);
            InitStateOf(w1) == InitStateOf(w)
            && ApplyMessage(env, fuel, w, ExecMessage(from, params)).0 == AfterExec(env, w1, newAddress(ID(from)), code)
  {
    hide Run, ExecProgram, AfterExec;
    var w1 := World(BumpNonce(w.actors, from), w.states);
    var call := Call(ID(from), INIT_ACTOR, 0, METHOD_EXEC, params);
    var info := CallInfo(ID(from), call, Some(w.actors[from]), w1.actors[INIT_ACTOR.id]);
    assert Dispatch(env, info) == Runs(ExecProgram(newAddress(ID(from)), code));
    ExecRuns(env, info, fuel - 1, w1, newAddress(ID(from)), code);
    assert ResolveTarget(env, ID(from), fuel - 1, w1, INIT_ACTOR) == Done(w1, (w1.actors[INIT_ACTOR.id], INIT_ACTOR));
    assert Deliver(env, info, fuel - 1, w1).Done?;
    var s := Execute(env, ID(from), fuel - 1, w1, call, Some(w.actors[from]));
    assert s.Done? && s.w == AfterExec(env, w1, newAddress(ID(from)), code);
  }

  /**
   * Two calls by one originator: the second takes the address away from the actor the first created. Both
   * actors are there at the end, and only the second can be reached under their one address.
   */
  lemma ExecTwiceRemaps(
      env: Env, fuel: nat, w: World, from: nat, newAddress: Address -> Address, code: Cid, params: Obj)
    requires ReadyForExec(env, w, from, newAddress, code) && 6 <= fuel
    requires InitStateOf(w).value.nextId + 1 !in w.actors && forall o :: env.cidOf(o).Defined()
    ensures var a, id := newAddress(ID(from)), InitStateOf(w).value.nextId;
            var w1 := ApplyAll(env, fuel, w, [ExecMessage(from, params)]);
            var w2 := ApplyAll(env, fuel, w, [ExecMessage(from, params), ExecMessage(from, params)]);
            && InitStateOf(w1).Some? && InitStateOf(w1).value.InitState?
            && a in InitStateOf(w1).value.addressMap && InitStateOf(w1).value.addressMap[a] == id
            && InitStateOf(w2).Some? && InitStateOf(w2).value.InitState?
            && a in InitStateOf(w2).value.addressMap && InitStateOf(w2).value.addressMap[a] == id + 1
            && id in w2.actors && w2.actors[id].code == code
            && id + 1 in w2.actors && w2.actors[id + 1].code == code
  {
    hide ApplyMessage, RunsExec;
    var msg := ExecMessage(from, params);
    ExecApplied(env, fuel, w, from, newAddress, code, params);
    var w1 := ApplyMessage(env, fuel, w, msg).0;
    ExecApplied(env, fuel, w1, from, newAddress, code, params);
    var w2 := ApplyMessage(env, fuel, w1, msg).0;
    assert [msg][1..] == [] && [msg, msg][1..] == [msg];
    assert ApplyAll(env, fuel, w1, []) == w1;
    assert ApplyAll(env, fuel, w1, [msg]) == w2;
  }
}
