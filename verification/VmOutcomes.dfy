/** What a runtime call answers, said of the run it is made in and of the state it is made on. */
module VmOutcomes {
  import opened Common
  import opened VmTypes
  import opened VmSemantics
  import opened VmInvariants
  import opened VmAccounting
  import opened VmAccounts

  /** A run that goes on with another program, one step later. */
  ghost predicate GoesOn(
      env: Env, info: CallInfo, fuel: nat, w: World, allowed: bool, p: Program, w': World, q: Program)
    requires fuel > 0
  {
    Run(env, info, fuel, w, allowed, p) == Run(env, info, fuel - 1, w', allowed, q)
  }

  ghost predicate Stops(env: Env, info: CallInfo, fuel: nat, w: World, allowed: bool, p: Program, why: Failure)
    requires fuel > 0
  {
    Run(env, info, fuel, w, allowed, p) == Fail(w.states, why)
  }

  // ----- over whole runs -----

  /**
   * An actor's code and a stored object are answered the same for good: whatever messages are applied
   * in between, whoever asks.
   */
  lemma CodeIsAnswered(
      env: Env, info: CallInfo, fuel: nat, more: nat, w: World, msgs: seq<Message>, allowed: bool,
      id: nat, next: Option<Cid> -> Program)
    requires fuel > 0 && id in w.actors
    ensures var w' := ApplyAll(env, more, w, msgs);
            GoesOn(env, info, fuel, w', allowed, GetActorCode(ID(id), next), w', next(Some(w.actors[id].code)))
  {
    hide ApplyAll, Total, NonNegative, HeadsStored, StatesKept;
    RunAccounting(env, more, w, msgs);
  }

  lemma StoredIsAnswered(
      env: Env, info: CallInfo, fuel: nat, more: nat, w: World, msgs: seq<Message>, allowed: bool,
      c: Cid, next: Option<Obj> -> Program)
    requires fuel > 0 && CidsDistinct(env) && Keyed(env, w.states) && c in w.states
    ensures var w' := ApplyAll(env, more, w, msgs);
            GoesOn(env, info, fuel, w', allowed, StoreGet(c, next), w', next(Some(w.states[c])))
  {
    hide ApplyAll, Total, NonNegative, HeadsStored;
    RunAccounting(env, more, w, msgs);
  }

  /** What is put is told its CID, and is there under it; with the lemma above, for good. */
  lemma PutIsStored(
      env: Env, info: CallInfo, fuel: nat, w: World, allowed: bool, obj: Obj, next: Cid -> Program)
    requires fuel > 0
    ensures var w' := World(w.actors, w.states[env.cidOf(obj) := obj]);
            && GoesOn(env, info, fuel, w, allowed, StorePut(obj, next), w', next(env.cidOf(obj)))
            && (Keyed(env, w.states) ==> Keyed(env, w'.states))
            && env.cidOf(obj) in w'.states && w'.states[env.cidOf(obj)] == obj
  {}

  /** Put, then any number of messages, then get: the object put. */
  lemma PutThenGet(
      env: Env, info: CallInfo, fuel: nat, more: nat, w: World, msgs: seq<Message>, allowed: bool,
      obj: Obj, next: Option<Obj> -> Program)
    requires fuel > 0 && CidsDistinct(env) && Keyed(env, w.states)
    ensures var w1 := World(w.actors, w.states[env.cidOf(obj) := obj]);
            var w2 := ApplyAll(env, more, w1, msgs);
            GoesOn(env, info, fuel, w2, allowed, StoreGet(env.cidOf(obj), next), w2, next(Some(obj)))
  {
    hide ApplyAll, GoesOn;
    var w1 := World(w.actors, w.states[env.cidOf(obj) := obj]);
    StoredIsAnswered(env, info, fuel, more, w1, msgs, allowed, env.cidOf(obj), next);
  }

  /** An object nobody stored is not found, and an actor that is not there has no code. */
  lemma NothingIsAnswered(
      env: Env, info: CallInfo, fuel: nat, w: World, allowed: bool, c: Cid, a: Address,
      nextObj: Option<Obj> -> Program, nextCode: Option<Cid> -> Program)
    requires fuel > 0
    ensures c !in w.states ==> GoesOn(env, info, fuel, w, allowed, StoreGet(c, nextObj), w, nextObj(None))
    ensures !a.ID? || a.id !in w.actors ==>
      GoesOn(env, info, fuel, w, allowed, GetActorCode(a, nextCode), w, nextCode(None))
  {}

  // ----- each call, in each case -----

  /** Creating an actor: registered code of a kind that may be many, at an ID address that is free. */
  lemma CreateActorAnswers(
      env: Env, info: CallInfo, fuel: nat, w: World, allowed: bool, code: Cid, addr: Address, next: Program)
    requires fuel > 0
    ensures var p := CreateActor(code, addr, next);
      && (code !in env.registry || env.registry[code].singleton ==>
            Stops(env, info, fuel, w, allowed, p, Abort(SysErrorIllegalArgument)))
      && (code in env.registry && !env.registry[code].singleton ==>
            && (!addr.ID? ==> Stops(env, info, fuel, w, allowed, p, Crash))
            && (addr.ID? && addr.id in w.actors ==>
                  Stops(env, info, fuel, w, allowed, p, Abort(SysErrorIllegalArgument)))
            && (addr.ID? && addr.id !in w.actors ==>
                  GoesOn(env, info, fuel, w, allowed, p,
                         World(w.actors[addr.id := Actor(code, env.emptyObject, 0, 0)], w.states), next)))
  {}

  /** A first state, once. */
  lemma StateCreateAnswers(
      env: Env, info: CallInfo, fuel: nat, w: World, allowed: bool, obj: Obj, next: Program)
    requires fuel > 0
    ensures var p := StateCreate(obj, next);
      if !Present(w.actors, info.call.to) then Stops(env, info, fuel, w, allowed, p, Crash)
      else
        var me := w.actors[info.call.to.id];
        if me.head.bytes != [] && me.head != env.emptyObject then
          Stops(env, info, fuel, w, allowed, p, Abort(SysErrorIllegalActor))
        else
          GoesOn(env, info, fuel, w, allowed, p,
                 World(w.actors[info.call.to.id := Actor(me.code, env.cidOf(obj), me.callSeqNum, me.balance)],
                       w.states[env.cidOf(obj) := obj]), next)
  {}

  /** One's own state, as it is now. */
  lemma StateReadonlyAnswers(
      env: Env, info: CallInfo, fuel: nat, w: World, allowed: bool, next: Obj -> Program)
    requires fuel > 0
    ensures var p := StateReadonly(next);
      if !Present(w.actors, info.call.to) then Stops(env, info, fuel, w, allowed, p, Crash)
      else
        var head := w.actors[info.call.to.id].head;
        if head.bytes == [] then Stops(env, info, fuel, w, allowed, p, Abort(SysErrorIllegalActor))
        else if head !in w.states then Stops(env, info, fuel, w, allowed, p, Crash)
        else GoesOn(env, info, fuel, w, allowed, p, w, next(w.states[head]))
  {}

  /** And a transaction begins with it. */
  lemma StateTransactionAnswers(
      env: Env, info: CallInfo, fuel: nat, w: World, allowed: bool, body: Obj -> Program, next: Obj -> Program)
    requires fuel > 0
    ensures var p := StateTransaction(body, next);
      if !Present(w.actors, info.call.to) then Stops(env, info, fuel, w, allowed, p, Crash)
      else
        var head := w.actors[info.call.to.id].head;
        if head.bytes == [] then Stops(env, info, fuel, w, allowed, p, Abort(SysErrorIllegalActor))
        else head !in w.states ==> Stops(env, info, fuel, w, allowed, p, Crash)
  {}

  /** An address: an ID as it is, any other through the Init actor's map, if that can be read. */
  lemma ResolveAddressAnswers(
      env: Env, info: CallInfo, fuel: nat, w: World, allowed: bool, a: Address, next: Option<Address> -> Program)
    requires fuel > 0
    ensures var p := ResolveAddress(a, next);
      if a.ID? then GoesOn(env, info, fuel, w, allowed, p, w, next(Some(a)))
      else if InitStateOf(w).None? || !InitStateOf(w).value.InitState? then
        Stops(env, info, fuel, w, allowed, p, Crash)
      else
        var known := InitStateOf(w).value.addressMap;
        GoesOn(env, info, fuel, w, allowed, p, w, next(if a in known then Some(ID(known[a])) else None))
  {}

  /** Deleting oneself never ends well. */
  lemma DeleteActorAnswers(env: Env, info: CallInfo, fuel: nat, w: World, allowed: bool, beneficiary: Address)
    requires fuel > 0
    ensures var to := info.call.to;
      Stops(env, info, fuel, w, allowed, DeleteActor(beneficiary),
            if to.ID? && to.id !in w.actors then Abort(SysErrorIllegalActor) else Crash)
  {}

  /** Under the lock a send is refused, whatever it asks for. */
  lemma LockedSendAnswers(env: Env, info: CallInfo, fuel: nat, w: World, p: Program)
    requires fuel > 0 && p.Send?
    ensures Stops(env, info, fuel, w, false, p, Abort(SysErrorIllegalActor))
  {}

  // ----- an account for a key address, in plain terms -----

  /**
   * The address is mapped to the next ID and the one after it is next; at that ID is an unused account
   * with the address as its state; nobody else's record changes, but for the Init actor's head.
   */
  lemma AccountInPlainTerms(env: Env, origin: Address, fuel: nat, w: World, target: Address)
    requires StandardAccounts(env) && CidsDistinct(env) && ACCOUNT_FUEL <= fuel
    requires target.Secp256k1? || target.BLS?
    requires 1 in w.actors && InitStateOf(w).Some? && InitStateOf(w).value.InitState?
    requires target !in InitStateOf(w).value.addressMap && InitStateOf(w).value.nextId !in w.actors
    ensures var s := ResolveTarget(env, origin, fuel, w, target);
            var init := InitStateOf(w).value;
            && s.Done? && s.v.1 == ID(init.nextId)
            && InitStateOf(s.w) == Some(InitState(init.addressMap[target := init.nextId], init.nextId + 1))
            && s.w.actors.Keys == w.actors.Keys + {init.nextId}
            && s.w.actors[init.nextId] == s.v.0 && s.v.0.code == env.accountCode
            && s.v.0.callSeqNum == 0 && s.v.0.balance == 0
            && s.v.0.head in s.w.states && s.w.states[s.v.0.head] == AddressObj(target)
            && (forall k :: k in w.actors && k != 1 ==> s.w.actors[k] == w.actors[k])
            && s.w.actors[1] == w.actors[1].(head := s.w.actors[1].head)
  {
    hide ResolveTarget, StandardAccounts;
    AccountCreatedExactly(env, origin, fuel, w, target);
    var init := InitStateOf(w).value;
    assert env.cidOf(AddMapping(init, target)) != env.cidOf(AddressObj(target));
  }
}
