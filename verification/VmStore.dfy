/** The mutable actor store that all invocations of a machine share. */
module VmStore {
  import opened Common
  import opened VmTypes
  import opened VmSemantics

  /** A result or the exception that replaces it. */
  datatype Outcome<+T> = Value(v: T) | Failed(why: Failure) {
    predicate IsFailure() { Failed? }
    function PropagateFailure<U>(): Outcome<U>
      requires Failed?
    {
      Failed(why)
    }
    function Extract(): T
      requires Value?
    {
      v
    }
  }

  class ActorStore {
    const env: Env
    var actors: ActorMap                 // the loaded map, with writes not yet flushed
    var states: StateMap                 // state objects, only ever added to
    var snapshots: map<Cid, ActorMap>    // flushed actor maps by root
    var stateRoot: Cid

    /** Flushed maps are stored under their own root, and a root determines a map. */
    ghost predicate Valid()
      reads this
    {
      && RootsDetermine(env)
      && forall r :: r in snapshots ==> env.rootOf(snapshots[r]) == r
    }

    ghost function Current(): (w: World)
      reads this
    {
      World(actors, states)
    }

    /** The store and a result are where the reference semantics says they should be. */
    ghost predicate Agrees<T(!new)>(r: Outcome<T>, s: Step<T>)
      reads this
    {
      match s
      case Done(w, v) => r == Value(v) && Current() == w
      case Fail(states, why) => r == Failed(why) && this.states == states
    }

    constructor (env: Env, actors: ActorMap, states: StateMap)
      requires RootsDetermine(env)
      ensures Valid() && this.env == env && Current() == World(actors, states)
    {
      this.env := env;
      this.actors := actors;
      this.states := states;
      this.snapshots := map[env.rootOf(actors) := actors];
      this.stateRoot := env.rootOf(actors);
    }

    method GetActor(addr: Address) returns (found: Lookup)
      ensures found == VmSemantics.GetActor(actors, addr)
    {
      if !addr.ID? {
        return BadAddress;
      }
      found := if addr.id in actors then Found(actors[addr.id]) else NotFound;
    }

    method SetActor(addr: Address, actor: Actor) returns (ok: bool)
      modifies `actors
      ensures ok == addr.ID?
      ensures actors == if addr.ID? then old(actors)[addr.id := actor] else old(actors)
    {
      if !addr.ID? {
        return false;
      }
      actors := actors[addr.id := actor];
      ok := true;
    }

    /** The mutation may refuse, and then nothing is written. */
    method MutateActor(addr: Address, f: Actor -> Option<Actor>) returns (ok: bool)
      modifies `actors
      ensures ok <==> Present(old(actors), addr) && f(old(actors)[addr.id]).Some?
      ensures actors == if ok then old(actors)[addr.id := f(old(actors)[addr.id]).value] else old(actors)
    {
      var found := GetActor(addr);
      if !found.Found? {
        return false;
      }
      var mutated := f(found.actor);
      if mutated.None? {
        return false;
      }
      ok := SetActor(addr, mutated.value);
    }

    method PutState(obj: Obj) returns (c: Cid)
      modifies `states
      ensures c == env.cidOf(obj) && states == Put(env, old(states), obj)
    {
      c := env.cidOf(obj);
      states := states[c := obj];
    }

    method SetActorState(addr: Address, obj: Obj) returns (ok: bool)
      modifies `actors, `states
      ensures ok == Present(old(actors), addr)
      ensures ok ==> actors == SetHead(old(actors), addr.id, env.cidOf(obj)) && states == Put(env, old(states), obj)
      ensures !ok ==> Current() == old(Current())
    {
      var found := GetActor(addr);
      if !found.Found? {
        return false;
      }
      var c := PutState(obj);
      ok := SetActor(addr, found.actor.(head := c));
    }

    /** The Init actor's state object, None where loading it fails. */
    method LoadInitState() returns (init: Option<Obj>)
      ensures init == InitStateOf(Current())
    {
      var found := GetActor(INIT_ACTOR);
      if found.Found? && found.actor.head in states {
        return Some(states[found.actor.head]);
      }
      return None;
    }

    method NormalizeAddress(addr: Address) returns (r: Resolution)
      ensures r == Normalize(Current(), addr)
    {
      if addr.ID? {
        return Mapped(addr);
      }
      var init := LoadInitState();
      r := if init.None? then Unreadable else ResolveIn(init.value, addr);
    }

    method Checkpoint() returns (root: Cid)
      requires Valid()
      modifies `snapshots, `stateRoot
      ensures Valid()
      ensures root == stateRoot == env.rootOf(actors)
      ensures snapshots == old(snapshots)[root := actors]
    {
      root := env.rootOf(actors);
      snapshots := snapshots[root := actors];
      stateRoot := root;
    }

    /** Reloads the map that was flushed under root; fails when no map was. */
    method Rollback(root: Cid) returns (ok: bool)
      requires Valid()
      modifies `actors, `stateRoot
      ensures Valid()
      ensures ok == (root in snapshots)
      ensures ok ==> env.rootOf(actors) == root == stateRoot
      ensures !ok ==> actors == old(actors) && stateRoot == old(stateRoot)
    {
      if root !in snapshots {
        return false;
      }
      actors := snapshots[root];
      stateRoot := root;
      ok := true;
    }
  }
}
