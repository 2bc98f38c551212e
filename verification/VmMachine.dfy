/** The top-level step: nonce bump, checkpoint, invocation, conditional rollback. */
module VmMachine {
  import opened Common
  import opened VmTypes
  import opened VmStore
  import opened VmContext
  import S = VmSemantics

  class Machine {
    const store: ActorStore

    constructor (store: ActorStore)
      ensures this.store == store
    {
      this.store := store;
    }

    method ApplyMessage(fuel: nat, message: S.Message) returns (reply: S.TopReply)
      requires store.Valid()
      modifies store
      ensures store.Valid() && old(store.snapshots.Keys) <= store.snapshots.Keys
      ensures (store.Current(), reply) == S.ApplyMessage(store.env, fuel, old(store.Current()), message)
    {
      hide S.Invoke;
      var resolved := store.NormalizeAddress(message.from);
      match resolved {
        case Unreadable => return S.Panicked;
        case Unmapped => return S.Rejected;
        case Mapped(_) =>
      }
      var from := resolved.addr;
      var found := store.GetActor(from);
      if !found.Found? {
        return S.Rejected;
      }
      var _ := store.MutateActor(from, (a: Actor) => Some(a.(callSeqNum := (a.callSeqNum + 1) % TWO_64)));
      var priorRoot := store.Checkpoint();
      ghost var entry := store.actors;

      var call := Call(from, message.to, message.value, message.methodNum, message.params);
      var ic := new InvocationContext(store, from, call, Some(found.actor));
      var out := ic.Invoke(fuel);
      if out.Returned? && out.code != ExitOk {
        // The invocation has already gone back to this root, so nothing changes here.
        assert store.actors == entry by {
          S.FailureRestoresActors(store.env, from, fuel, World(entry, old(store.states)), call, Some(found.actor));
        }
        var restored := store.Rollback(priorRoot);
        assert restored && store.actors == entry;
      }
      reply := S.Applied(out);
    }

    /** A list of messages, applied in order. */
    method ApplyAll(fuel: nat, messages: seq<S.Message>)
      requires store.Valid()
      modifies store
      ensures store.Valid()
      ensures store.Current() == S.ApplyAll(store.env, fuel, old(store.Current()), messages)
    {
      for i := 0 to |messages|
        invariant store.Valid()
        invariant S.ApplyAll(store.env, fuel, old(store.Current()), messages)
               == S.ApplyAll(store.env, fuel, store.Current(), messages[i..])
      {
        var _ := ApplyMessage(fuel, messages[i]);
        assert messages[i..][1..] == messages[i + 1..];
      }
    }
  }
}
