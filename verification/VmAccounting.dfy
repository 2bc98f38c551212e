/** Top-level accounting: one message, and any list of messages. */
module VmAccounting {
  import opened Common
  import opened VmTypes
  import opened VmSemantics
  import opened VmInvariants

  /** The actor a message is charged to; None when the message is turned away. */
  function SenderOf(w: World, msg: Message): (id: Option<nat>)
    ensures id.Some? ==> id.value in w.actors
  {
    match Normalize(w, msg.from)
    case Mapped(from) => if Present(w.actors, from) then Some(from.id) else None
    case _ => None
  }

  lemma BumpKeepsFunds(m: ActorMap, id: nat)
    requires id in m
    ensures Total(BumpNonce(m, id)) == Total(m)
  {
    TotalUpdate(m, id, BumpNonce(m, id)[id]);
  }

  /**
   * A message that is turned away changes nothing. One that is accepted bumps the sender's nonce,
   * and unless it ends Ok, by an exit code or by a panic, that bump is all that is left of it.
   */
  lemma MessageAccounting(env: Env, fuel: nat, w: World, msg: Message)
    ensures var (w', reply) := ApplyMessage(env, fuel, w, msg);
            match SenderOf(w, msg)
            case None => w' == w && !reply.Applied?
            case Some(id) =>
              && reply.Applied?
              && Evolves(env, World(BumpNonce(w.actors, id), w.states), w')
              && ((reply.reply.Returned? && reply.reply.code == ExitOk) || w'.actors == BumpNonce(w.actors, id))
  {
    hide Invoke, Evolves;
    var sender := SenderOf(w, msg);
    if sender.Some? {
      var w1 := World(BumpNonce(w.actors, sender.value), w.states);
      var call := Call(ID(sender.value), msg.to, msg.value, msg.methodNum, msg.params);
      InvokeEvolves(env, ID(sender.value), fuel, w1, call, Some(w.actors[sender.value]));
      FailureRestoresActors(env, ID(sender.value), fuel, w1, call, Some(w.actors[sender.value]));
    }
  }

  /** What a list of messages keeps, nonces apart. */
  ghost predicate Kept(env: Env, w: World, w': World) {
    && StatesKept(env, w.states, w'.states)
    && Total(w'.actors) == Total(w.actors)
    && (NonNegative(w.actors) ==> NonNegative(w'.actors))
    && (HeadsStored(w) && env.emptyObject in w.states ==> HeadsStored(w'))
    && forall id :: id in w.actors ==> id in w'.actors && w'.actors[id].code == w.actors[id].code
  }

  lemma MessageKeeps(env: Env, fuel: nat, w: World, msg: Message)
    ensures Kept(env, w, ApplyMessage(env, fuel, w, msg).0)
  {
    hide ApplyMessage, SenderOf, Kept, Evolves, BumpNonce;
    MessageAccounting(env, fuel, w, msg);
    var sender := SenderOf(w, msg);
    if sender.Some? {
      BumpKept(env, w, sender.value);
      EvolvesIsKept(env, World(BumpNonce(w.actors, sender.value), w.states), ApplyMessage(env, fuel, w, msg).0);
      KeptThen(env, w, World(BumpNonce(w.actors, sender.value), w.states), ApplyMessage(env, fuel, w, msg).0);
    } else {
      SameIsKept(env, w);
    }
  }

  lemma SameIsKept(env: Env, w: World)
    ensures Kept(env, w, w)
  {}

  lemma BumpKept(env: Env, w: World, id: nat)
    requires id in w.actors
    ensures Kept(env, w, World(BumpNonce(w.actors, id), w.states))
  {
    hide Total;
    BumpKeepsFunds(w.actors, id);
  }

  lemma EvolvesIsKept(env: Env, w: World, w': World)
    requires Evolves(env, w, w')
    ensures Kept(env, w, w')
  {
    hide Total, NonNegative, HeadsStored, StatesKept;
  }

  lemma KeptThen(env: Env, w0: World, w1: World, w2: World)
    requires Kept(env, w0, w1) && Kept(env, w1, w2)
    ensures Kept(env, w0, w2)
  {
    hide Total, NonNegative, Keyed;
  }

  /**
   * Over any list of messages, whatever actors run and however calls nest and fail: funds are
   * conserved, no balance goes below zero, no stored state goes missing, no actor is lost or
   * changes its code.
   */
  lemma {:induction false} RunAccounting(env: Env, fuel: nat, w: World, msgs: seq<Message>)
    ensures Kept(env, w, ApplyAll(env, fuel, w, msgs))
    decreases |msgs|
  {
    hide ApplyMessage, Kept;
    SameIsKept(env, w);
    if msgs != [] {
      MessageKeeps(env, fuel, w, msgs[0]);
      RunAccounting(env, fuel, ApplyMessage(env, fuel, w, msgs[0]).0, msgs[1..]);
      KeptThen(env, w, ApplyMessage(env, fuel, w, msgs[0]).0, ApplyAll(env, fuel, w, msgs));
    }
  }

  /** Messages are applied first to last. */
  lemma {:induction false} AppliedInOrder(env: Env, fuel: nat, w: World, msgs: seq<Message>, last: Message)
    ensures ApplyAll(env, fuel, w, msgs + [last]) == ApplyMessage(env, fuel, ApplyAll(env, fuel, w, msgs), last).0
    decreases |msgs|
  {
    hide ApplyMessage;
    if msgs == [] {
      assert ([] + [last])[1..] == [];
      assert ApplyAll(env, fuel, ApplyMessage(env, fuel, w, last).0, []) == ApplyMessage(env, fuel, w, last).0;
    } else {
      assert (msgs + [last])[1..] == msgs[1..] + [last];
      AppliedInOrder(env, fuel, ApplyMessage(env, fuel, w, msgs[0]).0, msgs[1..], last);
    }
  }

  /** How many of the messages are accepted from the given actor, along the run they produce. */
  ghost function AcceptedFrom(env: Env, fuel: nat, w: World, msgs: seq<Message>, id: nat): nat
    decreases |msgs|
  {
    if msgs == [] then 0
    else
      (if SenderOf(w, msgs[0]) == Some(id) then 1 else 0)
      + AcceptedFrom(env, fuel, ApplyMessage(env, fuel, w, msgs[0]).0, msgs[1..], id)
  }

  lemma MessageNonce(env: Env, fuel: nat, w: World, msg: Message, id: nat)
    requires id in w.actors
    ensures id in ApplyMessage(env, fuel, w, msg).0.actors
    ensures ApplyMessage(env, fuel, w, msg).0.actors[id].callSeqNum
         == (w.actors[id].callSeqNum + if SenderOf(w, msg) == Some(id) then 1 else 0) % TWO_64
  {
    hide ApplyMessage, SenderOf, Total, NonNegative, HeadsStored;
    MessageAccounting(env, fuel, w, msg);
  }

  /** Each nonce counts exactly the accepted messages of its actor: nested sends and failures add nothing. */
  lemma {:induction false} NoncesCountMessages(env: Env, fuel: nat, w: World, msgs: seq<Message>, id: nat)
    requires id in w.actors
    ensures id in ApplyAll(env, fuel, w, msgs).actors
    ensures ApplyAll(env, fuel, w, msgs).actors[id].callSeqNum
         == (w.actors[id].callSeqNum + AcceptedFrom(env, fuel, w, msgs, id)) % TWO_64
    decreases |msgs|
  {
    hide ApplyMessage, SenderOf;
    if msgs != [] {
      MessageNonce(env, fuel, w, msgs[0], id);
      NoncesCountMessages(env, fuel, ApplyMessage(env, fuel, w, msgs[0]).0, msgs[1..], id);
    }
  }
}
