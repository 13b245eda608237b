/** The lock manager itself: tickets and waiters are shared objects, and each method is one mutex section. */
module SlotLocks {
  import opened LockSteps

  class Ticket {
    ghost const id: nat
    ghost const slot: Slot
    var consumed: bool

    constructor (ghost id: nat, ghost slot: Slot)
      ensures this.id == id && this.slot == slot && !consumed
    {
      this.id, this.slot := id, slot;
      consumed := false;
    }
  }

  class Waiter {
    ghost const id: nat
    ghost const slot: Slot
    var granted: bool  // the channel is closed
    var ticket: Ticket?
    var abandoned: bool

    constructor (ghost id: nat, ghost slot: Slot)
      ensures this.id == id && this.slot == slot && !granted && !abandoned && ticket == null
    {
      this.id, this.slot := id, slot;
      granted, abandoned, ticket := false, false, null;
    }
  }

  /** The numbers ids name the waiters of a queue within all waiters. */
  ghost predicate Named(all: seq<Waiter>, queue: seq<Waiter>, ids: seq<nat>) {
    |queue| == |ids| && forall k | 0 <= k < |queue| :: ids[k] < |all| && queue[k] == all[ids[k]]
  }

  /** A waiter and its value agree; its ticket is one of those issued. */
  ghost predicate WaiterAgrees(tickets: seq<Ticket>, w: Waiter, v: WaiterState)
    reads w
  {
    && v.slot == w.slot && v.granted == w.granted && v.abandoned == w.abandoned
    && (w.ticket == null ==> v.ticket == None)
    && (w.ticket != null ==> v.ticket.Some? && v.ticket.value < |tickets| && w.ticket == tickets[v.ticket.value])
  }

  lemma WaiterAgreesGrows(tickets: seq<Ticket>, next: Ticket, w: Waiter, v: WaiterState)
    requires WaiterAgrees(tickets, w, v)
    ensures WaiterAgrees(tickets + [next], w, v)
  {
  }

  lemma NamedGrows(all: seq<Waiter>, w: Waiter, queue: seq<Waiter>, ids: seq<nat>)
    requires Named(all, queue, ids)
    ensures Named(all + [w], queue, ids)
    ensures Named(all + [w], queue + [w], ids + [|all|])
  {
  }

  lemma NamedSingle(all: seq<Waiter>, w: Waiter)
    ensures Named(all + [w], [] + [w], [] + [|all|])
  {
  }

  lemma NamedLeaves(all: seq<Waiter>, queue: seq<Waiter>, ids: seq<nat>, i: nat)
    requires Named(all, queue, ids) && i < |queue|
    ensures Named(all, queue[..i] + queue[i + 1..], ids[..i] + ids[i + 1..])
    ensures Named(all, queue[1..], ids[1..])
    ensures queue[i] == all[ids[i]]
  {
  }

  class SlotLocks {
    var slots: map<Slot, seq<Waiter>>
    var owners: map<Slot, Ticket>

    ghost var tickets: seq<Ticket>  // every ticket ever issued
    ghost var waiters: seq<Waiter>  // everyone who ever queued
    ghost var state: LockState      // the same, as a value

    ghost predicate TicketsAgree()
      reads this, tickets
    {
      && |tickets| == |state.tickets|
      && (forall i | 0 <= i < |tickets| ::
            tickets[i].id == i && state.tickets[i] == TicketState(tickets[i].slot, tickets[i].consumed))
      && owners.Keys == state.owners.Keys
      && (forall slot <- owners :: state.owners[slot] < |tickets| && owners[slot] == tickets[state.owners[slot]])
    }

    ghost predicate WaitersAgree()
      reads this, waiters
    {
      && |waiters| == |state.waiters|
      && (forall i | 0 <= i < |waiters| ::
            waiters[i].id == i && WaiterAgrees(tickets, waiters[i], state.waiters[i]))
    }

    ghost predicate QueuesAgree()
      reads this
    {
      && slots.Keys == state.queues.Keys
      && (forall slot <- slots :: Named(waiters, slots[slot], state.queues[slot]))
    }

    ghost predicate Agree()
      reads this, tickets, waiters
    {
      TicketsAgree() && WaitersAgree() && QueuesAgree()
    }

    ghost predicate Valid()
      reads this, tickets, waiters
    {
      Agree() && Inv(state)
    }

    constructor ()
      ensures Valid() && state == Initial && tickets == [] && waiters == []
    {
      slots, owners := map[], map[];
      tickets, waiters, state := [], [], Initial;
    }

    /**
     The locked section of an acquisition: a ticket where the slot is free, a place in its
     queue otherwise.
     */
    method Acquire(slot: Slot) returns (t: Ticket?, w: Waiter?)
      requires Valid()
      modifies this
      ensures Valid()
      ensures state == LockSteps.Acquire(old(state), slot).0
      ensures match LockSteps.Acquire(old(state), slot).1
              case Holding(id) => w == null && t != null && fresh(t) && tickets == old(tickets) + [t] && t.id == id
              case Waiting(id) => t == null && w != null && fresh(w) && waiters == old(waiters) + [w] && w.id == id
    {
      hide Inv;
      AcquireKeeps(state, slot);
      if slot !in owners {
        t := Issue(slot);
        w := null;
      } else {
        t := null;
        w := Enqueue(slot);
      }
    }

    /** A new ticket becomes the owner of a slot. */
    method Issue(slot: Slot) returns (t: Ticket)
      requires Agree()
      modifies this
      ensures Agree() && waiters == old(waiters) && slots == old(slots)
      ensures fresh(t) && tickets == old(tickets) + [t] && t.id == |old(tickets)|
      ensures state == old(state).(owners := old(state).owners[slot := |old(tickets)|],
                                   tickets := old(state).tickets + [TicketState(slot, false)])
    {
      hide Named, WaiterAgrees;
      t := new Ticket(|tickets|, slot);
      forall i | 0 <= i < |waiters|
        ensures WaiterAgrees(tickets + [t], waiters[i], state.waiters[i])
      {
        WaiterAgreesGrows(tickets, t, waiters[i], state.waiters[i]);
      }
      owners := owners[slot := t];
      state := state.(owners := state.owners[slot := |tickets|], tickets := state.tickets + [TicketState(slot, false)]);
      tickets := tickets + [t];
    }

    method Enqueue(slot: Slot) returns (w: Waiter)
      requires Agree() && slot in owners
      modifies this
      ensures Agree() && fresh(w) && waiters == old(waiters) + [w] && w.id == |old(waiters)|
      ensures state == LockSteps.Acquire(old(state), slot).0
    {
      hide Named;
      w := new Waiter(|waiters|, slot);
      forall other <- slots
        ensures Named(waiters + [w], slots[other], state.queues[other])
        ensures Named(waiters + [w], slots[other] + [w], state.queues[other] + [|waiters|])
      {
        NamedGrows(waiters, w, slots[other], state.queues[other]);
      }
      NamedSingle(waiters, w);
      slots := slots[slot := (if slot in slots then slots[slot] else []) + [w]];
      waiters := waiters + [w];
      state := LockSteps.Acquire(state, slot).0;
    }

    /** Giving up: the waiter is taken out of the queue unless it was granted meanwhile. */
    method Abandon(slot: Slot, w: Waiter) returns (ok: bool)
      requires Valid() && w in waiters && w.slot == slot
      modifies this, w
      ensures Valid() && tickets == old(tickets) && waiters == old(waiters)
      ensures old(w.id < |state.waiters|) && (state, ok) == LockSteps.Abandon(old(state), slot, w.id)
      // the receive that follows a failed attempt finds the channel closed
      ensures old(!w.abandoned) ==> if ok then w.abandoned && !w.granted else w.granted && w.ticket != null
    {
      hide Inv;
      assert w == waiters[w.id];
      AbandonKeeps(state, slot, w.id);
      if !w.abandoned {
        AbandonMeaning(state, slot, w.id);
        GrantedHasTicket(state, w.id);
      }
      var i := Position(slot, w);
      if i == (if slot in slots then |slots[slot]| else 0) || w.abandoned {
        return false;
      }
      Leave(slot, w, i);
      ok := true;
    }

    /** The scan of the queue for one waiter. */
    method Position(slot: Slot, w: Waiter) returns (i: nat)
      requires Agree() && w in waiters
      ensures i == Find(Queue(state, slot), w.id)
    {
      hide Find;
      var queue := if slot in slots then slots[slot] else [];
      i := 0;
      while i < |queue|
        invariant i <= |queue| && w !in queue[..i]
      {
        if queue[i] == w {
          break;
        }
        i := i + 1;
      }
      PositionAgrees(slot, w, queue, i);
    }

    lemma PositionAgrees(slot: Slot, w: Waiter, queue: seq<Waiter>, i: nat)
      requires Agree() && w in waiters && queue == if slot in slots then slots[slot] else []
      requires i <= |queue| && w !in queue[..i] && (i < |queue| ==> queue[i] == w)
      ensures i == Find(Queue(state, slot), w.id)
    {
      hide Find;
      var ids := Queue(state, slot);
      assert w == waiters[w.id];
      forall k | 0 <= k < i
        ensures ids[k] != w.id
      {
        assert queue[k] == waiters[ids[k]] && queue[k] in queue[..i];
      }
      FindUnique(ids, w.id, i);
    }

    method Leave(slot: Slot, w: Waiter, i: nat)
      requires Agree() && w in waiters && i == Find(Queue(state, slot), w.id) < |Queue(state, slot)| && !w.abandoned
      modifies this, w
      ensures Agree() && tickets == old(tickets) && waiters == old(waiters)
      ensures w.abandoned && w.granted == old(w.granted) && w.ticket == old(w.ticket)
      ensures old(w.id < |state.waiters|) && state == LockSteps.Abandon(old(state), slot, w.id).0
    {
      assert slot in slots && |slots[slot]| == |Queue(state, slot)|;
      hide Find, Named;
      assert w == waiters[w.id];
      Mark(w, w.granted, true, w.ticket, state.waiters[w.id].(abandoned := true));
      Cut(slot, i);
    }

    /** Writing the fields of one waiter. */
    method Mark(w: Waiter, granted: bool, abandoned: bool, ticket: Ticket?, ghost v: WaiterState)
      requires Agree() && w in waiters
      requires v.slot == w.slot && v.granted == granted && v.abandoned == abandoned
      requires ticket == null ==> v.ticket == None
      requires ticket != null ==> v.ticket.Some? && v.ticket.value < |tickets| && ticket == tickets[v.ticket.value]
      modifies w, `state
      ensures Agree()
      ensures w.granted == granted && w.abandoned == abandoned && w.ticket == ticket
      ensures old(w.id < |state.waiters|) && state == old(state).(waiters := old(state).waiters[w.id := v])
    {
      hide Named;
      assert w == waiters[w.id];
      assert forall k | 0 <= k < |waiters| && k != w.id :: waiters[k] != w;
      w.granted, w.abandoned, w.ticket := granted, abandoned, ticket;
      state := state.(waiters := state.waiters[w.id := v]);
    }

    /** Taking the waiter at position i out of a queue. */
    method Cut(slot: Slot, i: nat)
      requires Agree() && slot in slots && i < |slots[slot]|
      modifies `slots, `state
      ensures Agree()
      ensures old(slot in state.queues && i < |state.queues[slot]|)
      ensures state == old(var q := state.queues[slot]; state.(queues := state.queues[slot := q[..i] + q[i + 1..]]))
    {
      var queue := slots[slot];
      NamedLeaves(waiters, queue, state.queues[slot], i);
      hide Named, WaiterAgrees;
      slots := slots[slot := queue[..i] + queue[i + 1..]];
      state := state.(queues := state.queues[slot := state.queues[slot][..i] + state.queues[slot][i + 1..]]);
    }

    /** Releasing with a ticket; the slot passes to the head of the queue if there is one. */
    method Release(slot: Slot, t: Ticket)
      requires Valid() && t in tickets && t.slot == slot
      modifies this, tickets, waiters
      ensures Valid() && waiters == old(waiters) && old(tickets) <= tickets
      ensures forall x <- tickets :: x in old(tickets) || fresh(x)
      ensures old(t.id < |state.tickets| && (Queue(state, slot) != [] ==> Queue(state, slot)[0] < |state.waiters|))
      ensures state == LockSteps.Release(old(state), slot, t.id)
      ensures t.consumed
    {
      hide Inv;
      assert t == tickets[t.id];
      ReleaseDefined(state, slot);
      ReleaseKeeps(state, slot, t.id);
      if slot !in owners || owners[slot] != t || t.consumed {
        OnlyOwnersLive(state, t.id);
        return;
      }
      if slot in slots && |slots[slot]| > 0 {
        HandOver(slot, t);
      } else {
        Free(slot, t);
      }
    }

    /** The ticket is consumed and the waiter at the head of the queue granted with a new one. */
    method HandOver(slot: Slot, t: Ticket)
      requires Agree() && t in tickets && slot in owners && owners[slot] == t && !t.consumed
      requires slot in slots && |slots[slot]| > 0
      modifies this, t, slots[slot][0]
      ensures Agree() && waiters == old(waiters) && old(tickets) <= tickets && t.consumed
      ensures forall x <- tickets :: x in old(tickets) || fresh(x)
      ensures old(t.id < |state.tickets| && Queue(state, slot) != [] && Queue(state, slot)[0] < |state.waiters|)
      ensures state == LockSteps.Release(old(state), slot, t.id)
    {
      NamedLeaves(waiters, slots[slot], state.queues[slot], 0);
      hide Named, WaiterAgrees;
      var w := slots[slot][0];
      assert w == waiters[state.queues[slot][0]];
      Consume(t);
      Cut(slot, 0);
      var next := Issue(slot);
      Mark(w, true, w.abandoned, next, state.waiters[w.id].(granted := true, ticket := Some(next.id)));
      CutHead(old(state.queues[slot]));
    }

    static lemma CutHead(q: seq<nat>)
      requires q != []
      ensures q[..0] + q[0 + 1..] == q[1..]
    {
    }

    method Consume(t: Ticket)
      requires Agree() && t in tickets
      modifies t, `state
      ensures Agree() && t.consumed
      ensures old(t.id < |state.tickets|)
      ensures state == old(state).(tickets := old(state).tickets[t.id := old(state.tickets[t.id]).(consumed := true)])
    {
      hide Named, WaiterAgrees;
      assert t == tickets[t.id];
      t.consumed := true;
      state := state.(tickets := state.tickets[t.id := state.tickets[t.id].(consumed := true)]);
    }

    method Free(slot: Slot, t: Ticket)
      requires Agree() && t in tickets && slot in owners && owners[slot] == t && !t.consumed
      requires slot in slots ==> slots[slot] == []
      modifies this, t
      ensures Agree() && waiters == old(waiters) && tickets == old(tickets) && t.consumed
      ensures old(t.id < |state.tickets| && Queue(state, slot) == [])
      ensures state == LockSteps.Release(old(state), slot, t.id)
    {
      assert Queue(state, slot) == [];
      hide Named, WaiterAgrees;
      Consume(t);
      Vacate(slot);
    }

    method Vacate(slot: Slot)
      requires Agree()
      modifies `owners, `slots, `state
      ensures Agree()
      ensures state == old(state).(owners := old(state).owners - {slot}, queues := old(state).queues - {slot})
    {
      hide Named, WaiterAgrees;
      owners := owners - {slot};
      slots := slots - {slot};
      state := state.(owners := state.owners - {slot}, queues := state.queues - {slot});
    }

    method Held(slot: Slot) returns (held: bool)
      requires Valid()
      ensures held <==> exists t <- tickets :: t.slot == slot && !t.consumed
    {
      held := slot in owners && !owners[slot].consumed;
      if slot in owners {
        assert owners[slot] in tickets;
      }
      forall t <- tickets | t.slot == slot && !t.consumed
        ensures held
      {
        assert t == tickets[t.id];
        OnlyOwnersLive(state, t.id);
      }
    }
  }

  lemma GrantedHasTicket(s: LockState, w: nat)
    requires Inv(s) && w < |s.waiters|
    ensures s.waiters[w].granted <==> s.waiters[w].ticket.Some?
  {
  }

  lemma OnlyOwnersLive(s: LockState, t: nat)
    requires Inv(s) && t < |s.tickets|
    ensures !s.tickets[t].consumed ==> s.tickets[t].slot in s.owners && s.owners[s.tickets[t].slot] == t
  {
  }

  lemma FindUnique(ids: seq<nat>, id: nat, i: nat)
    requires i <= |ids| && (forall k | 0 <= k < i :: ids[k] != id) && (i < |ids| ==> ids[i] == id)
    ensures Find(ids, id) == i
  {
    var j := Find(ids, id);
    assert forall k | 0 <= k < j :: ids[k] in ids[..j];
  }
}
