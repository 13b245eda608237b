/**
 The steps of the slot locks on values: one live ticket per slot, waiters served in arrival
 order, and waiters that may give up. Every mutex section of the lock manager is one such
 step, so an invariant kept by each of them holds under every interleaving of callers.
 */
module LockSteps {

  type Slot = string

  datatype Option<+T> = None | Some(value: T)

  // ---- the steps on values ----

  datatype TicketState = TicketState(slot: Slot, consumed: bool)

  datatype WaiterState = WaiterState(slot: Slot, granted: bool, abandoned: bool, ticket: Option<nat>)

  /**
   Tickets and waiters are numbered in the order in which they came into being; an owner is
   a ticket number and a queue a list of waiter numbers.
   */
  datatype LockState = LockState(
    owners: map<Slot, nat>,
    queues: map<Slot, seq<nat>>,
    tickets: seq<TicketState>,
    waiters: seq<WaiterState>)

  /** What the locked section of an acquisition leaves the caller with. */
  datatype Entry = Holding(ticket: nat) | Waiting(waiter: nat)

  const Initial := LockState(map[], map[], [], [])

  function Queue(s: LockState, slot: Slot): seq<nat> {
    if slot in s.queues then s.queues[slot] else []
  }

  function Acquire(s: LockState, slot: Slot): (LockState, Entry) {
    if slot !in s.owners then
      (s.(owners := s.owners[slot := |s.tickets|], tickets := s.tickets + [TicketState(slot, false)]),
       Holding(|s.tickets|))
    else
      (s.(queues := s.queues[slot := Queue(s, slot) + [|s.waiters|]],
          waiters := s.waiters + [WaiterState(slot, false, false, None)]),
       Waiting(|s.waiters|))
  }

  /** The position of w in a queue, or its length. */
  function Find(queue: seq<nat>, w: nat): (i: nat)
    ensures i <= |queue|
    ensures i < |queue| ==> queue[i] == w
    ensures w !in queue[..i]
  {
    if queue == [] || queue[0] == w then 0 else 1 + Find(queue[1..], w)
  }

  function Abandon(s: LockState, slot: Slot, w: nat): (LockState, bool)
    requires w < |s.waiters|
  {
    var queue := Queue(s, slot);
    var i := Find(queue, w);
    if i == |queue| || s.waiters[w].abandoned then (s, false)
    else
      (s.(queues := s.queues[slot := queue[..i] + queue[i + 1..]],
          waiters := s.waiters[w := s.waiters[w].(abandoned := true)]),
       true)
  }

  function Release(s: LockState, slot: Slot, t: nat): LockState
    requires t < |s.tickets| && (Queue(s, slot) != [] ==> Queue(s, slot)[0] < |s.waiters|)
  {
    if slot !in s.owners || s.owners[slot] != t || s.tickets[t].consumed then s
    else
      var tickets := s.tickets[t := s.tickets[t].(consumed := true)];
      var queue := Queue(s, slot);
      if queue != [] then
        var w := queue[0];
        LockState(s.owners[slot := |tickets|], s.queues[slot := queue[1..]],
                  tickets + [TicketState(slot, false)],
                  s.waiters[w := s.waiters[w].(granted := true, ticket := Some(|tickets|))])
      else
        LockState(s.owners - {slot}, s.queues - {slot}, tickets, s.waiters)
  }

  // ---- what every step keeps ----

  /** A ticket is live until it is consumed; the live tickets are exactly the owners. */
  ghost predicate TicketsInv(s: LockState) {
    && (forall slot <- s.owners :: s.owners[slot] < |s.tickets| && s.tickets[s.owners[slot]] == TicketState(slot, false))
    && (forall t | 0 <= t < |s.tickets| && !s.tickets[t].consumed ::
          s.tickets[t].slot in s.owners && s.owners[s.tickets[t].slot] == t)
  }

  predicate IsWaiting(s: LockState, slot: Slot, w: nat) {
    w < |s.waiters| && s.waiters[w] == WaiterState(slot, false, false, None)
  }

  predicate Increasing(q: seq<nat>) {
    forall i, j | 0 <= i < j < |q| :: q[i] < q[j]
  }

  /** A queue holds exactly the waiters neither granted nor abandoned, in arrival order, behind an owner. */
  ghost predicate QueuesInv(s: LockState) {
    && (forall slot: Slot, w: nat :: w in Queue(s, slot) <==> IsWaiting(s, slot, w))
    && (forall slot: Slot :: Increasing(Queue(s, slot)))
    && (forall slot: Slot :: Queue(s, slot) != [] ==> slot in s.owners)
  }

  /** Each waiter is waiting, granted with a ticket for its slot, or abandoned, and only one of these. */
  ghost predicate WaitersInv(s: LockState) {
    forall w | 0 <= w < |s.waiters| ::
      && !(s.waiters[w].granted && s.waiters[w].abandoned)
      && (s.waiters[w].granted <==> s.waiters[w].ticket.Some?)
      && (s.waiters[w].granted ==>
            && s.waiters[w].ticket.value < |s.tickets|
            && s.tickets[s.waiters[w].ticket.value].slot == s.waiters[w].slot)
  }

  /** First come, first served: whoever came before a granted waiter is not waiting any more. */
  ghost predicate FirstComeInv(s: LockState) {
    forall v, w | 0 <= v < w < |s.waiters| && s.waiters[v].slot == s.waiters[w].slot && s.waiters[w].granted ::
      s.waiters[v].granted || s.waiters[v].abandoned
  }

  ghost predicate Inv(s: LockState) {
    TicketsInv(s) && QueuesInv(s) && WaitersInv(s) && FirstComeInv(s)
  }

  lemma InvInitial()
    ensures Inv(Initial)
  {
  }

  lemma AcquireKeepsQueues(s: LockState, slot: Slot)
    requires Inv(s)
    ensures QueuesInv(Acquire(s, slot).0)
  {
    var (s', entry) := Acquire(s, slot);
    if slot in s.owners {
      var n := |s.waiters|;
      forall other: Slot
        ensures Increasing(Queue(s', other))
        ensures Queue(s', other) != [] ==> other in s'.owners
      {
        assert Increasing(Queue(s, other));
        if other == slot {
          var q := Queue(s, slot);
          forall k | 0 <= k < |q|
            ensures q[k] < n
          {
            assert q[k] in q && IsWaiting(s, slot, q[k]);
          }
        } else {
          assert Queue(s', other) == Queue(s, other);
        }
      }
      forall other: Slot, w: nat
        ensures w in Queue(s', other) <==> IsWaiting(s', other, w)
      {
        assert w in Queue(s, other) <==> IsWaiting(s, other, w);
      }
    } else {
      SameQueues(s, s');
    }
  }

  /** A step that touches neither queues nor waiters and keeps the owners keeps the queues. */
  lemma SameQueues(s: LockState, s': LockState)
    requires QueuesInv(s) && s'.queues == s.queues && s'.waiters == s.waiters && s.owners.Keys <= s'.owners.Keys
    ensures QueuesInv(s')
  {
    forall slot: Slot, w: nat
      ensures w in Queue(s', slot) <==> IsWaiting(s', slot, w)
    {
      assert w in Queue(s, slot) <==> IsWaiting(s, slot, w);
    }
    forall slot: Slot
      ensures Increasing(Queue(s', slot)) && (Queue(s', slot) != [] ==> slot in s'.owners)
    {
      assert Increasing(Queue(s, slot));
    }
  }

  lemma AcquireKeeps(s: LockState, slot: Slot)
    requires Inv(s)
    ensures Inv(Acquire(s, slot).0)
  {
    AcquireKeepsQueues(s, slot);
    var s' := Acquire(s, slot).0;
    assert |s'.waiters| >= |s.waiters| && forall w | 0 <= w < |s.waiters| :: s'.waiters[w] == s.waiters[w];
    assert |s'.tickets| >= |s.tickets| && forall t | 0 <= t < |s.tickets| :: s'.tickets[t] == s.tickets[t];
  }

  /** Taking one element out of a queue. */
  lemma Removed(q: seq<nat>, i: nat)
    requires i < |q| && Increasing(q)
    ensures Increasing(q[..i] + q[i + 1..])
    ensures forall v: nat :: v in q[..i] + q[i + 1..] <==> v in q && v != q[i]
  {
    var r := q[..i] + q[i + 1..];
    assert forall k | 0 <= k < |r| :: r[k] == q[if k < i then k else k + 1];
    RemovedMembers(q, i);
  }

  lemma RemovedMembers(q: seq<nat>, i: nat)
    requires i < |q| && Increasing(q)
    ensures forall v: nat :: v in q[..i] + q[i + 1..] <==> v in q && v != q[i]
  {
    assert q == q[..i] + [q[i]] + q[i + 1..];
    assert q[i] !in q[..i] && q[i] !in q[i + 1..];
  }

  /** A step that takes the waiter at position i out of one queue, and marks it, keeps the queues. */
  lemma LeaveQueue(s: LockState, s': LockState, slot: Slot, i: nat)
    requires QueuesInv(s) && i < |Queue(s, slot)|
    requires var q := Queue(s, slot);
             && (forall other: Slot :: Queue(s', other) == if other == slot then q[..i] + q[i + 1..] else Queue(s, other))
             && q[i] < |s.waiters| && |s'.waiters| == |s.waiters|
             && (forall w | 0 <= w < |s.waiters| && w != q[i] :: s'.waiters[w] == s.waiters[w])
             && (s'.waiters[q[i]].granted || s'.waiters[q[i]].abandoned)
    requires s.owners.Keys <= s'.owners.Keys
    ensures QueuesInv(s')
  {
    hide Increasing;
    var q := Queue(s, slot);
    assert Increasing(q);
    Removed(q, i);
    forall other: Slot
      ensures Increasing(Queue(s', other)) && (Queue(s', other) != [] ==> other in s'.owners)
    {
      assert Increasing(Queue(s, other));
      assert Queue(s, other) != [] ==> other in s.owners;
    }
    forall other: Slot, w: nat
      ensures w in Queue(s', other) <==> IsWaiting(s', other, w)
    {
      assert w in Queue(s, other) <==> IsWaiting(s, other, w);
      assert IsWaiting(s, slot, q[i]) by { assert q[i] in q; }
    }
  }

  lemma AbandonKeeps(s: LockState, slot: Slot, w: nat)
    requires Inv(s) && w < |s.waiters|
    ensures Inv(Abandon(s, slot, w).0)
  {
    var (s', ok) := Abandon(s, slot, w);
    if ok {
      var q := Queue(s, slot);
      var i := Find(q, w);
      assert IsWaiting(s, slot, w) by { assert w in q; }
      LeaveQueue(s, s', slot, i);
    }
  }

  lemma ReleaseDefined(s: LockState, slot: Slot)
    requires Inv(s)
    ensures Queue(s, slot) != [] ==> Queue(s, slot)[0] < |s.waiters| && IsWaiting(s, slot, Queue(s, slot)[0])
  {
    if Queue(s, slot) != [] {
      assert Queue(s, slot)[0] in Queue(s, slot);
    }
  }

  lemma ReleaseKeepsTickets(s: LockState, slot: Slot, t: nat)
    requires TicketsInv(s) && WaitersInv(s) && t < |s.tickets|
    requires Queue(s, slot) != [] ==> Queue(s, slot)[0] < |s.waiters| && IsWaiting(s, slot, Queue(s, slot)[0])
    ensures TicketsInv(Release(s, slot, t)) && WaitersInv(Release(s, slot, t))
  {
    hide Queue, Increasing;
    var s' := Release(s, slot, t);
    assert |s'.tickets| >= |s.tickets| && |s'.waiters| == |s.waiters|;
    assert forall k | 0 <= k < |s.tickets| :: s'.tickets[k].slot == s.tickets[k].slot;
  }

  lemma ReleaseKeeps(s: LockState, slot: Slot, t: nat)
    requires Inv(s) && t < |s.tickets|
    requires Queue(s, slot) != [] ==> Queue(s, slot)[0] < |s.waiters|
    ensures Inv(Release(s, slot, t))
  {
    var s' := Release(s, slot, t);
    var q := Queue(s, slot);
    ReleaseDefined(s, slot);
    ReleaseKeepsTickets(s, slot, t);
    hide TicketsInv, IsWaiting;
    if s' != s {
      if q != [] {
        assert q[..0] + q[0 + 1..] == q[1..];
        LeaveQueue(s, s', slot, 0);
        GrantKeepsOrder(s, s', slot);
      } else {
        EmptyKeepsQueues(s, s', slot);
      }
    }
  }

  lemma EmptyKeepsQueues(s: LockState, s': LockState, slot: Slot)
    requires QueuesInv(s) && Queue(s, slot) == []
    requires s'.queues == s.queues - {slot} && s'.owners == s.owners - {slot} && s'.waiters == s.waiters
    ensures QueuesInv(s')
  {
    forall other: Slot
      ensures Queue(s', other) == Queue(s, other)
      ensures Increasing(Queue(s', other)) && (Queue(s', other) != [] ==> other in s'.owners)
    {
      assert Increasing(Queue(s, other));
    }
    forall other: Slot, w: nat
      ensures w in Queue(s', other) <==> IsWaiting(s', other, w)
    {
      assert w in Queue(s, other) <==> IsWaiting(s, other, w);
    }
  }

  /** The waiter at the head of the queue is the earliest one still waiting. */
  lemma GrantKeepsOrder(s: LockState, s': LockState, slot: Slot)
    requires QueuesInv(s) && WaitersInv(s) && FirstComeInv(s) && Queue(s, slot) != []
    requires var w := Queue(s, slot)[0];
             w < |s.waiters| && s.waiters[w].slot == slot
             && exists t :: s'.waiters == s.waiters[w := WaiterState(slot, true, false, Some(t))]
    ensures FirstComeInv(s')
  {
    var q := Queue(s, slot);
    var w := q[0];
    assert Increasing(q);
    forall v | 0 <= v < w && s.waiters[v].slot == slot
      ensures s.waiters[v].granted || s.waiters[v].abandoned
    {
      assert v in q <==> IsWaiting(s, slot, v);
    }
  }

  // ---- what callers may rely on ----

  /**
   When giving up fails, the waiter has already been granted, so the receive that follows
   does not block; when it succeeds, the waiter is abandoned and never granted.
   */
  lemma AbandonMeaning(s: LockState, slot: Slot, w: nat)
    requires Inv(s) && w < |s.waiters| && s.waiters[w].slot == slot && !s.waiters[w].abandoned
    ensures var (s', ok) := Abandon(s, slot, w);
            && (ok <==> !s.waiters[w].granted)
            && (ok <==> s'.waiters[w].abandoned)
  {
    assert w in Queue(s, slot) <==> IsWaiting(s, slot, w);
    var q := Queue(s, slot);
    var i := Find(q, w);
    assert q[..|q|] == q;
  }

  datatype Op = Take(slot: Slot) | Desert(slot: Slot, waiter: nat) | GiveBack(slot: Slot, ticket: nat)

  predicate CanDo(s: LockState, op: Op) {
    match op
    case Take(_) => true
    case Desert(_, w) => w < |s.waiters|
    case GiveBack(slot, t) => t < |s.tickets| && (Queue(s, slot) != [] ==> Queue(s, slot)[0] < |s.waiters|)
  }

  function Do(s: LockState, op: Op): LockState
    requires CanDo(s, op)
  {
    match op
    case Take(slot) => Acquire(s, slot).0
    case Desert(slot, w) => Abandon(s, slot, w).0
    case GiveBack(slot, t) => Release(s, slot, t)
  }

  predicate CanDoAll(s: LockState, ops: seq<Op>)
    decreases |ops|
  {
    ops == [] || (CanDo(s, ops[0]) && CanDoAll(Do(s, ops[0]), ops[1..]))
  }

  function DoAll(s: LockState, ops: seq<Op>): LockState
    requires CanDoAll(s, ops)
    decreases |ops|
  {
    if ops == [] then s else DoAll(Do(s, ops[0]), ops[1..])
  }

  lemma StaysConsumed(s: LockState, op: Op, t: nat)
    requires CanDo(s, op) && t < |s.tickets| && s.tickets[t].consumed
    ensures t < |Do(s, op).tickets| && Do(s, op).tickets[t].consumed
  {
  }

  lemma {:induction false} ConsumedForGood(s: LockState, ops: seq<Op>, t: nat)
    requires CanDoAll(s, ops) && t < |s.tickets| && s.tickets[t].consumed
    ensures var s' := DoAll(s, ops);
            t < |s'.tickets| && s'.tickets[t].consumed
    decreases |ops|
  {
    hide CanDo, Do;
    if ops != [] {
      StaysConsumed(s, ops[0], t);
      ConsumedForGood(Do(s, ops[0]), ops[1..], t);
    }
  }

  /**
   Releasing twice is releasing once: whatever anybody acquires, abandons or releases in
   between, every later release with the same ticket changes nothing.
   */
  lemma ReleaseOnce(s: LockState, slot: Slot, t: nat, ops: seq<Op>, again: Slot)
    requires Inv(s) && t < |s.tickets| && s.tickets[t].slot == slot && CanDo(s, GiveBack(slot, t))
    requires CanDoAll(Release(s, slot, t), ops)
    requires CanDo(DoAll(Release(s, slot, t), ops), GiveBack(again, t))
    ensures var s' := DoAll(Release(s, slot, t), ops);
            Release(s', again, t) == s'
  {
    assert Release(s, slot, t).tickets[t].consumed;
    hide CanDoAll, DoAll, Inv;
    ConsumedForGood(Release(s, slot, t), ops, t);
  }

  /** A release with waiters hands the slot to the one that has waited longest, in one step. */
  lemma ReleaseHandsOver(s: LockState, slot: Slot, t: nat)
    requires Inv(s) && slot in s.owners && s.owners[slot] == t
    ensures t < |s.tickets| && (Queue(s, slot) != [] ==> Queue(s, slot)[0] < |s.waiters|)
    ensures var s' := Release(s, slot, t);
            if exists w: nat :: IsWaiting(s, slot, w) then
              exists w: nat :: IsWaiting(s, slot, w) && (forall v: nat :: IsWaiting(s, slot, v) ==> w <= v)
                && s'.waiters[w].granted && s'.owners[slot] == s'.waiters[w].ticket.value
            else slot !in s'.owners
  {
    ReleaseDefined(s, slot);
    var q := Queue(s, slot);
    var s' := Release(s, slot, t);
    if w: nat :| IsWaiting(s, slot, w) {
      assert w in q;
      var head := q[0];
      assert Increasing(q);
      forall v: nat | IsWaiting(s, slot, v)
        ensures head <= v
      {
        assert v in q;
      }
      assert IsWaiting(s, slot, head) && s'.waiters[head].granted;
    }
  }
}
