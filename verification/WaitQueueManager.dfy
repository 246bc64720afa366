/** The wait queue of CppNetEngine/WaitQueueManager.cpp and its tickets.

    A queued session is held weakly: which of them have expired by the time of a
    dequeue is a parameter. */
module WaitQueueManager {
  import opened Common

  /** mEnterTicket, mWaitTicket and the queue. */
  datatype Queue = Queue(enter: nat, wait: nat, entries: seq<Session>)

  const EMPTY := Queue(0, 0, [])

  /** EnterWaitQueue: the ticket issued, unless the queue is full. */
  function Enter(q: Queue, max: int, s: Session): (Queue, Option<nat>)
  {
    if max <= |q.entries| then (q, None)
    else (Queue(q.enter, q.wait + 1, q.entries + [s]), Some(q.wait))
  }

  /** DequeueWaitQueue: the first entry that has not expired; expired ones are skipped
      and use up their tickets. */
  function Dequeue(q: Queue, expired: set<Session>): (Queue, Option<Session>)
    decreases |q.entries|
  {
    if q.entries == [] then (q, None)
    else
      var q' := Queue(q.enter + 1, q.wait, q.entries[1..]);
      if q.entries[0] in expired then Dequeue(q', expired) else (q', Some(q.entries[0]))
  }

  function WaitCount(q: Queue, ticket: nat): (c: nat)
  {
    if ticket > q.enter then ticket - q.enter else 0
  }

  class WaitQueueManager {
    const mMaxWaitSize: int
    var mWaitTicket: nat
    var mEnterTicket: nat
    var mEnterWaitQueue: seq<Session>

    function View(): Queue
      reads this
    {
      Queue(mEnterTicket, mWaitTicket, mEnterWaitQueue)
    }

    constructor (maxWaitSize: int)
      ensures View() == EMPTY && mMaxWaitSize == maxWaitSize
    {
      mMaxWaitSize := maxWaitSize;
      mWaitTicket := 0;
      mEnterTicket := 0;
      mEnterWaitQueue := [];
    }

    method EnterWaitQueue(s: Session) returns (ok: bool, ticket: nat)
      modifies this
      ensures (View(), if ok then Some(ticket) else None) == Enter(old(View()), mMaxWaitSize, s)
    {
      if mMaxWaitSize <= |mEnterWaitQueue| {
        return false, 0;
      }
      mEnterWaitQueue := mEnterWaitQueue + [s];
      ticket := mWaitTicket;
      mWaitTicket := mWaitTicket + 1;
      return true, ticket;
    }

    method DequeueWaitQueue(expired: set<Session>) returns (r: Option<Session>)
      modifies this
      ensures (View(), r) == Dequeue(old(View()), expired)
    {
      while mEnterWaitQueue != []
        invariant Dequeue(View(), expired) == Dequeue(old(View()), expired)
        decreases |mEnterWaitQueue|
      {
        mEnterTicket := mEnterTicket + 1;
        var s := mEnterWaitQueue[0];
        mEnterWaitQueue := mEnterWaitQueue[1..];
        if s in expired {
          continue;
        }
        return Some(s);
      }
      return None;
    }

    method GetWaitCount(ticket: nat) returns (c: nat)
      ensures c == WaitCount(View(), ticket)
    {
      if ticket > mEnterTicket {
        return ticket - mEnterTicket;
      }
      return 0;
    }
  }

  // ------------------------------------------------------------------ whole runs

  datatype Op = EnterOp(s: Session) | DequeueOp(expired: set<Session>)

  /** The queue after a run, and the sessions that ever entered, in order; the ticket
      issued to the k-th of them is k (lemma EnterIssuesNextTicket). */
  ghost function Run(max: int, ops: seq<Op>): (Queue, seq<Session>)
  {
    if ops == [] then (EMPTY, [])
    else
      var (q, all) := Run(max, ops[..|ops| - 1]);
      match ops[|ops| - 1]
      case EnterOp(s) =>
        var (q', ticket) := Enter(q, max, s);
        (q', if ticket.Some? then all + [s] else all)
      case DequeueOp(expired) => (Dequeue(q, expired).0, all)
  }

  /** The queued sessions are those that entered from mEnterTicket on, so the queued
      tickets are exactly mEnterTicket..mWaitTicket-1, in order. */
  ghost predicate Exact(q: Queue, all: seq<Session>)
  {
    q.enter <= q.wait == |all| && q.entries == all[q.enter..]
  }

  /** A dequeue answers the first session from the front that has not expired, and moves
      the enter ticket just past it; with none, it empties the queue. */
  lemma {:induction false} DequeueIsFirstAlive(q: Queue, expired: set<Session>, all: seq<Session>)
    requires Exact(q, all)
    ensures var (q', r) := Dequeue(q, expired);
      && Exact(q', all) && q.enter <= q'.enter
      && match r
         case Some(s) =>
           && q'.enter > q.enter && s == all[q'.enter - 1] && s !in expired
           && forall k :: q.enter <= k < q'.enter - 1 ==> all[k] in expired
         case None =>
           && q'.enter == |all|
           && forall k :: q.enter <= k < |all| ==> all[k] in expired
    decreases |q.entries|
  {
    if q.entries == [] {
    } else {
      var q1 := Queue(q.enter + 1, q.wait, q.entries[1..]);
      assert q.entries[0] == all[q.enter];
      if q.entries[0] in expired {
        DequeueIsFirstAlive(q1, expired, all);
      }
    }
  }

  lemma {:induction false} RunIsExact(max: int, ops: seq<Op>)
    ensures var (q, all) := Run(max, ops); Exact(q, all) && |q.entries| <= Max(0, max)
  {
    if ops == [] {
    } else {
      RunIsExact(max, ops[..|ops| - 1]);
      var (q, all) := Run(max, ops[..|ops| - 1]);
      if ops[|ops| - 1].DequeueOp? { DequeueIsFirstAlive(q, ops[|ops| - 1].expired, all); }
    }
  }

  /** Entering issues the next ticket: the k-th session that ever entered holds ticket k,
      stands last, and waits for all that are queued before it. */
  lemma EnterIssuesNextTicket(q: Queue, max: int, s: Session, all: seq<Session>)
    requires Exact(q, all)
    ensures var (q', ticket) := Enter(q, max, s);
      && (ticket.Some? <==> |q.entries| < max)
      && (ticket.Some? ==>
            && ticket.value == |all| && Exact(q', all + [s]) && (all + [s])[ticket.value] == s
            && q'.entries[|q.entries|] == s && WaitCount(q', ticket.value) == |q.entries|)
      && (ticket.None? ==> q' == q)
  {
    assert (all + [s])[q.enter..] == all[q.enter..] + [s];
  }

  /** The holder of a queued ticket stands at the position in the queue that its wait count
      names, and so has that many predecessors; a ticket that has left the queue, and the
      front one, counts zero. */
  ghost predicate CountsExact(q: Queue, all: seq<Session>)
  {
    && q.enter + |q.entries| == |all|
    && (forall ticket: nat :: q.enter <= ticket < |all| ==>
          WaitCount(q, ticket) == ticket - q.enter && q.entries[ticket - q.enter] == all[ticket])
    && (forall ticket: nat :: ticket <= q.enter ==> WaitCount(q, ticket) == 0)
  }

  lemma ExactCounts(q: Queue, all: seq<Session>)
    requires Exact(q, all)
    ensures CountsExact(q, all)
  {
    forall ticket: nat | q.enter <= ticket < |all|
      ensures q.entries[ticket - q.enter] == all[ticket]
    {
      assert all[q.enter..][ticket - q.enter] == all[ticket];
    }
  }

  /** Over all runs the queued tickets are exact, and the wait count of a ticket still
      queued is its exact number of predecessors in the queue; any ticket that has left
      the queue, and the front one, counts zero; and a further call of EnterWaitQueue
      that is let in gets the number of sessions that ever entered as its ticket. */
  lemma TicketsAreExact(max: int, ops: seq<Op>, q: Queue, all: seq<Session>, s: Session)
    requires (q, all) == Run(max, ops)
    ensures Exact(q, all) && CountsExact(q, all)
    ensures |q.entries| <= Max(0, max)
    ensures Enter(q, max, s).1 == if |q.entries| < max then Some(|all|) else None
  {
    RunIsExact(max, ops);
    ExactCounts(q, all);
    EnterIssuesNextTicket(q, max, s, all);
  }
}
