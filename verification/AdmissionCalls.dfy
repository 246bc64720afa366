/** What the handlers of module Admission do when no other thread is at work: connecting,
    disconnecting, handling the completion of a disconnect, and entering the game. */
module AdmissionCalls {
  import opened Common
  import Runs
  import opened SessionManager
  import WQ = WaitQueueManager
  import opened Admission

  lemma ReachedInv(s0: State, s: State)
    requires Inv(s0) && Reaches(s0, s)
    ensures Inv(s)
  {
    var sched: Schedule :| Runs.Run(MoveThread, s0, sched) == s;
    RunInv(s0, sched);
  }

  /** Thread `t` moves, the others, as in `ts`, do not. */
  lemma One(s0: State, m: Mem, ts: seq<Pc>, t: nat, pc: Pc, ch: Choice) returns (m': Mem, pc': Pc)
    requires t < |ts| && Reaches(s0, State(m, ts[t := pc]))
    ensures (m', pc') == Exec(m, t, pc, ch)
    ensures Reaches(s0, State(m', ts[t := pc']))
  {
    m', pc' := Exec(m, t, pc, ch).0, Exec(m, t, pc, ch).1;
    var s' := Runs.Go(MoveThread, s0, State(m, ts[t := pc]), t, ch);
    assert s'.ts == ts[t := pc'];
  }

  lemma FromIdle(s: State, t: nat)
    requires t < |s.ts| && s.ts[t] == Idle
    ensures Reaches(s, State(s.m, s.ts[t := Idle]))
  {
    Runs.ReachesSelf(MoveThread, s);
    assert s.ts[t := Idle] == s.ts;
  }

  lemma Back(s: State, m: Mem, t: nat)
    requires t < |s.ts| && s.ts[t] == Idle && Reaches(s, State(m, s.ts[t := Idle]))
    ensures Reaches(s, State(m, s.ts))
  {
    assert s.ts[t := Idle] == s.ts;
  }

  /** Nothing fails spuriously. */
  function Plain(call: Call, expired: set<Session>, registered: bool): Choice
  {
    Choice(call, expired, registered, false)
  }

  // ------------------------------------------------------------------------ Disconnect

  /** Disconnecting a session that is Disconnected does nothing. */
  lemma GoneAlone(s0: State, m: Mem, ts: seq<Pc>, t: nat, x: Session, k: Cont) returns (m': Mem)
    requires t < |ts| && Reaches(s0, State(m, ts[t := DiscExchange(x, k)])) && StateOf(m, x) == Disconnected
    ensures Reaches(s0, State(m', ts[t := Resume(k)]))
    ensures m' == m.(states := m.states[x := Disconnected]) && forall y :: StateOf(m', y) == StateOf(m, y)
  {
    var pc;
    m', pc := One(s0, m, ts, t, DiscExchange(x, k), Plain(Disconnect(x), {}, true));
  }

  /** Disconnect of an active session stores Disconnected and registers one completion; of
      any other session it changes nothing; the seats are left to the completion. */
  lemma DisconnectCallAlone(s: State, t: nat, x: Session, registered: bool) returns (m: Mem)
    requires t < |s.ts| && s.ts[t] == Idle
    ensures Reaches(s, State(m, s.ts)) && StateOf(m, x) == Disconnected && m.seats == s.m.seats && m.queue == s.m.queue
    ensures forall y :: y != x ==> StateOf(m, y) == StateOf(s.m, y)
    ensures m.leaving ==
      if StateOf(s.m, x) != Disconnected && registered then s.m.leaving + multiset{x} else s.m.leaving
  {
    var ch := Plain(Disconnect(x), {}, registered);
    FromIdle(s, t);
    var pc;
    m, pc := One(s, s.m, s.ts, t, Idle, ch);
    m, pc := One(s, m, s.ts, t, pc, ch);
    if StateOf(s.m, x) != Disconnected {
      m, pc := One(s, m, s.ts, t, pc, ch);
    }
    Back(s, m, t);
  }

  // -------------------------------------------------------------------------- admission

  /** The dequeue of an admission. */
  ghost function Dequeued(m: Mem, expired: set<Session>): (WQ.Queue, Option<Session>)
  {
    if m.waitMax.None? then (m.queue, None) else WQ.Dequeue(m.queue, expired)
  }

  /** What an admission leaves behind: the first session alive is out of the wait queue, and
      the kept seat is given back; sessions, states and completions are as they were. */
  ghost predicate Admitted(m: Mem, m': Mem, expired: set<Session>)
  {
    && m'.queue == Dequeued(m, expired).0 && m'.leaving == m.leaving
    && m'.seats == m.seats.(count := m.seats.count - 1)
    && forall y :: StateOf(m', y) == StateOf(m, y)
  }

  lemma ReleaseAlone(s0: State, m: Mem, ts: seq<Pc>, t: nat, k: Cont, expired: set<Session>) returns (m': Mem)
    requires t < |ts| && Reaches(s0, State(m, ts[t := AdmDequeue(k, true)])) && Dequeued(m, expired).1.None?
    ensures Reaches(s0, State(m', ts[t := Resume(k)])) && Admitted(m, m', expired)
  {
    var ch := Plain(Disconnect(0), expired, true);
    var pc;
    m', pc := One(s0, m, ts, t, AdmDequeue(k, true), ch);
    m', pc := One(s0, m', ts, t, AdmRelease(None, k, true), ch);
  }

  /** A session taken from the wait queue is not in, and Disconnected. */
  lemma PickedIsOut(s: State, t: nat, w: Session)
    requires Inv(s) && t < |s.ts| && s.ts[t].AdmAdd? && s.ts[t].w == w
    ensures w !in s.m.seats.sessions && StateOf(s.m, w) == Disconnected
  {
    assert Local(s.m, t, s.ts[t]);
  }

  lemma PickAlone(s0: State, m: Mem, ts: seq<Pc>, t: nat, k: Cont, expired: set<Session>) returns (m': Mem)
    requires Inv(s0) && t < |ts| && Reaches(s0, State(m, ts[t := AdmDequeue(k, true)])) && Dequeued(m, expired).1.Some?
    ensures Reaches(s0, State(m', ts[t := AdmAdd(Dequeued(m, expired).1.value, k, true)]))
    ensures m' == m.(queue := Dequeued(m, expired).0, phase := m'.phase)
    ensures Dequeued(m, expired).1.value !in m.seats.sessions
    ensures StateOf(m, Dequeued(m, expired).1.value) == Disconnected
  {
    var w := Dequeued(m, expired).1.value;
    var pc;
    m', pc := One(s0, m, ts, t, AdmDequeue(k, true), Plain(Disconnect(0), expired, true));
    ReachedInv(s0, State(m', ts[t := pc]));
    PickedIsOut(State(m', ts[t := pc]), t, w);
  }

  lemma TurnedAwayAlone(s0: State, m: Mem, ts: seq<Pc>, t: nat, w: Session, k: Cont) returns (m': Mem)
    requires t < |ts| && Reaches(s0, State(m, ts[t := AdmAdd(w, k, true)]))
    requires w !in m.seats.sessions && StateOf(m, w) == Disconnected
    ensures Reaches(s0, State(m', ts[t := Resume(k)]))
    ensures m'.queue == m.queue && m'.leaving == m.leaving && m'.seats == m.seats.(count := m.seats.count - 1)
    ensures forall y :: StateOf(m', y) == StateOf(m, y)
  {
    var ch := Plain(Disconnect(0), {}, true);
    var pc;
    m', pc := One(s0, m, ts, t, AdmAdd(w, k, true), ch);
    m', pc := One(s0, m', ts, t, AdmSet(w, k), ch);
    m', pc := One(s0, m', ts, t, AdmRemove(w, k), ch);
    assert m.seats.sessions + {w} - {w} == m.seats.sessions;
    m' := GoneAlone(s0, m', ts, t, w, k);
  }

  lemma AdmitAlone(s0: State, m: Mem, ts: seq<Pc>, t: nat, k: Cont, expired: set<Session>) returns (m': Mem)
    requires Inv(s0) && t < |ts| && Reaches(s0, State(m, ts[t := AdmDequeue(k, true)]))
    ensures Reaches(s0, State(m', ts[t := Resume(k)])) && Admitted(m, m', expired)
  {
    if Dequeued(m, expired).1.None? {
      m' := ReleaseAlone(s0, m, ts, t, k, expired);
    } else {
      m' := PickAlone(s0, m, ts, t, k, expired);
      m' := TurnedAwayAlone(s0, m', ts, t, Dequeued(m, expired).1.value, k);
    }
  }

  /** The completion of a disconnect, handled alone: the session is out and its seat free
      again, the completion is used up, and the wait queue has lost its first session alive
      and the expired ones before it. */
  lemma CompletionAlone(s: State, t: nat, x: Session, expired: set<Session>) returns (m: Mem)
    requires Inv(s) && t < |s.ts| && s.ts[t] == Idle && s.m.leaving[x] > 0
    ensures Reaches(s, State(m, s.ts)) && x in s.m.seats.sessions
    ensures m.seats == s.m.seats.(count := s.m.seats.count - 1, sessions := s.m.seats.sessions - {x})
    ensures m.leaving == s.m.leaving - multiset{x} && m.queue == Dequeued(s.m, expired).0
    ensures forall y :: StateOf(m, y) == StateOf(s.m, y)
  {
    var ch := Plain(Complete(x), expired, true);
    assert LeavingOk(s.m.leaving, s.m.phase) && MembersOk(s.m.seats.sessions, s.m.phase);
    FromIdle(s, t);
    var pc;
    m, pc := One(s, s.m, s.ts, t, Idle, ch);
    m, pc := One(s, m, s.ts, t, DropRemove(x), ch);
    m := AdmitAlone(s, m, s.ts, t, Fin, expired);
    Back(s, m, t);
  }

  // ------------------------------------------------------------------------- connecting

  /** A session that never connected is not in, and Disconnected. */
  lemma NewIsOut(s: State, x: Session)
    requires Inv(s) && x !in s.m.phase
    ensures x !in s.m.seats.sessions && StateOf(s.m, x) == Disconnected
  {
    assert MembersOk(s.m.seats.sessions, s.m.phase) && StatesOk(s.m.states, s.m.phase);
  }

  /** Connecting with a seat free: the session is in, and Connected. */
  lemma ConnectCallAlone(s: State, t: nat, x: Session) returns (m: Mem)
    requires Inv(s) && t < |s.ts| && s.ts[t] == Idle && x !in s.m.phase && s.m.seats.count < s.m.seats.max
    ensures Reaches(s, State(m, s.ts)) && StateOf(m, x) == Connected
    ensures m.seats == s.m.seats.(count := s.m.seats.count + 1, sessions := s.m.seats.sessions + {x})
    ensures m.queue == s.m.queue && m.leaving == s.m.leaving && forall y :: y != x ==> StateOf(m, y) == StateOf(s.m, y)
  {
    var ch := Plain(Connect(x), {}, true);
    NewIsOut(s, x);
    FromIdle(s, t);
    var pc;
    m, pc := One(s, s.m, s.ts, t, Idle, ch);
    m, pc := One(s, m, s.ts, t, ConnAdd(x), ch);
    m, pc := One(s, m, s.ts, t, ConnSet(x), ch);
    Back(s, m, t);
  }

  /** With no seat free the session is left Disconnected, at the end of the wait queue if
      there is one with room; whether the compare-and-swap of setSessionWaiting then fails
      makes no difference. */
  lemma RefusedCallAlone(s: State, t: nat, x: Session, spurious: bool) returns (m: Mem)
    requires Inv(s) && t < |s.ts| && s.ts[t] == Idle && x !in s.m.phase && s.m.seats.count >= s.m.seats.max
    ensures Reaches(s, State(m, s.ts)) && m.seats == s.m.seats && m.leaving == s.m.leaving
    ensures forall y :: StateOf(m, y) == StateOf(s.m, y)
    ensures m.queue == if s.m.waitMax.Some? then WQ.Enter(s.m.queue, s.m.waitMax.value, x).0 else s.m.queue
  {
    NewIsOut(s, x);
    var pc;
    m, pc := TurnAlone(s, t, x);
    if pc == ConnSetQueued(x) {
      m, pc := One(s, m, s.ts, t, ConnSetQueued(x), Choice(Connect(x), {}, true, spurious));
      if spurious {
        m := GoneAlone(s, m, s.ts, t, x, Refused(x));
        m := GoneAlone(s, m, s.ts, t, x, Fin);
      }
    } else {
      m := GoneAlone(s, m, s.ts, t, x, Fin);
    }
    Back(s, m, t);
  }

  /** Up to the answer of the wait queue. */
  lemma TurnAlone(s: State, t: nat, x: Session) returns (m: Mem, pc: Pc)
    requires t < |s.ts| && s.ts[t] == Idle && x !in s.m.phase && s.m.seats.count >= s.m.seats.max
    ensures Reaches(s, State(m, s.ts[t := pc]))
    ensures m.seats == s.m.seats && m.leaving == s.m.leaving && m.states == s.m.states
    ensures m.queue == if s.m.waitMax.Some? then WQ.Enter(s.m.queue, s.m.waitMax.value, x).0 else s.m.queue
    ensures pc == if s.m.waitMax.Some? && WQ.Enter(s.m.queue, s.m.waitMax.value, x).1.Some?
                  then ConnSetQueued(x) else DiscExchange(x, Fin)
  {
    var ch := Plain(Connect(x), {}, true);
    FromIdle(s, t);
    m, pc := One(s, s.m, s.ts, t, Idle, ch);
    m, pc := One(s, m, s.ts, t, ConnAdd(x), ch);
    m, pc := One(s, m, s.ts, t, ConnQueue(x), ch);
  }

  /** Up to the removal of a session whose compare-and-swap to Connected failed. */
  lemma LoseAlone(s: State, t: nat, x: Session) returns (m: Mem)
    requires t < |s.ts| && s.ts[t] == Idle && x !in s.m.phase && s.m.seats.count < s.m.seats.max
    requires x !in s.m.seats.sessions && StateOf(s.m, x) == Disconnected
    ensures Reaches(s, State(m, s.ts[t := AdmDequeue(Rollback(x), true)]))
    ensures m.seats == s.m.seats.(count := s.m.seats.count + 1)
    ensures m.queue == s.m.queue && m.waitMax == s.m.waitMax && m.leaving == s.m.leaving
    ensures forall y :: StateOf(m, y) == StateOf(s.m, y)
  {
    var ch := Plain(Connect(x), {}, true);
    FromIdle(s, t);
    var pc;
    m, pc := One(s, s.m, s.ts, t, Idle, ch);
    m, pc := One(s, m, s.ts, t, ConnAdd(x), ch);
    m, pc := One(s, m, s.ts, t, ConnSet(x), ch.(spurious := true));
    m, pc := One(s, m, s.ts, t, ConnSetWaiting(x), ch);
    m, pc := One(s, m, s.ts, t, ConnRemove(x), ch);
    assert s.m.seats.sessions + {x} - {x} == s.m.seats.sessions;
  }

  /** A compare-and-swap to Connected that fails spuriously is rolled back: seats and
      states are as before, though the wait queue has lost a session. */
  lemma RolledBackCallAlone(s: State, t: nat, x: Session, expired: set<Session>) returns (m: Mem)
    requires Inv(s) && t < |s.ts| && s.ts[t] == Idle && x !in s.m.phase && s.m.seats.count < s.m.seats.max
    ensures Reaches(s, State(m, s.ts)) && m.seats == s.m.seats && m.leaving == s.m.leaving
    ensures forall y :: StateOf(m, y) == StateOf(s.m, y)
    ensures m.queue == Dequeued(s.m, expired).0
  {
    NewIsOut(s, x);
    m := LoseAlone(s, t, x);
    assert Dequeued(m, expired) == Dequeued(s.m, expired);
    m := AdmitAlone(s, m, s.ts, t, Rollback(x), expired);
    m := GoneAlone(s, m, s.ts, t, x, Refused(x));
    m := GoneAlone(s, m, s.ts, t, x, Fin);
    Back(s, m, t);
  }

  /** SetSessionInGame takes a Connected session into the game and leaves any other. */
  lemma EnterGameAlone(s: State, t: nat, x: Session) returns (m: Mem)
    requires t < |s.ts| && s.ts[t] == Idle
    ensures Reaches(s, State(m, s.ts)) && m.seats == s.m.seats && m.queue == s.m.queue && m.leaving == s.m.leaving
    ensures StateOf(m, x) == if StateOf(s.m, x) == Connected then InGame else StateOf(s.m, x)
    ensures forall y :: y != x ==> StateOf(m, y) == StateOf(s.m, y)
  {
    FromIdle(s, t);
    var pc;
    m, pc := One(s, s.m, s.ts, t, Idle, Plain(EnterGame(x), {}, true));
    Back(s, m, t);
  }
}
