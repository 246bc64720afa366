/** Session admission across CppNetEngine/Session.cpp, Service.cpp, SessionManager.cpp and
    WaitQueueManager.cpp, as a step machine: every locked section and every operation on
    a session's atomic state is one step.

    processConnect runs at most once per session; a disconnect completion is delivered
    once per successful registration; every compare-and-swap may fail spuriously. */
module Admission {
  import opened Common
  import Runs
  import opened Threads
  import opened SessionManager
  import WQ = WaitQueueManager

  /** eSessionState. */
  datatype SState = Connected | Waiting | InGame | Disconnected

  /** Where Service::RemoveSession or Session::Disconnect returns to: the end of the
      call, the roll-back of AddSession, or processConnect after a refusal. */
  datatype Cont = Fin | Rollback(s: Session) | Refused(s: Session)

  datatype Pc =
    | Idle
    // processConnect: Service::AddSession
    | ConnAdd(s: Session)
    | ConnSet(s: Session)
    | ConnSetWaiting(s: Session)
    | ConnRemove(s: Session)
    | ConnQueue(s: Session)
    | ConnSetQueued(s: Session)
    // Session::Disconnect
    | DiscExchange(s: Session, k: Cont)
    | DiscRegister(s: Session, k: Cont)
    // processDisconnect
    | DropRemove(s: Session)
    // Service::admitWaitingSession; `seat` says whether a kept seat came along
    | AdmDequeue(k: Cont, seat: bool)
    | AdmAdd(w: Session, k: Cont, seat: bool)
    | AdmRelease(refused: Option<Session>, k: Cont, seat: bool)
    | AdmSet(w: Session, k: Cont)
    | AdmRemove(w: Session, k: Cont)

  /** What an idle thread starts. */
  datatype Call = Connect(s: Session) | Disconnect(s: Session) | Complete(s: Session) | EnterGame(s: Session)

  /** The environment's choices: the call of an idle thread, the queued sessions expired
      by now, whether a disconnect can be registered, and spurious failures. */
  datatype Choice = Choice(call: Call, expired: set<Session>, registered: bool, spurious: bool)

  /** Where a session is in its life, and which thread is moving it. */
  datatype Phase =
    | Connecting(t: nat) | Joined(t: nat) | Active | Dropping(t: nat) | Leaving | Removing(t: nat)
    | Queued(ticket: nat) | Picked(t: nat) | Seated(t: nat) | Gone

  /** The session manager, the wait queue (with its size, if there is one), the states
      of the sessions and the disconnect completions to come; then history: who entered
      the wait queue, and the phase of each session that started to connect. */
  datatype Mem = Mem(
    seats: Seats, waitMax: Option<int>, queue: WQ.Queue, states: map<Session, SState>, leaving: multiset<Session>,
    entered: seq<Session>, phase: map<Session, Phase>)

  datatype State = State(m: Mem, ts: seq<Pc>)

  // ---------------------------------------------------------------- the machine

  function Init(max: int, waitMax: Option<int>, threads: nat): State
  {
    State(Mem(Seats(max, 0, {}), waitMax, WQ.EMPTY, map[], multiset{}, [], map[]), seq(threads, _ => Idle))
  }

  function StateOf(m: Mem, s: Session): SState
  {
    if s in m.states then m.states[s] else Disconnected
  }

  function Resume(k: Cont): Pc
  {
    match k
    case Fin => Idle
    case Rollback(s) => DiscExchange(s, Refused(s))
    case Refused(s) => DiscExchange(s, Fin)
  }

  function ExecIdle(m: Mem, t: nat, call: Call): (Mem, Pc)
  {
    match call
    case Connect(s) =>
      if s in m.phase then (m, Idle) else (m.(phase := m.phase[s := Connecting(t)]), ConnAdd(s))
    case Disconnect(s) => (m, DiscExchange(s, Fin))
    case Complete(s) =>
      if m.leaving[s] == 0 then (m, Idle)
      else (m.(leaving := m.leaving - multiset{s}, phase := m.phase[s := Removing(t)]), DropRemove(s))
    case EnterGame(s) =>
      (if StateOf(m, s) == Connected then m.(states := m.states[s := InGame]) else m, Idle)
  }

  function ExecConnect(m: Mem, t: nat, pc: Pc, ch: Choice): (Mem, Pc)
    requires pc.ConnAdd? || pc.ConnSet? || pc.ConnSetWaiting? || pc.ConnRemove? || pc.ConnQueue? || pc.ConnSetQueued?
  {
    match pc
    case ConnAdd(s) =>
      var (seats, ok) := Add(m.seats, s);
      if ok then (m.(seats := seats, phase := m.phase[s := Joined(t)]), ConnSet(s)) else (m, ConnQueue(s))
    case ConnSet(s) =>  // setSessionConnected
      if StateOf(m, s) == Disconnected && !ch.spurious
      then (m.(states := m.states[s := Connected], phase := m.phase[s := Active]), Idle)
      else (m, ConnSetWaiting(s))
    case ConnSetWaiting(s) =>  // setWaitingToConnected
      if StateOf(m, s) == Waiting && !ch.spurious
      then (m.(states := m.states[s := Connected], phase := m.phase[s := Active]), Idle)
      else (m, ConnRemove(s))
    case ConnRemove(s) =>
      (m.(seats := Remove(m.seats, s, true), phase := m.phase[s := Gone]),
       AdmDequeue(Rollback(s), s in m.seats.sessions))
    case ConnQueue(s) =>
      if m.waitMax.None? then (m.(phase := m.phase[s := Gone]), DiscExchange(s, Fin))
      else
        var (q, ticket) := WQ.Enter(m.queue, m.waitMax.value, s);
        if ticket.Some?
        then (m.(queue := q, entered := m.entered + [s], phase := m.phase[s := Queued(ticket.value)]), ConnSetQueued(s))
        else (m.(phase := m.phase[s := Gone]), DiscExchange(s, Fin))
    case ConnSetQueued(s) =>  // setSessionWaiting, which stores Disconnected
      if StateOf(m, s) == Disconnected && !ch.spurious
      then (m.(states := m.states[s := Disconnected]), Idle)
      else (m, DiscExchange(s, Refused(s)))
  }

  function ExecDisconnect(m: Mem, t: nat, pc: Pc, ch: Choice): (Mem, Pc)
    requires pc.DiscExchange? || pc.DiscRegister? || pc.DropRemove?
  {
    match pc
    case DiscExchange(s, k) =>
      if StateOf(m, s) == Disconnected then (m.(states := m.states[s := Disconnected]), Resume(k))
      else (m.(states := m.states[s := Disconnected], phase := m.phase[s := Dropping(t)]), DiscRegister(s, k))
    case DiscRegister(s, k) =>
      (if ch.registered
       then m.(leaving := m.leaving + multiset{s}, phase := m.phase[s := Leaving])
       else m.(phase := m.phase[s := Leaving]),
       Resume(k))
    case DropRemove(s) =>
      (m.(seats := Remove(m.seats, s, true), phase := m.phase[s := Gone]),
       AdmDequeue(Fin, s in m.seats.sessions))
  }

  /** The phases after a dequeue: the session picked, and the expired ones skipped. */
  function Dequeued(phase: map<Session, Phase>, t: nat, enter: nat, picked: Option<Session>): map<Session, Phase>
  {
    map s | s in phase ::
      if phase[s].Queued? && phase[s].ticket < enter
      then (if picked == Some(s) then Picked(t) else Gone)
      else phase[s]
  }

  function ExecAdmit(m: Mem, t: nat, pc: Pc, ch: Choice): (Mem, Pc)
    requires pc.AdmDequeue? || pc.AdmAdd? || pc.AdmRelease? || pc.AdmSet? || pc.AdmRemove?
  {
    match pc
    case AdmDequeue(k, seat) =>
      if m.waitMax.None? then (m, AdmRelease(None, k, seat))
      else
        var (q, w) := WQ.Dequeue(m.queue, ch.expired);
        (m.(queue := q, phase := Dequeued(m.phase, t, q.enter, w)),
         if w.Some? then AdmAdd(w.value, k, seat) else AdmRelease(None, k, seat))
    case AdmAdd(w, k, seat) =>
      var (seats, ok) := AddWaiting(m.seats, w);
      if ok then (m.(seats := seats, phase := m.phase[w := Seated(t)]), AdmSet(w, k))
      else (m, AdmRelease(Some(w), k, seat))
    case AdmRelease(refused, k, _) =>
      (m.(seats := Release(m.seats)), if refused.Some? then DiscExchange(refused.value, k) else Resume(k))
    case AdmSet(w, k) =>  // setWaitingToConnected
      if StateOf(m, w) == Waiting && !ch.spurious
      then (m.(states := m.states[w := Connected], phase := m.phase[w := Active]), Resume(k))
      else (m, AdmRemove(w, k))
    case AdmRemove(w, k) =>
      (m.(seats := Remove(m.seats, w, false), phase := m.phase[w := Gone]), DiscExchange(w, k))
  }

  function Exec(m: Mem, t: nat, pc: Pc, ch: Choice): (Mem, Pc)
  {
    if pc.Idle? then ExecIdle(m, t, ch.call)
    else if pc.DiscExchange? || pc.DiscRegister? || pc.DropRemove? then ExecDisconnect(m, t, pc, ch)
    else if pc.AdmDequeue? || pc.AdmAdd? || pc.AdmRelease? || pc.AdmSet? || pc.AdmRemove? then ExecAdmit(m, t, pc, ch)
    else ExecConnect(m, t, pc, ch)
  }

  function Step(s: State, t: nat, ch: Choice): (s': State)
    requires t < |s.ts|
    ensures |s'.ts| == |s.ts|
  {
    var (m', pc') := Exec(s.m, t, s.ts[t], ch);
    State(m', s.ts[t := pc'])
  }

  type Schedule = seq<(nat, Choice)>

  /** A thread that does not exist does not move. */
  function MoveThread(s: State, t: nat, ch: Choice): (s': State)
    ensures |s'.ts| == |s.ts|
  {
    if t < |s.ts| then Step(s, t, ch) else s
  }

  ghost function Run(s: State, sched: Schedule): (s': State)
  {
    Runs.Run(MoveThread, s, sched)
  }

  // ---------------------------------------------------------------- the invariant

  predicate Member(p: Phase)
  {
    p.Joined? || p.Active? || p.Dropping? || p.Leaving? || p.Removing? || p.Seated?
  }

  /** The session set holds exactly the members. */
  ghost predicate MembersOk(sessions: set<Session>, phase: map<Session, Phase>)
  {
    forall s :: s in sessions <==> s in phase && Member(phase[s])
  }

  /** A session's state is Connected or InGame exactly while it is active, and never
      Waiting. */
  ghost predicate StatesOk(states: map<Session, SState>, phase: map<Session, Phase>)
  {
    && (forall s :: s in states ==> states[s] != Waiting)
    && (forall s :: s in phase && phase[s] == Active ==> s in states && states[s] != Disconnected)
    && (forall s :: s in states && states[s] != Disconnected ==> s in phase && phase[s] == Active)
  }

  /** A disconnect completion is due at most once, and only for a leaving session. */
  ghost predicate LeavingOk(leaving: multiset<Session>, phase: map<Session, Phase>)
  {
    forall s :: leaving[s] <= (if s in phase && phase[s] == Leaving then 1 else 0)
  }

  ghost predicate QueuedOk(q: WQ.Queue, entered: seq<Session>, phase: map<Session, Phase>)
  {
    && WQ.Exact(q, entered)
    && (forall k :: q.enter <= k < |entered| ==> entered[k] in phase && phase[entered[k]] == Queued(k))
    && (forall s :: s in phase && phase[s].Queued? ==>
          q.enter <= phase[s].ticket < |entered| && entered[phase[s].ticket] == s)
  }

  ghost predicate Shape(m: Mem)
  {
    && MembersOk(m.seats.sessions, m.phase)
    && StatesOk(m.states, m.phase)
    && LeavingOk(m.leaving, m.phase)
    && QueuedOk(m.queue, m.entered, m.phase)
  }

  ghost predicate Is(m: Mem, s: Session, p: Phase)
  {
    s in m.phase && m.phase[s] == p
  }

  ghost predicate Local(m: Mem, t: nat, pc: Pc)
  {
    match pc
    case ConnAdd(s) => Is(m, s, Connecting(t))
    case ConnSet(s) => Is(m, s, Joined(t))
    case ConnSetWaiting(s) => Is(m, s, Joined(t))
    case ConnRemove(s) => Is(m, s, Joined(t))
    case ConnQueue(s) => Is(m, s, Connecting(t))
    case DiscRegister(s, _) => Is(m, s, Dropping(t))
    case DropRemove(s) => Is(m, s, Removing(t))
    case AdmDequeue(_, seat) => seat
    case AdmAdd(w, _, seat) => seat && Is(m, w, Picked(t))
    case AdmRelease(_, _, seat) => seat
    case AdmSet(w, _) => Is(m, w, Seated(t))
    case AdmRemove(w, _) => Is(m, w, Seated(t))
    case _ => true
  }

  /** A seat in transit: given up by one session, not yet taken or released. */
  predicate InTransit(pc: Pc)
  {
    (pc.AdmDequeue? || pc.AdmAdd? || pc.AdmRelease?) && pc.seat
  }

  ghost predicate Conserved(m: Mem, ts: seq<Pc>)
  {
    && m.seats.count == |m.seats.sessions| + Count(ts, InTransit)
    && m.seats.count <= Max(0, m.seats.max)
  }

  ghost predicate Inv(s: State)
  {
    && Shape(s.m)
    && (forall t :: 0 <= t < |s.ts| ==> Local(s.m, t, s.ts[t]))
    && Conserved(s.m, s.ts)
  }

  /** A phase that a step of thread `t` never changes: another thread is moving the
      session, or it is gone for good. */
  predicate Fixed(p: Phase, t: nat)
  {
    || p.Gone?
    || ((p.Connecting? || p.Joined? || p.Dropping? || p.Removing? || p.Picked? || p.Seated?) && p.t != t)
  }

  ghost predicate Keeps(phase: map<Session, Phase>, phase': map<Session, Phase>, t: nat)
  {
    forall s :: s in phase && Fixed(phase[s], t) ==> s in phase' && phase'[s] == phase[s]
  }

  lemma LocalStable(m: Mem, m': Mem, t: nat, u: nat, pc: Pc)
    requires Keeps(m.phase, m'.phase, t) && u != t
    requires Local(m, u, pc)
    ensures Local(m', u, pc)
  {
  }

  // ------------------------------------------------------- one session moves on

  lemma MoveMembers(sessions: set<Session>, sessions': set<Session>, phase: map<Session, Phase>, s: Session, p: Phase)
    requires MembersOk(sessions, phase)
    requires sessions' == if Member(p) then sessions + {s} else sessions - {s}
    ensures MembersOk(sessions', phase[s := p])
  {
  }

  /** The state of `s` is written along, or its old and new phase are not active. */
  ghost predicate StateFollows(states: map<Session, SState>, states': map<Session, SState>,
    phase: map<Session, Phase>, s: Session, p: Phase)
  {
    || (states' == states && p != Active && (s in phase ==> phase[s] != Active))
    || (s in states' && states' == states[s := states'[s]] && states'[s] != Waiting
        && (states'[s] != Disconnected <==> p == Active))
  }

  lemma MoveStates(states: map<Session, SState>, states': map<Session, SState>,
    phase: map<Session, Phase>, s: Session, p: Phase)
    requires StatesOk(states, phase) && StateFollows(states, states', phase, s, p)
    ensures StatesOk(states', phase[s := p])
  {
  }

  lemma MoveQueued(q: WQ.Queue, entered: seq<Session>, phase: map<Session, Phase>, s: Session, p: Phase)
    requires QueuedOk(q, entered, phase)
    requires !p.Queued? && (s in phase ==> !phase[s].Queued?)
    ensures QueuedOk(q, entered, phase[s := p])
  {
    forall k | q.enter <= k < |entered|
      ensures entered[k] in phase[s := p] && phase[s := p][entered[k]] == Queued(k)
    {
      assert entered[k] in phase && phase[entered[k]] == Queued(k);
    }
  }

  lemma MoveLeaving(leaving: multiset<Session>, leaving': multiset<Session>,
    phase: map<Session, Phase>, s: Session, p: Phase)
    requires LeavingOk(leaving, phase)
    requires leaving'[s] <= Bit(p == Leaving) && forall u :: u != s ==> leaving'[u] == leaving[u]
    ensures LeavingOk(leaving', phase[s := p])
  {
    forall u
      ensures leaving'[u] <= (if u in phase[s := p] && phase[s := p][u] == Leaving then 1 else 0)
    {
      assert leaving[u] <= (if u in phase && phase[u] == Leaving then 1 else 0);
    }
  }

  /** Session `s` goes to phase `p`, and the session set, its state and its pending
      completion follow. */
  lemma Move(m: Mem, m': Mem, t: nat, s: Session, p: Phase)
    requires Shape(m)
    requires m'.phase == m.phase[s := p] && m'.queue == m.queue && m'.entered == m.entered
    requires m'.seats.sessions == if Member(p) then m.seats.sessions + {s} else m.seats.sessions - {s}
    requires !p.Queued? && (s in m.phase ==> !Fixed(m.phase[s], t) && !m.phase[s].Queued?)
    requires StateFollows(m.states, m'.states, m.phase, s, p)
    requires m'.leaving[s] <= Bit(p == Leaving) && forall u :: u != s ==> m'.leaving[u] == m.leaving[u]
    ensures Shape(m') && Keeps(m.phase, m'.phase, t)
  {
    MoveMembers(m.seats.sessions, m'.seats.sessions, m.phase, s, p);
    MoveStates(m.states, m'.states, m.phase, s, p);
    MoveQueued(m.queue, m.entered, m.phase, s, p);
    MoveLeaving(m.leaving, m'.leaving, m.phase, s, p);
  }

  /** Storing Disconnected over Disconnected changes nothing that matters. */
  lemma StoreDisconnected(states: map<Session, SState>, phase: map<Session, Phase>, s: Session)
    requires StatesOk(states, phase)
    requires s in states ==> states[s] == Disconnected
    ensures StatesOk(states[s := Disconnected], phase)
  {
  }

  /** Joining the wait queue. */
  lemma MoveIntoQueue(q: WQ.Queue, entered: seq<Session>, phase: map<Session, Phase>, s: Session)
    requires QueuedOk(q, entered, phase)
    requires s in phase ==> !phase[s].Queued?
    ensures QueuedOk(WQ.Queue(q.enter, q.wait + 1, q.entries + [s]), entered + [s], phase[s := Queued(q.wait)])
  {
    var entered' := entered + [s];
    var phase' := phase[s := Queued(q.wait)];
    assert entered'[q.enter..] == entered[q.enter..] + [s];
    forall k | q.enter <= k < |entered'|
      ensures entered'[k] in phase' && phase'[entered'[k]] == Queued(k)
    {
      if k < |entered| {
        assert entered[k] in phase && phase[entered[k]] == Queued(k);
      }
    }
  }

  /** The sessions still queued after a dequeue are the entries still there. */
  lemma DequeueQueued(q: WQ.Queue, q': WQ.Queue, w: Option<Session>, entered: seq<Session>,
    phase: map<Session, Phase>, t: nat)
    requires QueuedOk(q, entered, phase) && WQ.Exact(q', entered) && q.enter <= q'.enter
    ensures QueuedOk(q', entered, Dequeued(phase, t, q'.enter, w))
  {
    var phase' := Dequeued(phase, t, q'.enter, w);
    forall k | q'.enter <= k < |entered|
      ensures entered[k] in phase' && phase'[entered[k]] == Queued(k)
    {
      assert entered[k] in phase && phase[entered[k]] == Queued(k);
    }
  }

  /** A dequeue touches neither members nor active or leaving sessions. */
  lemma DequeueMembers(sessions: set<Session>, states: map<Session, SState>, phase: map<Session, Phase>,
    t: nat, enter: nat, w: Option<Session>)
    requires MembersOk(sessions, phase) && StatesOk(states, phase)
    ensures var phase' := Dequeued(phase, t, enter, w); MembersOk(sessions, phase') && StatesOk(states, phase')
    ensures Keeps(phase, Dequeued(phase, t, enter, w), t)
  {
  }

  lemma DequeueLeaving(leaving: multiset<Session>, phase: map<Session, Phase>, t: nat, enter: nat, w: Option<Session>)
    requires LeavingOk(leaving, phase)
    ensures LeavingOk(leaving, Dequeued(phase, t, enter, w))
  {
    var phase' := Dequeued(phase, t, enter, w);
    forall u
      ensures leaving[u] <= (if u in phase' && phase'[u] == Leaving then 1 else 0)
    {
      assert leaving[u] <= (if u in phase && phase[u] == Leaving then 1 else 0);
    }
  }

  /** A dequeue keeps the shape, and the session picked belongs to the thread. */
  lemma DequeueLocal(m: Mem, t: nat, expired: set<Session>)
    requires Shape(m)
    ensures var (q, w) := WQ.Dequeue(m.queue, expired);
      var phase' := Dequeued(m.phase, t, q.enter, w);
      && Shape(m.(queue := q, phase := phase')) && Keeps(m.phase, phase', t)
      && (w.Some? ==> w.value in phase' && phase'[w.value] == Picked(t))
  {
    WQ.DequeueIsFirstAlive(m.queue, expired, m.entered);
    var (q, w) := WQ.Dequeue(m.queue, expired);
    DequeueQueued(m.queue, q, w, m.entered, m.phase, t);
    DequeueMembers(m.seats.sessions, m.states, m.phase, t, q.enter, w);
    DequeueLeaving(m.leaving, m.phase, t, q.enter, w);
    if w.Some? {
      assert m.entered[q.enter - 1] == w.value;
    }
  }

  // ------------------------------------------------------------ every step keeps it

  lemma IdleLocal(m: Mem, t: nat, call: Call, m': Mem, pc': Pc)
    requires Shape(m)
    requires (m', pc') == ExecIdle(m, t, call)
    ensures Shape(m') && Keeps(m.phase, m'.phase, t) && Local(m', t, pc')
  {
    match call
    case Connect(s) =>
      if s !in m.phase { Move(m, m', t, s, Connecting(t)); }
    case Disconnect(s) =>
    case Complete(s) =>
      if m.leaving[s] != 0 { Move(m, m', t, s, Removing(t)); }
    case EnterGame(s) =>
      if StateOf(m, s) == Connected { EnterGameLocal(m, t, s, m'); }
  }

  lemma EnterGameLocal(m: Mem, t: nat, s: Session, m': Mem)
    requires Shape(m) && StateOf(m, s) == Connected && m' == m.(states := m.states[s := InGame])
    ensures Shape(m') && Keeps(m.phase, m'.phase, t)
  {
    assert m.phase[s := Active] == m.phase;
    MoveStates(m.states, m'.states, m.phase, s, Active);
  }

  lemma ConnectLocal(m: Mem, t: nat, pc: Pc, ch: Choice, m': Mem, pc': Pc)
    requires Shape(m) && Local(m, t, pc)
    requires pc.ConnAdd? || pc.ConnSet? || pc.ConnSetWaiting? || pc.ConnRemove?
    requires (m', pc') == ExecConnect(m, t, pc, ch)
    ensures Shape(m') && Keeps(m.phase, m'.phase, t) && Local(m', t, pc')
  {
    var s := pc.s;
    if m' != m {
      Move(m, m', t, s, if pc.ConnAdd? then Joined(t) else if pc.ConnRemove? then Gone else Active);
    }
  }

  lemma QueueLocal(m: Mem, t: nat, pc: Pc, ch: Choice, m': Mem, pc': Pc)
    requires Shape(m) && Local(m, t, pc)
    requires pc.ConnQueue? || pc.ConnSetQueued?
    requires (m', pc') == ExecConnect(m, t, pc, ch)
    ensures Shape(m') && Keeps(m.phase, m'.phase, t) && Local(m', t, pc')
  {
    var s := pc.s;
    if pc.ConnSetQueued? {
      if m' != m { StoreDisconnected(m.states, m.phase, s); }
    } else if m'.queue == m.queue && pc'.DiscExchange? {
      Move(m, m', t, s, Gone);
    } else {
      MoveIntoQueue(m.queue, m.entered, m.phase, s);
      MoveMembers(m.seats.sessions, m'.seats.sessions, m.phase, s, Queued(m.queue.wait));
      MoveStates(m.states, m'.states, m.phase, s, Queued(m.queue.wait));
      MoveLeaving(m.leaving, m'.leaving, m.phase, s, Queued(m.queue.wait));
    }
  }

  lemma DisconnectLocal(m: Mem, t: nat, pc: Pc, ch: Choice, m': Mem, pc': Pc)
    requires Shape(m) && Local(m, t, pc)
    requires pc.DiscExchange? || pc.DiscRegister? || pc.DropRemove?
    requires (m', pc') == ExecDisconnect(m, t, pc, ch)
    ensures Shape(m') && Keeps(m.phase, m'.phase, t) && Local(m', t, pc')
  {
    var s := pc.s;
    if pc.DiscExchange? && StateOf(m, s) == Disconnected {
      StoreDisconnected(m.states, m.phase, s);
    } else {
      Move(m, m', t, s, if pc.DiscExchange? then Dropping(t) else if pc.DiscRegister? then Leaving else Gone);
    }
  }

  lemma AdmitLocal(m: Mem, t: nat, pc: Pc, ch: Choice, m': Mem, pc': Pc)
    requires Shape(m) && Local(m, t, pc)
    requires pc.AdmDequeue? || pc.AdmAdd? || pc.AdmRelease? || pc.AdmSet? || pc.AdmRemove?
    requires (m', pc') == ExecAdmit(m, t, pc, ch)
    ensures Shape(m') && Keeps(m.phase, m'.phase, t) && Local(m', t, pc')
  {
    if pc.AdmDequeue? {
      DequeueLocal(m, t, ch.expired);
    } else if !pc.AdmRelease? && m' != m {
      Move(m, m', t, pc.w, if pc.AdmAdd? then Seated(t) else if pc.AdmSet? then Active else Gone);
    }
  }

  lemma ExecLocal(m: Mem, t: nat, pc: Pc, ch: Choice)
    requires Shape(m) && Local(m, t, pc)
    ensures var (m', pc') := Exec(m, t, pc, ch);
      Shape(m') && Keeps(m.phase, m'.phase, t) && Local(m', t, pc')
  {
    var (m', pc') := Exec(m, t, pc, ch);
    if pc.Idle? {
      IdleLocal(m, t, ch.call, m', pc');
    } else if pc.DiscExchange? || pc.DiscRegister? || pc.DropRemove? {
      DisconnectLocal(m, t, pc, ch, m', pc');
    } else if pc.AdmDequeue? || pc.AdmAdd? || pc.AdmRelease? || pc.AdmSet? || pc.AdmRemove? {
      AdmitLocal(m, t, pc, ch, m', pc');
    } else if pc.ConnQueue? || pc.ConnSetQueued? {
      QueueLocal(m, t, pc, ch, m', pc');
    } else {
      ConnectLocal(m, t, pc, ch, m', pc');
    }
  }

  /** What the accounting needs of a step: a session that takes a seat is not in yet, one
      that leaves is, and who admits brings a seat along. */
  ghost predicate Sound(m: Mem, pc: Pc)
  {
    && ((pc.ConnRemove? || pc.DropRemove?) ==> pc.s in m.seats.sessions)
    && (pc.AdmAdd? ==> pc.w !in m.seats.sessions)
    && (pc.AdmRemove? ==> pc.w in m.seats.sessions)
    && ((pc.AdmDequeue? || pc.AdmAdd? || pc.AdmRelease?) ==> pc.seat)
  }

  /** The seat count changes by as much as sessions and seats in transit, and not past the
      maximum. */
  ghost predicate Balanced(m: Mem, pc: Pc, m': Mem, pc': Pc)
  {
    && m'.seats.count - |m'.seats.sessions| - Bit(InTransit(pc'))
       == m.seats.count - |m.seats.sessions| - Bit(InTransit(pc))
    && m'.seats.count <= Max(0, m'.seats.max) && m'.seats.max == m.seats.max
  }

  lemma AddBalanced(m: Seats, s: Session)
    ensures var (m', ok) := Add(m, s);
      Kept(m') == Kept(m) && m'.max == m.max && m'.count <= Max(m.count, m.max)
  {
  }

  lemma RemoveBalanced(m: Seats, s: Session, keep: bool)
    requires s in m.sessions
    ensures var m' := Remove(m, s, keep); Kept(m') == Kept(m) + Bit(keep) && m'.max == m.max && m'.count <= m.count
  {
  }

  lemma ConnectBalanced(m: Mem, t: nat, pc: Pc, ch: Choice)
    requires Sound(m, pc) && m.seats.count <= Max(0, m.seats.max)
    requires pc.ConnAdd? || pc.ConnSet? || pc.ConnSetWaiting? || pc.ConnRemove? || pc.ConnQueue? || pc.ConnSetQueued?
    ensures var (m', pc') := ExecConnect(m, t, pc, ch); Balanced(m, pc, m', pc')
  {
    if pc.ConnAdd? { AddBalanced(m.seats, pc.s); }
    if pc.ConnRemove? { RemoveBalanced(m.seats, pc.s, true); }
  }

  lemma DisconnectBalanced(m: Mem, t: nat, pc: Pc, ch: Choice)
    requires Sound(m, pc) && m.seats.count <= Max(0, m.seats.max)
    requires pc.DiscExchange? || pc.DiscRegister? || pc.DropRemove?
    ensures var (m', pc') := ExecDisconnect(m, t, pc, ch); Balanced(m, pc, m', pc')
  {
    if pc.DropRemove? { RemoveBalanced(m.seats, pc.s, true); }
  }

  lemma AdmitBalanced(m: Mem, t: nat, pc: Pc, ch: Choice)
    requires Sound(m, pc) && m.seats.count <= Max(0, m.seats.max)
    requires pc.AdmDequeue? || pc.AdmAdd? || pc.AdmRelease? || pc.AdmSet? || pc.AdmRemove?
    ensures var (m', pc') := ExecAdmit(m, t, pc, ch); Balanced(m, pc, m', pc')
  {
    if pc.AdmRemove? { RemoveBalanced(m.seats, pc.w, false); }
  }

  /** Each step changes the seat count by as much as sessions and seats in transit. */
  lemma ExecBalanced(m: Mem, t: nat, pc: Pc, ch: Choice)
    requires Sound(m, pc) && m.seats.count <= Max(0, m.seats.max)
    ensures var (m', pc') := Exec(m, t, pc, ch); Balanced(m, pc, m', pc')
  {
    if pc.Idle? { }
    else if pc.DiscExchange? || pc.DiscRegister? || pc.DropRemove? { DisconnectBalanced(m, t, pc, ch); }
    else if pc.AdmDequeue? || pc.AdmAdd? || pc.AdmRelease? || pc.AdmSet? || pc.AdmRemove?
    { AdmitBalanced(m, t, pc, ch); }
    else { ConnectBalanced(m, t, pc, ch); }
  }

  lemma StepLocal(s: State, t: nat, ch: Choice)
    requires Inv(s) && t < |s.ts|
    ensures var s' := Step(s, t, ch);
      && Shape(s'.m) && Keeps(s.m.phase, s'.m.phase, t)
      && forall u :: 0 <= u < |s'.ts| ==> Local(s'.m, u, s'.ts[u])
  {
    var s' := Step(s, t, ch);
    assert Local(s.m, t, s.ts[t]);
    ExecLocal(s.m, t, s.ts[t], ch);
    forall u | 0 <= u < |s'.ts|
      ensures Local(s'.m, u, s'.ts[u])
    {
      if u != t { LocalStable(s.m, s'.m, t, u, s.ts[u]); }
    }
  }

  lemma StepConserved(s: State, t: nat, ch: Choice)
    requires t < |s.ts| && Sound(s.m, s.ts[t]) && Conserved(s.m, s.ts)
    ensures Conserved(Step(s, t, ch).m, Step(s, t, ch).ts) && Step(s, t, ch).m.seats.max == s.m.seats.max
  {
    ExecBalanced(s.m, t, s.ts[t], ch);
    CountUpdate(s.ts, t, Exec(s.m, t, s.ts[t], ch).1, InTransit);
  }

  lemma LocalIsSound(m: Mem, t: nat, pc: Pc)
    requires Shape(m) && Local(m, t, pc)
    ensures Sound(m, pc)
  {
  }

  lemma StepInv(s: State, t: nat, ch: Choice)
    requires Inv(s) && t < |s.ts|
    ensures Inv(Step(s, t, ch)) && Keeps(s.m.phase, Step(s, t, ch).m.phase, t)
    ensures Step(s, t, ch).m.seats.max == s.m.seats.max
  {
    StepLocal(s, t, ch);
    LocalIsSound(s.m, t, s.ts[t]);
    StepConserved(s, t, ch);
  }

  lemma InitInv(max: int, waitMax: Option<int>, threads: nat)
    ensures Inv(Init(max, waitMax, threads))
  {
    CountNone(Init(max, waitMax, threads).ts, InTransit);
  }

  /** The invariant, with the maximum, the threads and the sessions gone as they were. */
  ghost predicate Follows(s: State, s': State)
  {
    && Inv(s')
    && s'.m.seats.max == s.m.seats.max && |s'.ts| == |s.ts|
    && forall x :: Is(s.m, x, Gone) ==> Is(s'.m, x, Gone)
  }

  /** The invariant holds along every run, and a session that is gone stays gone. */
  lemma RunInv(s: State, sched: Schedule)
    requires Inv(s)
    ensures Follows(s, Run(s, sched))
  {
    forall x: State, t: nat, ch: Choice | Follows(s, x)
      ensures Follows(s, MoveThread(x, t, ch))
    {
      if t < |x.ts| { StepInv(x, t, ch); }
    }
    Runs.RunKeeps(MoveThread, x => Follows(s, x), s, sched);
  }

  // ------------------------------------------------------------------ main results

  /** In every run the seats counted are the sessions that are in and the seats in
      transit from a leaving session to a waiting one; there are never fewer than none
      nor more than the maximum. */
  lemma SeatsConserved(max: int, waitMax: Option<int>, threads: nat, sched: Schedule)
    ensures var s := Run(Init(max, waitMax, threads), sched);
      && s.m.seats.count == |s.m.seats.sessions| + Count(s.ts, InTransit)
      && 0 <= s.m.seats.count <= Max(0, max)
  {
    InitInv(max, waitMax, threads);
    RunInv(Init(max, waitMax, threads), sched);
  }

  /** Hence at rest the count is the size of the session set. */
  lemma AtRestSeatsAreSessions(max: int, waitMax: Option<int>, threads: nat, sched: Schedule)
    requires var s := Run(Init(max, waitMax, threads), sched); forall t :: 0 <= t < |s.ts| ==> s.ts[t].Idle?
    ensures var s := Run(Init(max, waitMax, threads), sched); s.m.seats.count == |s.m.seats.sessions|
  {
    SeatsConserved(max, waitMax, threads, sched);
    CountNone(Run(Init(max, waitMax, threads), sched).ts, InTransit);
  }

  /** A session is leaving on account of one completion at most: none is due and no other
      thread handles one while a thread does, nor ever again once the session is gone. */
  lemma OneCompletion(s: State, x: Session, t: nat)
    requires Inv(s)
    requires Is(s.m, x, Gone) || Is(s.m, x, Removing(t))
    ensures s.m.leaving[x] == 0
    ensures x in s.m.seats.sessions <==> Is(s.m, x, Removing(t))
    ensures forall u :: 0 <= u < |s.ts| && s.ts[u] == DropRemove(x) ==> u == t && Is(s.m, x, Removing(t))
  {
    forall u | 0 <= u < |s.ts| && s.ts[u] == DropRemove(x)
      ensures u == t && Is(s.m, x, Removing(t))
    {
      assert Local(s.m, u, s.ts[u]);
    }
  }

  /** processDisconnect finds its session in the session set, no other thread runs it for
      the same session and no second completion is due; and once it has removed the
      session, neither it nor another completion comes again in any further run. */
  lemma DisconnectRunsOnce(max: int, waitMax: Option<int>, threads: nat, sched: Schedule,
    t: nat, ch: Choice, later: Schedule)
    requires var s := Run(Init(max, waitMax, threads), sched); t < |s.ts| && s.ts[t].DropRemove?
    ensures var s := Run(Init(max, waitMax, threads), sched);
      var x := s.ts[t].s;
      var s' := Run(Step(s, t, ch), later);
      && x in s.m.seats.sessions
      && s.m.leaving[x] == 0 && (forall u :: 0 <= u < |s.ts| && u != t ==> s.ts[u] != DropRemove(x))
      && s'.m.leaving[x] == 0 && (forall u :: 0 <= u < |s'.ts| ==> s'.ts[u] != DropRemove(x))
      && x !in s'.m.seats.sessions
  {
    InitInv(max, waitMax, threads);
    RunInv(Init(max, waitMax, threads), sched);
    var s := Run(Init(max, waitMax, threads), sched);
    var x := s.ts[t].s;
    assert Local(s.m, t, s.ts[t]);
    OneCompletion(s, x, t);
    StepInv(s, t, ch);
    var s1 := Step(s, t, ch);
    assert Is(s1.m, x, Gone);
    RunInv(s1, later);
    OneCompletion(Run(s1, later), x, t);
  }

  // ---------------------------------------------------------- after the wait queue

  /** In the wait queue, taken out of it, seated by an admission, or gone. */
  ghost predicate Barred(m: Mem, x: Session)
  {
    x in m.phase && (m.phase[x].Queued? || m.phase[x].Picked? || m.phase[x].Seated? || m.phase[x].Gone?)
  }

  lemma IdleBarred(m: Mem, t: nat, call: Call, x: Session)
    requires Shape(m) && Barred(m, x)
    ensures Barred(ExecIdle(m, t, call).0, x)
  {
  }

  lemma ConnectBarred(m: Mem, t: nat, pc: Pc, ch: Choice, x: Session)
    requires Local(m, t, pc) && Barred(m, x)
    requires pc.ConnAdd? || pc.ConnSet? || pc.ConnSetWaiting? || pc.ConnRemove? || pc.ConnQueue? || pc.ConnSetQueued?
    ensures Barred(ExecConnect(m, t, pc, ch).0, x)
  {
  }

  lemma DisconnectBarred(m: Mem, t: nat, pc: Pc, ch: Choice, x: Session)
    requires Shape(m) && Local(m, t, pc) && Barred(m, x)
    requires pc.DiscExchange? || pc.DiscRegister? || pc.DropRemove?
    ensures Barred(ExecDisconnect(m, t, pc, ch).0, x)
  {
  }

  lemma AdmitBarred(m: Mem, t: nat, pc: Pc, ch: Choice, x: Session)
    requires Shape(m) && Barred(m, x)
    requires pc.AdmDequeue? || pc.AdmAdd? || pc.AdmRelease? || pc.AdmSet? || pc.AdmRemove?
    ensures Barred(ExecAdmit(m, t, pc, ch).0, x)
  {
  }

  lemma StepBarred(s: State, t: nat, ch: Choice, x: Session)
    requires Inv(s) && t < |s.ts| && Barred(s.m, x)
    ensures Barred(Step(s, t, ch).m, x)
  {
    var pc := s.ts[t];
    assert Local(s.m, t, pc);
    if pc.Idle? { IdleBarred(s.m, t, ch.call, x); }
    else if pc.DiscExchange? || pc.DiscRegister? || pc.DropRemove? { DisconnectBarred(s.m, t, pc, ch, x); }
    else if pc.AdmDequeue? || pc.AdmAdd? || pc.AdmRelease? || pc.AdmSet? || pc.AdmRemove?
    { AdmitBarred(s.m, t, pc, ch, x); }
    else { ConnectBarred(s.m, t, pc, ch, x); }
  }

  lemma RunBarred(s: State, sched: Schedule, x: Session)
    requires Inv(s) && Barred(s.m, x)
    ensures Inv(Run(s, sched)) && Barred(Run(s, sched).m, x)
  {
    forall y: State, t: nat, ch: Choice | Inv(y) && Barred(y.m, x)
      ensures Inv(MoveThread(y, t, ch)) && Barred(MoveThread(y, t, ch).m, x)
    {
      if t < |y.ts| {
        StepInv(y, t, ch);
        StepBarred(y, t, ch, x);
      }
    }
    Runs.RunKeeps(MoveThread, y => Inv(y) && Barred(y.m, x), s, sched);
  }

  /** The wait queue admits nobody: a session that is in it after any run is Disconnected
      in every state of every further run.  The cause is setSessionWaiting, which stores
      Disconnected, so that no session is ever Waiting. */
  lemma WaitQueueNeverAdmits(max: int, waitMax: Option<int>, threads: nat, sched: Schedule, x: Session, later: Schedule)
    requires x in Run(Init(max, waitMax, threads), sched).m.queue.entries
    ensures StateOf(Run(Run(Init(max, waitMax, threads), sched), later).m, x) == Disconnected
    ensures forall y :: StateOf(Run(Init(max, waitMax, threads), sched).m, y) != Waiting
  {
    InitInv(max, waitMax, threads);
    RunInv(Init(max, waitMax, threads), sched);
    var m := Run(Init(max, waitMax, threads), sched).m;
    var i :| 0 <= i < |m.queue.entries| && m.queue.entries[i] == x;
    assert m.entered[m.queue.enter + i] == x;
    RunBarred(Run(Init(max, waitMax, threads), sched), later, x);
  }

  /** What becomes of a session taken from the wait queue: it gets the seat that was kept
      (AddWaitingSession never refuses it), is not connected, leaves again, and its seat
      is given back with it. */
  lemma AdmissionIsUndone(max: int, waitMax: Option<int>, threads: nat, sched: Schedule, t: nat, ch: Choice)
    requires t < |Run(Init(max, waitMax, threads), sched).ts|
    ensures var s := Run(Init(max, waitMax, threads), sched);
      var s' := Step(s, t, ch);
      match s.ts[t]
      case AdmAdd(w, k, _) =>
        && s'.ts[t] == AdmSet(w, k) && w !in s.m.seats.sessions
        && s'.m.seats == s.m.seats.(sessions := s.m.seats.sessions + {w})
      case AdmSet(w, k) =>
        s'.ts[t] == AdmRemove(w, k) && s'.m == s.m
      case AdmRemove(w, k) =>
        && s'.ts[t] == DiscExchange(w, k) && w in s.m.seats.sessions
        && s'.m.seats.sessions == s.m.seats.sessions - {w} && s'.m.seats.count == s.m.seats.count - 1
      case _ => true
  {
    InitInv(max, waitMax, threads);
    RunInv(Init(max, waitMax, threads), sched);
    var s := Run(Init(max, waitMax, threads), sched);
    assert Local(s.m, t, s.ts[t]);
  }

  // ----------------------------------------------------- a run through the wait queue

  ghost predicate Reaches(s: State, s': State)
  {
    Runs.Reaches(MoveThread, s, s')
  }

  /** A step of the one thread of a machine. */
  lemma ReachesOne(s: State, m: Mem, pc: Pc, call: Call) returns (m': Mem, pc': Pc)
    requires Reaches(s, State(m, [pc]))
    ensures (m', pc') == Exec(m, 0, pc, Choice(call, {}, true, false))
    ensures Reaches(s, State(m', [pc']))
  {
    var ch := Choice(call, {}, true, false);
    m', pc' := Exec(m, 0, pc, ch).0, Exec(m, 0, pc, ch).1;
    var s' := Runs.Go(MoveThread, s, State(m, [pc]), 0, ch);
    assert s' == State(m', [pc']);
  }

  /** Session 0 takes the only seat. */
  lemma FirstConnects(s: State) returns (m: Mem)
    requires s == Init(1, Some(1), 1)
    ensures Reaches(s, State(m, [Idle]))
    ensures m.seats == Seats(1, 1, {0}) && m.waitMax == Some(1) && m.queue == WQ.EMPTY
    ensures m.leaving == multiset{} && m.phase.Keys == {0} && m.states.Keys == {0} && StateOf(m, 0) == Connected
  {
    var call := Connect(0);
    Runs.ReachesSelf(MoveThread, s);
    assert s.ts == [Idle];
    var pc;
    m, pc := ReachesOne(s, s.m, Idle, call);
    m, pc := ReachesOne(s, m, ConnAdd(0), call);
    m, pc := ReachesOne(s, m, ConnSet(0), call);
  }

  /** Session 1 finds no seat. */
  lemma SecondIsRefused(s: State, m0: Mem) returns (m: Mem)
    requires Reaches(s, State(m0, [Idle]))
    requires m0.seats == Seats(1, 1, {0}) && 1 !in m0.phase
    ensures Reaches(s, State(m, [ConnQueue(1)]))
    ensures m == m0.(phase := m0.phase[1 := Connecting(0)])
  {
    var pc;
    m, pc := ReachesOne(s, m0, Idle, Connect(1));
    m, pc := ReachesOne(s, m, ConnAdd(1), Connect(1));
  }

  /** Session 1 enters the wait queue. */
  lemma SecondWaits(s: State, m0: Mem) returns (m: Mem)
    requires Reaches(s, State(m0, [ConnQueue(1)]))
    requires m0.waitMax == Some(1) && m0.queue == WQ.EMPTY && 1 !in m0.states
    ensures Reaches(s, State(m, [Idle]))
    ensures m.seats == m0.seats && m.waitMax == Some(1) && m.queue == WQ.Queue(0, 1, [1]) && m.leaving == m0.leaving
    ensures Is(m, 1, Queued(0)) && StateOf(m, 0) == StateOf(m0, 0)
  {
    var pc;
    m, pc := ReachesOne(s, m0, ConnQueue(1), Connect(1));
    m, pc := ReachesOne(s, m, ConnSetQueued(1), Connect(1));
  }

  /** Session 0 disconnects, and its completion comes due. */
  lemma FirstLeaves(s: State, m0: Mem) returns (m: Mem)
    requires Reaches(s, State(m0, [Idle])) && StateOf(m0, 0) == Connected && Is(m0, 1, Queued(0))
    ensures Reaches(s, State(m, [Idle]))
    ensures m.seats == m0.seats && m.waitMax == m0.waitMax && m.queue == m0.queue && m.leaving[0] > 0
    ensures Is(m, 1, Queued(0))
  {
    var call := Disconnect(0);
    var pc;
    m, pc := ReachesOne(s, m0, Idle, call);
    m, pc := ReachesOne(s, m, DiscExchange(0, Fin), call);
    m, pc := ReachesOne(s, m, DiscRegister(0, Fin), call);
  }

  /** The completion frees the seat for session 1, which takes it. */
  lemma SecondIsSeated(s: State, m0: Mem) returns (m: Mem)
    requires Reaches(s, State(m0, [Idle])) && m0.leaving[0] > 0 && Is(m0, 1, Queued(0))
    requires m0.seats == Seats(1, 1, {0}) && m0.waitMax == Some(1) && m0.queue == WQ.Queue(0, 1, [1])
    ensures Reaches(s, State(m, [AdmSet(1, Fin)]))
    ensures m.seats == Seats(1, 1, {1}) && Is(m, 1, Seated(0))
  {
    var call := Complete(0);
    var pc;
    m, pc := ReachesOne(s, m0, Idle, call);
    m, pc := ReachesOne(s, m, DropRemove(0), call);
    assert [1][1..] == [];
    assert WQ.Dequeue(m.queue, {}) == (WQ.Queue(1, 1, []), Some(1));
    m, pc := ReachesOne(s, m, AdmDequeue(Fin, true), call);
    m, pc := ReachesOne(s, m, AdmAdd(1, Fin, true), call);
    assert m.seats.sessions == {1};
  }

  /** Session 1 is not connected, leaves again, and gives the seat back. */
  lemma SecondLosesSeat(s: State, m0: Mem) returns (m: Mem)
    requires Reaches(s, State(m0, [AdmSet(1, Fin)]))
    requires m0.seats == Seats(1, 1, {1}) && StateOf(m0, 1) != Waiting
    ensures Reaches(s, State(m, [DiscExchange(1, Fin)])) && m.seats == Seats(1, 0, {})
  {
    var pc;
    m, pc := ReachesOne(s, m0, AdmSet(1, Fin), Connect(1));
    m, pc := ReachesOne(s, m, AdmRemove(1, Fin), Connect(1));
    assert m.seats.sessions == {};
  }

  /** Admission is reached, and undone: with one seat, a wait queue of one and one thread,
      a run brings a session from the wait queue into the only seat, about to be connected;
      and a run on from there takes it out again. */
  lemma AdmissionIsReached()
    ensures exists m :: Reaches(Init(1, Some(1), 1), State(m, [AdmSet(1, Fin)])) && m.seats == Seats(1, 1, {1})
    ensures exists m :: Reaches(Init(1, Some(1), 1), State(m, [DiscExchange(1, Fin)])) && m.seats == Seats(1, 0, {})
  {
    var s := Init(1, Some(1), 1);
    var m := FirstConnects(s);
    m := SecondIsRefused(s, m);
    m := SecondWaits(s, m);
    m := FirstLeaves(s, m);
    m := SecondIsSeated(s, m);
    ReachesInv(1, Some(1), 1, State(m, [AdmSet(1, Fin)]));
    var m' := SecondLosesSeat(s, m);
  }

  lemma ReachesInv(max: int, waitMax: Option<int>, threads: nat, s: State)
    requires Reaches(Init(max, waitMax, threads), s)
    ensures Inv(s)
  {
    InitInv(max, waitMax, threads);
    var sched: Schedule :| Runs.Run(MoveThread, Init(max, waitMax, threads), sched) == s;
    RunInv(Init(max, waitMax, threads), sched);
  }

  // ------------------------------------------------------------------ seats and states

  /** A session is active, and so Connected or in the game, only with a seat. */
  lemma ActiveSessionsAreSeated(max: int, waitMax: Option<int>, threads: nat, sched: Schedule, x: Session)
    requires StateOf(Run(Init(max, waitMax, threads), sched).m, x) != Disconnected
    ensures x in Run(Init(max, waitMax, threads), sched).m.seats.sessions
  {
    InitInv(max, waitMax, threads);
    RunInv(Init(max, waitMax, threads), sched);
  }
}
