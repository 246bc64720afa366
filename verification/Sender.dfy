/** The send-ownership protocol of CppNetEngine/Sender.cpp as a step machine.

    Any number of threads send, and any worker thread processes a completion.  The send
    queue is the queue of module LockFreeQueue: linking a buffer, the counter updates
    and the dequeue are separate steps.  The runs are those of a connected session whose
    enqueues and submits succeed; a refused enqueue, a failed submit and a disconnect
    all start the session's teardown. */
module Sender {
  import Runs
  import opened Threads

  /** A send buffer, opaque to the protocol. */
  type Buffer = int

  const MAX_SEND_WSABUF_SIZE := 64

  datatype Pc =
    | Idle
    // Send
    | SendLink(b: Buffer)
    | SendCount
    // Register
    | Exchange
    | DrainGate(batch: seq<Buffer>)
    | DrainUndo(batch: seq<Buffer>)
    | DrainPop(batch: seq<Buffer>)
    | Submit(batch: seq<Buffer>)
    | DropFlag
    | Recheck
    // Process
    | ProcClear
    | ProcDrop

  /** What an idle thread starts: a Send, the completion of a submitted batch, or a
      bare Register. */
  datatype Choice = Send(b: Buffer) | Complete | Register

  /** `flag` is mbSendRegistered, `count` the queue's counter, `queue` its linked
      buffers, `pending` the vector that keeps a submitted batch referenced, `inFlight`
      the number of submits not yet completed.  `enqueued`, `batches` (all submits, in
      order) and `drained` (dequeued, not yet submitted) are history; `fault` is a
      dequeue from an empty queue. */
  datatype Mem = Mem(
    flag: bool, count: int, queue: seq<Buffer>, pending: seq<Buffer>, inFlight: nat,
    enqueued: seq<Buffer>, batches: seq<seq<Buffer>>, drained: seq<Buffer>, fault: bool)

  datatype State = State(m: Mem, ts: seq<Pc>)

  // ---------------------------------------------------------------- the machine

  function Init(threads: nat): State
  {
    State(Mem(false, 0, [], [], 0, [], [], [], false), seq(threads, _ => Idle))
  }

  /** Register's loop head: stop at a full batch, else try to dequeue. */
  function Drain(batch: seq<Buffer>): Pc
  {
    if |batch| >= MAX_SEND_WSABUF_SIZE then Submit(batch) else DrainGate(batch)
  }

  function ExecRegister(m: Mem, pc: Pc): (Mem, Pc)
    requires pc.Exchange? || pc.DrainGate? || pc.DrainUndo? || pc.DrainPop? || pc.Submit? || pc.DropFlag? || pc.Recheck?
  {
    match pc
    case Exchange => (m.(flag := true), if m.flag then Idle else Drain([]))
    case DrainGate(batch) => (m.(count := m.count - 1), if m.count <= 0 then DrainUndo(batch) else DrainPop(batch))
    case DrainUndo(batch) => (m.(count := m.count + 1), if batch == [] then DropFlag else Submit(batch))
    case DrainPop(batch) =>
      if m.queue == [] then (m.(fault := true), Idle)
      else
        var b := m.queue[0];
        (m.(queue := m.queue[1..], pending := m.pending + [b], drained := m.drained + [b]), Drain(batch + [b]))
    case Submit(batch) => (m.(inFlight := m.inFlight + 1, batches := m.batches + [batch], drained := []), Idle)
    case DropFlag => (m.(flag := false), Recheck)
    case Recheck => (m, if m.count == 0 then Idle else Exchange)
  }

  function Exec(m: Mem, pc: Pc, ch: Choice): (Mem, Pc)
  {
    match pc
    case Idle =>
      (match ch
       case Send(b) => (m, SendLink(b))
       case Complete => if m.inFlight > 0 then (m.(inFlight := m.inFlight - 1), ProcClear) else (m, Idle)
       case Register => (m, Exchange))
    case SendLink(b) => (m.(queue := m.queue + [b], enqueued := m.enqueued + [b]), SendCount)
    case SendCount => (m.(count := m.count + 1), Exchange)
    case ProcClear => (m.(pending := []), ProcDrop)
    case ProcDrop => (m.(flag := false), Recheck)
    case _ => ExecRegister(m, pc)
  }

  function Step(s: State, t: nat, ch: Choice): (s': State)
    requires t < |s.ts|
    ensures |s'.ts| == |s.ts|
  {
    var (m', pc') := Exec(s.m, s.ts[t], ch);
    State(m', s.ts[t := pc'])
  }

  type Schedule = seq<(nat, Choice)>

  /** A thread that does not exist does not move. */
  function MoveThread(s: State, t: nat, ch: Choice): (s': State)
    ensures |s'.ts| == |s.ts|
  {
    if t < |s.ts| then Step(s, t, ch) else s
  }

  ghost function Run(s: State, sched: Schedule): (s': State)
  {
    Runs.Run(MoveThread, s, sched)
  }

  // ---------------------------------------------------------------- the invariant

  ghost function Flatten(batches: seq<seq<Buffer>>): seq<Buffer>
  {
    if batches == [] then [] else Flatten(batches[..|batches| - 1]) + batches[|batches| - 1]
  }

  lemma FlattenSnoc(batches: seq<seq<Buffer>>, batch: seq<Buffer>)
    ensures Flatten(batches + [batch]) == Flatten(batches) + batch
  {
    assert (batches + [batch])[..|batches|] == batches;
  }

  /** The threads that own the right to send. */
  predicate Owner(pc: Pc)
  {
    pc.DrainGate? || pc.DrainUndo? || pc.DrainPop? || pc.Submit? || pc.DropFlag? || pc.ProcClear? || pc.ProcDrop?
  }

  predicate Undoing(pc: Pc) { pc.DrainUndo? }

  predicate Admitted(pc: Pc) { pc.DrainPop? }

  predicate Unpublished(pc: Pc) { pc.SendCount? }

  /** A thread that still has to exchange the flag or to re-check the queue. */
  predicate Waking(pc: Pc) { pc.SendCount? || pc.Exchange? || pc.Recheck? }

  ghost predicate Shape(m: Mem)
  {
    && !m.fault
    && m.enqueued == Flatten(m.batches) + m.drained + m.queue
    && (forall i :: 0 <= i < |m.batches| ==> 0 < |m.batches[i]| <= MAX_SEND_WSABUF_SIZE)
    && (m.inFlight > 0 ==> m.batches != [] && m.pending == m.batches[|m.batches| - 1])
    && (m.inFlight > 0 || !m.flag ==> m.drained == [])
    && (!m.flag ==> m.pending == [])
  }

  /** What the owner of the right to send may rely on; the others rely on nothing. */
  ghost predicate Local(m: Mem, pc: Pc)
  {
    match pc
    case DrainGate(batch) => batch == m.drained == m.pending && |batch| < MAX_SEND_WSABUF_SIZE
    case DrainUndo(batch) => batch == m.drained == m.pending && |batch| < MAX_SEND_WSABUF_SIZE
    case DrainPop(batch) => batch == m.drained == m.pending && |batch| < MAX_SEND_WSABUF_SIZE
    case Submit(batch) => batch == m.drained == m.pending && 0 < |batch| <= MAX_SEND_WSABUF_SIZE
    case ProcClear => m.drained == []
    case DropFlag => m.drained == m.pending == []
    case ProcDrop => m.drained == m.pending == []
    case _ => true
  }

  /** The flag is raised exactly while one thread owns the right to send or one batch
      is in flight. */
  ghost predicate Mutex(m: Mem, ts: seq<Pc>)
  {
    Count(ts, Owner) + m.inFlight == Bit(m.flag)
  }

  ghost predicate Gate(m: Mem, ts: seq<Pc>)
  {
    && m.count + Count(ts, Undoing) >= 0
    && m.count + Count(ts, Undoing) + Count(ts, Admitted) + Count(ts, Unpublished) == |m.queue|
  }

  /** No lost wakeup: a buffer in the queue is somebody's business. */
  ghost predicate Awake(m: Mem, ts: seq<Pc>)
  {
    m.queue != [] ==> m.flag || Count(ts, Waking) >= 1
  }

  ghost predicate Inv(s: State)
  {
    && Shape(s.m)
    && (forall t :: 0 <= t < |s.ts| ==> Local(s.m, s.ts[t]))
    && Mutex(s.m, s.ts) && Gate(s.m, s.ts) && Awake(s.m, s.ts)
  }

  // ------------------------------------------------------ one step keeps the invariant

  /** The steps that leave queue, batches and pending buffers alone. */
  lemma FlagLocal(m: Mem, pc: Pc, ch: Choice)
    requires Shape(m) && Local(m, pc)
    requires Owner(pc) ==> m.flag && m.inFlight == 0
    requires m.inFlight <= Bit(m.flag)
    requires !pc.DrainPop? && !pc.Submit? && !pc.SendLink? && !pc.ProcClear?
    ensures var (m', pc') := Exec(m, pc, ch); Shape(m') && Local(m', pc')
  {
  }

  lemma PopLocal(m: Mem, pc: Pc)
    requires Shape(m) && Local(m, pc) && pc.DrainPop? && m.queue != []
    requires m.flag && m.inFlight == 0
    ensures var (m', pc') := ExecRegister(m, pc); Shape(m') && Local(m', pc')
  {
    PopShape(m);
  }

  lemma SubmitLocal(m: Mem, pc: Pc)
    requires Shape(m) && Local(m, pc) && pc.Submit? && m.inFlight == 0
    ensures Shape(ExecRegister(m, pc).0)
  {
    FlattenSnoc(m.batches, pc.batch);
    assert m.enqueued == Flatten(m.batches + [pc.batch]) + [] + m.queue;
  }

  lemma LinkShape(m: Mem, b: Buffer)
    requires Shape(m)
    ensures Shape(m.(queue := m.queue + [b], enqueued := m.enqueued + [b]))
  {
    assert m.enqueued + [b] == Flatten(m.batches) + m.drained + (m.queue + [b]);
  }

  lemma ExecLocal(m: Mem, pc: Pc, ch: Choice)
    requires Shape(m) && Local(m, pc)
    requires Owner(pc) ==> m.flag && m.inFlight == 0
    requires m.inFlight <= Bit(m.flag)
    requires pc.DrainPop? ==> m.queue != []
    ensures var (m', pc') := Exec(m, pc, ch); Shape(m') && Local(m', pc')
  {
    if pc.DrainPop? { PopLocal(m, pc); }
    else if pc.Submit? { SubmitLocal(m, pc); }
    else if pc.SendLink? { LinkShape(m, pc.b); }
    else if !pc.ProcClear? { FlagLocal(m, pc, ch); }
  }

  lemma PopShape(m: Mem)
    requires m.queue != [] && m.enqueued == Flatten(m.batches) + m.drained + m.queue
    ensures m.enqueued == Flatten(m.batches) + (m.drained + [m.queue[0]]) + m.queue[1..]
  {
  }

  /** The steps of a thread without the right to send leave the owner's data alone. */
  lemma ExecOutside(m: Mem, pc: Pc, ch: Choice, other: Pc)
    requires !Owner(pc) && Local(m, other)
    ensures Local(Exec(m, pc, ch).0, other)
  {
  }

  lemma ExecCounts(m: Mem, pc: Pc, ch: Choice)
    requires pc.DrainPop? ==> m.queue != []
    requires Owner(pc) ==> m.flag
    ensures var (m', pc') := Exec(m, pc, ch);
      && Bit(Owner(pc')) + m'.inFlight - Bit(m'.flag) == Bit(Owner(pc)) + m.inFlight - Bit(m.flag)
      && m'.count + Bit(Undoing(pc')) + Bit(Admitted(pc')) + Bit(Unpublished(pc')) - |m'.queue|
         == m.count + Bit(Undoing(pc)) + Bit(Admitted(pc)) + Bit(Unpublished(pc)) - |m.queue|
      && (m'.count + Bit(Undoing(pc')) >= m.count + Bit(Undoing(pc)) || m'.count >= 0)
      && (m'.flag || Waking(pc') || (m'.queue == m.queue && m'.flag == m.flag && m'.count == m.count
                                     && (Waking(pc) ==> pc.Recheck? && m.count == 0)))
  {
  }

  /** Two owners cannot be; nor an owner beside a batch in flight. */
  lemma OwnerAlone(s: State, t: nat)
    requires Mutex(s.m, s.ts) && t < |s.ts| && Owner(s.ts[t])
    ensures s.m.flag && s.m.inFlight == 0
    ensures forall u :: 0 <= u < |s.ts| && u != t ==> !Owner(s.ts[u])
  {
    CountMember(s.ts, t, Owner);
    forall u | 0 <= u < |s.ts| && u != t
      ensures !Owner(s.ts[u])
    {
      if Owner(s.ts[u]) {
        if u < t { CountTwo(s.ts, u, t, Owner); } else { CountTwo(s.ts, t, u, Owner); }
      }
    }
  }

  lemma {:induction false} NoOwnerNoDrain(ts: seq<Pc>)
    ensures Count(ts, Undoing) + Count(ts, Admitted) <= Count(ts, Owner)
    ensures Count(ts, Unpublished) <= Count(ts, Waking)
  {
    if ts == [] {
    } else {
      NoOwnerNoDrain(ts[1..]);
    }
  }

  lemma StepLocals(s: State, t: nat, ch: Choice)
    requires Inv(s) && t < |s.ts|
    ensures var s' := Step(s, t, ch); Shape(s'.m) && forall u :: 0 <= u < |s'.ts| ==> Local(s'.m, s'.ts[u])
  {
    var pc := s.ts[t];
    if Owner(pc) { OwnerAlone(s, t); }
    if pc.DrainPop? { CountMember(s.ts, t, Admitted); }
    ExecLocal(s.m, pc, ch);
    forall u | 0 <= u < |s.ts| && u != t
      ensures Local(Exec(s.m, pc, ch).0, s.ts[u])
    {
      if !Owner(pc) { ExecOutside(s.m, pc, ch, s.ts[u]); }
    }
  }

  /** The facts about the moving thread that the counting lemmas need. */
  lemma Enabled(s: State, t: nat)
    requires Mutex(s.m, s.ts) && Gate(s.m, s.ts) && t < |s.ts|
    ensures Owner(s.ts[t]) ==> s.m.flag
    ensures s.ts[t].DrainPop? ==> s.m.queue != []
  {
    if Owner(s.ts[t]) { CountMember(s.ts, t, Owner); }
    if s.ts[t].DrainPop? { CountMember(s.ts, t, Admitted); }
  }

  lemma StepMutexAndGate(s: State, t: nat, ch: Choice)
    requires Mutex(s.m, s.ts) && Gate(s.m, s.ts) && t < |s.ts|
    ensures var s' := Step(s, t, ch); Mutex(s'.m, s'.ts) && Gate(s'.m, s'.ts)
  {
    var pc' := Exec(s.m, s.ts[t], ch).1;
    Enabled(s, t);
    ExecCounts(s.m, s.ts[t], ch);
    CountUpdate(s.ts, t, pc', Owner);
    CountUpdate(s.ts, t, pc', Undoing);
    CountUpdate(s.ts, t, pc', Admitted);
    CountUpdate(s.ts, t, pc', Unpublished);
  }

  /** A thread may go to sleep on a re-check only when every queued buffer belongs to an
      enqueuer that has yet to raise the counter, and so has yet to exchange the flag. */
  lemma StepAwake(s: State, t: nat, ch: Choice)
    requires Mutex(s.m, s.ts) && Gate(s.m, s.ts) && Awake(s.m, s.ts) && t < |s.ts|
    ensures var s' := Step(s, t, ch); Awake(s'.m, s'.ts)
  {
    var (m', pc') := Exec(s.m, s.ts[t], ch);
    var ts' := s.ts[t := pc'];
    Enabled(s, t);
    ExecCounts(s.m, s.ts[t], ch);
    CountUpdate(s.ts, t, pc', Waking);
    if Waking(pc') {
      CountMember(ts', t, Waking);
    } else if !m'.flag && m'.queue != [] && Waking(s.ts[t]) {
      NoOwnerNoDrain(s.ts);
      CountUpdate(s.ts, t, pc', Unpublished);
      NoOwnerNoDrain(ts');
    }
  }

  // ------------------------------------------------------------------ whole runs

  lemma StepInv(s: State, t: nat, ch: Choice)
    requires Inv(s) && t < |s.ts|
    ensures Inv(Step(s, t, ch))
  {
    StepLocals(s, t, ch);
    StepMutexAndGate(s, t, ch);
    StepAwake(s, t, ch);
  }

  lemma InitInv(threads: nat)
    ensures Inv(Init(threads))
  {
    var ts := Init(threads).ts;
    CountNone(ts, Owner);
    CountNone(ts, Undoing);
    CountNone(ts, Admitted);
    CountNone(ts, Unpublished);
  }

  lemma RunInv(s: State, sched: Schedule)
    requires Inv(s)
    ensures Inv(Run(s, sched))
  {
    forall x: State, t: nat, ch: Choice | Inv(x)
      ensures Inv(MoveThread(x, t, ch))
    {
      if t < |x.ts| { StepInv(x, t, ch); }
    }
    Runs.RunKeeps(MoveThread, Inv, s, sched);
  }

  // ---------------------------------------------------------------- main results

  /** Exactly once and in order: in every run the submitted batches, the batch being
      drained and the queue are together the sequence of enqueued buffers; batches hold
      1 to 64 buffers; at most one is in flight, and its buffers stay referenced. */
  lemma ExactlyOnceInOrder(threads: nat, sched: Schedule)
    ensures var m := Run(Init(threads), sched).m;
      && !m.fault
      && Flatten(m.batches) + m.drained + m.queue == m.enqueued
      && (forall i :: 0 <= i < |m.batches| ==> 0 < |m.batches[i]| <= MAX_SEND_WSABUF_SIZE)
      && m.inFlight <= 1
      && (m.inFlight == 1 ==> m.batches != [] && m.pending == m.batches[|m.batches| - 1] && m.drained == [])
  {
    InitInv(threads);
    RunInv(Init(threads), sched);
  }

  /** No wakeup is lost: while a buffer is queued, the flag is held or some thread still
      has to exchange the flag or to re-check the queue. */
  lemma NoLostWakeup(threads: nat, sched: Schedule)
    ensures var s := Run(Init(threads), sched);
      s.m.queue != [] ==> s.m.flag || exists t :: 0 <= t < |s.ts| && Waking(s.ts[t])
  {
    InitInv(threads);
    RunInv(Init(threads), sched);
    var s := Run(Init(threads), sched);
    if forall t :: 0 <= t < |s.ts| ==> !Waking(s.ts[t]) {
      CountNone(s.ts, Waking);
    }
  }

  ghost predicate AllIdle(ts: seq<Pc>)
  {
    forall t :: 0 <= t < |ts| ==> ts[t] == Idle
  }

  /** When all threads are idle, either a send is in flight, or nothing is queued and
      everything that was ever enqueued has been submitted. */
  lemma IdleMeansSentOrSending(threads: nat, sched: Schedule)
    requires AllIdle(Run(Init(threads), sched).ts)
    ensures var m := Run(Init(threads), sched).m;
      m.inFlight == 1 || (m.inFlight == 0 && m.queue == [] && Flatten(m.batches) == m.enqueued)
  {
    InitInv(threads);
    RunInv(Init(threads), sched);
    var s := Run(Init(threads), sched);
    CountNone(s.ts, Owner);
    CountNone(s.ts, Waking);
    assert Flatten(s.m.batches) + [] + [] == Flatten(s.m.batches);
  }
}
