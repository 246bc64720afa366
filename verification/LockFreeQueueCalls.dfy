/** Calls on the queue of module LockFreeQueue: runs made of whole calls, which show where
    the capacity test and the answer `false` fail, and the books that tie every call's
    argument and answer to the queue. */
module LockFreeQueueCalls {
  import opened Common
  import Runs
  import opened Threads
  import opened Calls
  import opened LockFreeQueue

  // --------------------------------------------------------------- runs that overshoot

  ghost predicate Reaches(s: State, s': State)
  {
    Runs.Reaches(MoveThread, s, s')
  }

  lemma Go(s0: State, s: State, t: nat, ch: Choice) returns (s': State)
    requires Reaches(s0, s) && t < |s.ts|
    ensures s' == Step(s, t, ch) && Reaches(s0, s')
  {
    s' := Runs.Go(MoveThread, s0, s, t, ch);
  }

  /** The tail stands on a node that nothing is linked behind. */
  ghost predicate TailReady(m: Mem)
  {
    m.tail.node.At? && Live(m, m.tail.node) && m.next[m.tail.node.n] == Null
  }

  /** An idle thread's TryEnqueue, alone up to the read of the tail. */
  lemma AllocAlone(s0: State, s: State, t: nat, v: Data, n: nat) returns (s': State)
    requires Reaches(s0, s) && t < |s.ts| && s.ts[t] == Idle
    requires s.m.count < s.m.max && n !in s.m.next
    ensures Reaches(s0, s') && s' == State(Alloc(s.m, t, n, v), s.ts[t := EnqReadTail(Cell(n, v))])
  {
    var ch := Choice(true, v, n, false, false);
    s' := Go(s0, s, t, ch);
    s' := Go(s0, s', t, ch);
    s' := Go(s0, s', t, ch);
  }

  /** Then up to the link. */
  lemma LinkAlone(s0: State, s: State, t: nat, cell: Cell, b: nat) returns (s': State)
    requires Reaches(s0, s) && t < |s.ts| && s.ts[t] == EnqReadTail(cell)
    requires s.m.tail.node == At(b) && Live(s.m, At(b)) && s.m.next[b] == Null
    ensures Reaches(s0, s') && s' == State(Link(s.m, t, cell, b), s.ts[t := MoveCount(Linked(|s.m.chain|))])
  {
    var ch := Choice(true, 0, 0, false, false);
    s' := Go(s0, s, t, ch);
    s' := Go(s0, s', t, ch);
    s' := Go(s0, s', t, ch);
    assert s' == State(s.m, s.ts[t := EnqCas(cell, At(b))]);
    s' := Go(s0, s', t, ch);
  }

  /** Then its moveTail, up to the increment of the counter. */
  lemma AdvanceAlone(s0: State, s: State, t: nat, n: nat) returns (s': State)
    requires Reaches(s0, s) && t < |s.ts| && s.ts[t].MoveCount?
    requires Live(s.m, s.m.tail.node) && s.m.next[s.m.tail.node.n] == At(n)
    ensures Reaches(s0, s') && s'.ts == s.ts[t := Resume(s.ts[t].k)]
    ensures s'.m == s.m.(tail := Node16(At(n), s.m.tail.count + 1))
  {
    var ch := Choice(true, 0, 0, false, false);
    s' := Go(s0, s, t, ch);
    s' := Go(s0, s', t, ch);
    s' := Go(s0, s', t, ch);
    assert s'.m == s.m && s'.ts == s.ts[t := MoveCas(s.ts[t].k, s.m.tail.count, s.m.tail.node, At(n))];
    s' := Go(s0, s', t, ch);
  }

  /** The memory after an enqueue of `v` whose counter increment is still to come. */
  ghost predicate Enqueued(m: Mem, m': Mem, v: Data)
  {
    m'.enq == m.enq + [v] && m'.deq == m.deq && m'.max == m.max && m'.count == m.count && TailReady(m')
  }

  lemma EnqueueAlone(s0: State, s: State, t: nat, v: Data) returns (s': State)
    requires Reaches(s0, s) && t < |s.ts| && s.ts[t] == Idle
    requires TailReady(s.m) && s.m.count < s.m.max
    ensures Reaches(s0, s') && s'.ts == s.ts[t := EnqInc(|s.m.chain|)] && Enqueued(s.m, s'.m, v)
  {
    var n := Unused(s.m.next.Keys);
    var b := s.m.tail.node.n;
    s' := AllocAlone(s0, s, t, v, n);
    s' := LinkAlone(s0, s', t, Cell(n, v), b);
    s' := AdvanceAlone(s0, s', t, n);
  }

  ghost predicate AllIdle(ts: seq<Pc>, from: nat)
  {
    forall t :: from <= t < |ts| ==> ts[t] == Idle
  }

  ghost predicate AllUndo(ts: seq<Pc>, to: nat)
  {
    forall t :: 0 <= t < to && t < |ts| ==> ts[t] == DeqUndo
  }

  /** One thread fills the queue with `k` elements. */
  lemma {:induction false} FillAlone(max: int, threads: nat, k: nat) returns (s: State)
    requires threads >= 1 && k <= max
    ensures Reaches(Init(max, threads), s) && |s.ts| == threads && AllIdle(s.ts, 0) && TailReady(s.m)
    ensures s.m.max == max && s.m.count == |s.m.enq| == k && s.m.deq == []
  {
    var s0 := Init(max, threads);
    if k == 0 {
      s := s0;
      Runs.ReachesSelf(MoveThread, s);
    } else {
      s := FillAlone(max, threads, k - 1);
      s := EnqueueAlone(s0, s, 0, 0);
      s := Go(s0, s, 0, Choice(true, 0, 0, false, false));
    }
  }

  lemma RefuseAlone(s0: State, s: State, t: nat) returns (s': State)
    requires Reaches(s0, s) && t < |s.ts| && s.ts[t] == Idle && s.m.count <= 0
    ensures Reaches(s0, s') && s' == State(s.m.(count := s.m.count - 1), s.ts[t := DeqUndo])
  {
    var ch := Choice(false, 0, 0, false, false);
    s' := Go(s0, s, t, ch);
    s' := Go(s0, s', t, ch);
  }

  /** Dequeuers of an empty queue, each about to undo its decrement. */
  lemma {:induction false} DequeueEmpty(max: int, threads: nat, k: nat) returns (s: State)
    requires k <= threads
    ensures Reaches(Init(max, threads), s) && |s.ts| == threads && AllIdle(s.ts, k) && TailReady(s.m)
    ensures s.m.max == max && s.m.count + k == 0 && s.m.enq == s.m.deq == [] && AllUndo(s.ts, k)
  {
    var s0 := Init(max, threads);
    if k == 0 {
      s := s0;
      Runs.ReachesSelf(MoveThread, s0);
    } else {
      s := DequeueEmpty(max, threads, k - 1);
      s := RefuseAlone(s0, s, k - 1);
    }
  }

  /** Threads `k` and up enqueue while the counter stands one below the maximum: each
      passes the test, as none before it has raised the counter yet. */
  lemma {:induction false} EnqueueTogether(s0: State, s: State, k: nat) returns (s': State)
    requires Reaches(s0, s) && k <= |s.ts| && AllIdle(s.ts, k) && TailReady(s.m) && s.m.count < s.m.max
    ensures Reaches(s0, s') && |s'.m.enq| == |s.m.enq| + |s.ts| - k && s'.m.deq == s.m.deq
    decreases |s.ts| - k
  {
    if k == |s.ts| {
      s' := s;
    } else {
      s' := EnqueueAlone(s0, s, k, 0);
      s' := EnqueueTogether(s0, s', k + 1);
    }
  }

  /** The elements in the queue after a run. */
  ghost function Length(max: int, threads: nat, sched: Schedule): int
  {
    var m := Run(Init(max, threads), sched).m;
    |m.enq| - |m.deq|
  }

  /** The bound of SoftCapacity is attained, for every maximum and number of threads. */
  lemma SoftCapacityIsTight(max: int, threads: nat)
    requires threads >= 1
    ensures exists sched: Schedule :: Length(max, threads, sched) == Max(0, max - 1 + threads)
  {
    var s0, s := Init(max, threads), Init(max, threads);
    if max >= 1 {
      s := FillAlone(max, threads, max - 1);
      s := EnqueueTogether(s0, s, 0);
    } else if threads >= 1 - max {
      s := DequeueEmpty(max, threads, 1 - max);
      s := EnqueueTogether(s0, s, 1 - max);
    } else {
      s := DequeueEmpty(max, threads, 0);
    }
    var sched: Schedule :| Runs.Run(MoveThread, Init(max, threads), sched) == s;
    assert Length(max, threads, sched) == Max(0, max - 1 + threads);
  }

  /** Exactly when the maximum is respected: with one thread; or with a maximum so far
      below one that the threads together cannot bring the counter below it. */
  lemma CapacityHoldsExactlyWhen(max: int, threads: nat)
    ensures (forall sched: Schedule :: Length(max, threads, sched) <= Max(0, max))
      <==> threads <= 1 || max + threads <= 1
  {
    if threads <= 1 || max + threads <= 1 {
      forall sched: Schedule
        ensures Length(max, threads, sched) <= Max(0, max)
      {
        SoftCapacity(max, threads, sched);
      }
    } else {
      SoftCapacityIsTight(max, threads);
    }
  }

  /** With room for one element, two threads put two into the queue. */
  lemma TwoThreadsExceedOne()
    ensures exists sched: Schedule :: Length(1, 2, sched) == 2
  {
    SoftCapacityIsTight(1, 2);
  }

  // ----------------------------------------------------------------- wrong answers

  /** Thread `t` is about to be told that the queue is empty, though it holds an element
      that nobody speaks for. */
  ghost predicate WrongEmpty(s: State, t: nat)
  {
    t < |s.ts| && s.ts[t].DeqGate? && s.m.count <= 0 && Unspoken(s) > 0
  }

  /** An enqueuer counts its element, returns, and calls TryDequeue. */
  lemma AskAlone(s0: State, s: State, t: nat) returns (s': State)
    requires Reaches(s0, s) && t < |s.ts| && s.ts[t].EnqInc?
    ensures Reaches(s0, s') && s' == State(s.m.(count := s.m.count + 1), s.ts[t := DeqGate(0)])
  {
    var ch := Choice(false, 0, 0, false, false);
    s' := Go(s0, s, t, ch);
    s' := Go(s0, s', t, ch);
  }

  lemma OnlyUndoing(s: State, t: nat)
    requires t < |s.ts| && s.ts[t].DeqGate? && AllUndo(s.ts, t) && AllIdle(s.ts, t + 1)
    ensures Unspoken(s) == |s.m.enq| - |s.m.deq|
  {
    CountNone(s.ts, Admitted);
    CountNone(s.ts, Unpublished);
  }

  /** One thread, or more if the maximum is negative, has failed to dequeue and not undone
      its decrement; another enqueues an element, returns, and asks for it in vain. */
  lemma EmptyAnswerCanBeWrong(max: int, threads: nat)
    requires threads >= 2 && max + threads >= 2
    ensures exists sched: Schedule, t: nat :: WrongEmpty(Run(Init(max, threads), sched), t)
  {
    var s0, k := Init(max, threads), Max(1, 1 - max);
    var s := DequeueEmpty(max, threads, k);
    s := EnqueueAlone(s0, s, k, 0);
    s := AskAlone(s0, s, k);
    OnlyUndoing(s, k);
    assert WrongEmpty(s, k);
    var sched: Schedule :| Runs.Run(MoveThread, s0, sched) == s;
    assert Run(s0, sched) == s;
  }

  lemma RunThreads(s: State, sched: Schedule)
    ensures |Run(s, sched).ts| == |s.ts|
  {
    Runs.RunKeeps(MoveThread, (x: State) => |x.ts| == |s.ts|, s, sched);
  }

  /** Alone, a thread that asks finds no decrement but its own. */
  lemma AloneIsNeverWrong(s: State, t: nat)
    requires Inv(s) && |s.ts| <= 1
    ensures !WrongEmpty(s, t)
  {
    if t < |s.ts| && s.ts[t].DeqGate? {
      CountNone(s.ts, Undoing);
    }
  }

  /** Exactly when the answer `false` can be relied on in every run. */
  lemma EmptyAnswerHoldsExactlyWhen(max: int, threads: nat)
    ensures (forall sched: Schedule, t: nat :: !WrongEmpty(Run(Init(max, threads), sched), t))
      <==> threads <= 1 || max + threads <= 1
  {
    if threads <= 1 || max + threads <= 1 {
      forall sched: Schedule, t: nat
        ensures !WrongEmpty(Run(Init(max, threads), sched), t)
      {
        InitInv(max, threads);
        RunInv(Init(max, threads), sched);
        RunThreads(Init(max, threads), sched);
        if threads <= 1 {
          AloneIsNeverWrong(Run(Init(max, threads), sched), t);
        } else {
          SoftCapacity(max, threads, sched);
        }
      }
    } else {
      EmptyAnswerCanBeWrong(max, threads);
    }
  }

  // --------------------------------------------------------------- calls and answers

  /** A call starts where an idle thread moves, and is answered `false` where a thread
      comes back from the capacity test or from the undone decrement. */
  function NoteStep(t: nat, pc: Pc, pc': Pc, ch: Choice, log: Log<Data>): Log<Data>
  {
    if pc.Idle? then Add(t, if ch.enqueue then StartGive(ch.v) else StartTake, log)
    else if pc'.Idle? && pc.EnqCheck? && t in log.args then Add(t, Reject(log.args[t]), log)
    else if pc'.Idle? && pc.DeqUndo? then Add(t, Refuse, log)
    else log
  }

  function Note(s: State, t: nat, ch: Choice, log: Log<Data>): Log<Data>
  {
    if t < |s.ts| then NoteStep(t, s.ts[t], Step(s, t, ch).ts[t], ch, log) else log
  }

  ghost function LogOf(s: State, sched: Schedule): Log<Data>
  {
    Runs.Log(MoveThread, Note, s, NoCalls(), sched)
  }

  /** The value that a TryEnqueue not yet linked is carrying. */
  function Carried(pc: Pc): Option<Data>
  {
    match pc
    case EnqCheck(v) => Some(v)
    case EnqAlloc(v) => Some(v)
    case EnqReadTail(cell) => Some(cell.v)
    case EnqReadNext(cell, _) => Some(cell.v)
    case EnqReadTailAgain(cell, _) => Some(cell.v)
    case EnqCas(cell, _) => Some(cell.v)
    case _ => if Moving(pc) && pc.k.Retry? then Some(pc.k.cell.v) else None
  }

  /** A TryDequeue that has neither popped nor answered. */
  predicate Asking(pc: Pc)
  {
    pc.DeqGate? || pc.DeqUndo? || Admitted(pc)
  }

  ghost function BooksOf(m: Mem): Books<Data>
  {
    Books(multiset(m.enq), |m.deq|)
  }

  /** What the step does to the calls, and that the log has it so. */
  ghost predicate Progresses(m: Mem, pc: Pc, ch: Choice, m': Mem, pc': Pc, e: Event<Data>)
  {
    && Effect(e, Carried(pc), Carried(pc'), Asking(pc), Asking(pc'), BooksOf(m), BooksOf(m'))
    && (pc.Idle? ==> e == if ch.enqueue then StartGive(ch.v) else StartTake)
    && (!pc.Idle? ==> !e.StartGive? && !e.StartTake?)
    && (e.Reject? <==> pc.EnqCheck? && pc'.Idle?) && (e.Reject? ==> m.max <= m.count)
    && (e.Refuse? <==> pc.DeqUndo? && pc'.Idle?)
    && (m'.enq == m.enq || (e.Give? && m'.enq == m.enq + [e.v]))
  }

  lemma EnqueueProgresses(m: Mem, t: nat, pc: Pc, ch: Choice, m': Mem, pc': Pc) returns (e: Event<Data>)
    requires pc.EnqCheck? || pc.EnqAlloc? || pc.EnqInc?
    requires (m', pc') == ExecEnqueue(m, t, pc, ch)
    ensures Progresses(m, pc, ch, m', pc', e)
  {
    e := if pc.EnqCheck? && m.max <= m.count then Reject(pc.v) else Carry;
  }

  lemma ReadTailProgresses(m: Mem, t: nat, pc: Pc, ch: Choice, m': Mem, pc': Pc) returns (e: Event<Data>)
    requires pc.EnqReadTail? || pc.EnqReadNext? || pc.EnqReadTailAgain?
    requires Sound(m, pc) && (m', pc') == ExecEnqueue(m, t, pc, ch)
    ensures Progresses(m, pc, ch, m', pc', e)
  {
    e := Carry;
  }

  lemma LinkProgresses(m: Mem, t: nat, pc: Pc, ch: Choice, m': Mem, pc': Pc) returns (e: Event<Data>)
    requires Sound(m, pc) && pc.EnqCas? && (m', pc') == ExecEnqueue(m, t, pc, ch)
    ensures Progresses(m, pc, ch, m', pc', e)
  {
    e := if m.next[pc.b.n] == Null && !ch.spurious then Give(pc.cell.v) else Carry;
  }

  lemma ResumeCarries(k: Cont)
    ensures Carried(Resume(k)) == if k.Retry? then Some(k.cell.v) else None
    ensures Asking(Resume(k)) == k.Continue? && !Resume(k).Idle?
  {
  }

  lemma MoveProgresses(m: Mem, pc: Pc, ch: Choice, m': Mem, pc': Pc) returns (e: Event<Data>)
    requires Sound(m, pc) && Moving(pc) && (m', pc') == ExecMoveTail(m, pc)
    ensures Progresses(m, pc, ch, m', pc', e)
  {
    e := Carry;
    if pc.MoveCas? || (pc.MoveNext? && pc' == Resume(pc.k)) {
      ResumeCarries(pc.k);
      CarryProgresses(m, pc, ch, m', Resume(pc.k));
    } else {
      CarryProgresses(m, pc, ch, m', pc');
    }
  }

  lemma CarryProgresses(m: Mem, pc: Pc, ch: Choice, m': Mem, pc': Pc)
    requires m'.enq == m.enq && m'.deq == m.deq && Moving(pc) && !pc'.Idle?
    requires Carried(pc') == Carried(pc) && Asking(pc') == Asking(pc)
    ensures Progresses(m, pc, ch, m', pc', Carry)
  {
  }

  lemma ReadProgresses(m: Mem, pc: Pc, ch: Choice, m': Mem, pc': Pc) returns (e: Event<Data>)
    requires Sound(m, pc) && !Moving(pc) && Admitted(pc) && !pc.DeqCas? && (m', pc') == ExecDequeue(m, pc, ch)
    ensures Progresses(m, pc, ch, m', pc', e)
  {
    e := Carry;
  }

  lemma DequeueProgresses(m: Mem, pc: Pc, ch: Choice, m': Mem, pc': Pc) returns (e: Event<Data>)
    requires pc.DeqCas? || pc.DeqGate? || pc.DeqUndo?
    requires (m', pc') == ExecDequeue(m, pc, ch)
    ensures Progresses(m, pc, ch, m', pc', e)
  {
    e := if pc.DeqUndo? then Refuse else if pc.DeqCas? && m.head == pc.e && !ch.spurious then Take else Carry;
  }

  lemma StartProgresses(m: Mem, ch: Choice, pc': Pc) returns (e: Event<Data>)
    requires pc' == if ch.enqueue then EnqCheck(ch.v) else DeqGate(ch.v)
    ensures Progresses(m, Idle, ch, m, pc', e)
  {
    e := if ch.enqueue then StartGive(ch.v) else StartTake;
  }

  lemma ExecProgresses(m: Mem, t: nat, pc: Pc, ch: Choice, m': Mem, pc': Pc) returns (e: Event<Data>)
    requires Sound(m, pc) && (m', pc') == Exec(m, t, pc, ch)
    ensures Progresses(m, pc, ch, m', pc', e)
  {
    if pc.Idle? { e := StartProgresses(m, ch, pc'); }
    else if Moving(pc) { e := MoveProgresses(m, pc, ch, m', pc'); }
    else if pc.DeqCas? || pc.DeqGate? || pc.DeqUndo? { e := DequeueProgresses(m, pc, ch, m', pc'); }
    else if Admitted(pc) { e := ReadProgresses(m, pc, ch, m', pc'); }
    else if pc.EnqCas? { e := LinkProgresses(m, t, pc, ch, m', pc'); }
    else if pc.EnqCheck? || pc.EnqAlloc? || pc.EnqInc? { e := EnqueueProgresses(m, t, pc, ch, m', pc'); }
    else { e := ReadTailProgresses(m, t, pc, ch, m', pc'); }
  }

  ghost predicate CallLaw(s: State, log: Log<Data>)
  {
    Law(s.ts, Carried, Asking, BooksOf(s.m), log)
  }

  /** The log is kept as the event has it. */
  lemma NoteIsAdd(m: Mem, ts: seq<Pc>, t: nat, ch: Choice, m': Mem, pc': Pc, e: Event<Data>, log: Log<Data>)
    requires t < |ts| && HaveArgs(ts, Carried, log.args) && Progresses(m, ts[t], ch, m', pc', e)
    ensures NoteStep(t, ts[t], pc', ch, log) == Add(t, e, log)
  {
    assert Carried(ts[t]).Some? ==> t in log.args && log.args[t] == Carried(ts[t]).value;
  }

  lemma StepCallLaw(s: State, t: nat, ch: Choice, log: Log<Data>)
    requires t < |s.ts| && Sound(s.m, s.ts[t]) && CallLaw(s, log)
    ensures CallLaw(Step(s, t, ch), Note(s, t, ch, log))
  {
    var s' := Step(s, t, ch);
    var e := ExecProgresses(s.m, t, s.ts[t], ch, s'.m, s'.ts[t]);
    NoteIsAdd(s.m, s.ts, t, ch, s'.m, s'.ts[t], e, log);
    StepLaw(s.ts, t, s'.ts[t], Carried, Asking, BooksOf(s.m), BooksOf(s'.m), e, log);
  }

  ghost predicate Lawful(s: State, log: Log<Data>)
  {
    Inv(s) && CallLaw(s, log)
  }

  lemma RunLawful(max: int, threads: nat, sched: Schedule)
    ensures Lawful(Run(Init(max, threads), sched), LogOf(Init(max, threads), sched))
  {
    var s := Init(max, threads);
    forall x: State, log: Log<Data>, t: nat, ch: Choice | Lawful(x, log)
      ensures Lawful(MoveThread(x, t, ch), Note(x, t, ch, log))
    {
      if t < |x.ts| {
        StepInv(x, t, ch);
        LocalSound(x.m, t, x.ts[t]);
        StepCallLaw(x, t, ch, log);
      }
    }
    InitInv(max, threads);
    StartLaw(s.ts, Carried, Asking, BooksOf(s.m));
    Runs.LogKeeps(MoveThread, Note, Lawful, s, NoCalls(), sched);
  }

  /** In every run: the arguments of all TryEnqueue calls are, with multiplicity, those
      answered `false`, those still carried, and the elements ever linked; all TryDequeue
      calls were answered `false`, are still asking, or have popped an element each. */
  lemma EveryCallCounts(max: int, threads: nat, sched: Schedule)
    ensures var s, log := Run(Init(max, threads), sched), LogOf(Init(max, threads), sched);
      && log.started == log.rejected + Gather(s.ts, Carried) + multiset(s.m.enq)
      && log.asked == log.refused + Count(s.ts, Asking) + |s.m.deq|
  {
    RunLawful(max, threads, sched);
  }

  /** After every run, a step that links appends the argument that the linking thread's own
      call was made with. */
  lemma LinkAppendsArgument(max: int, threads: nat, sched: Schedule, t: nat, ch: Choice)
    requires t < |Run(Init(max, threads), sched).ts|
    ensures var s, log := Run(Init(max, threads), sched), LogOf(Init(max, threads), sched);
      var s' := Step(s, t, ch);
      s'.m.enq == s.m.enq || (t in log.args && s'.m.enq == s.m.enq + [log.args[t]])
  {
    RunLawful(max, threads, sched);
    var s := Run(Init(max, threads), sched);
    var s' := Step(s, t, ch);
    assert Local(s.m, t, s.ts[t]);
    LocalSound(s.m, t, s.ts[t]);
    var e := ExecProgresses(s.m, t, s.ts[t], ch, s'.m, s'.ts[t]);
    assert HaveArgs(s.ts, Carried, LogOf(Init(max, threads), sched).args);
  }

  // ---------------------------------------------------------------- calls made alone

  /** With all threads idle, the counter is the length of the queue. */
  lemma IdleIsSettled(s: State)
    requires Inv(s) && AllIdle(s.ts, 0)
    ensures TailReady(s.m) && s.m.count == |s.m.enq| - |s.m.deq|
    ensures s.m.tail.count == |s.m.enq| && s.m.head.count == |s.m.deq|
  {
    CountNone(s.ts, Undoing);
    CountNone(s.ts, Admitted);
    CountNone(s.ts, Unpublished);
    assert s.m.tail.node.n in s.m.pos;
  }

  /** The head stands on a node whose successor holds `v`, and is not the tail. */
  ghost predicate FrontIs(m: Mem, v: Data)
  {
    && m.head.node.At? && Live(m, m.head.node) && m.head.node != m.tail.node
    && Live(m, m.next[m.head.node.n]) && m.data[m.next[m.head.node.n].n] == v
  }

  lemma FrontOfQueue(m: Mem)
    requires Shape(m) && m.head.count < m.tail.count
    ensures |m.deq| < |m.enq| && FrontIs(m, m.enq[|m.deq|])
  {
    HeadNode(m);
    NextOfCandidate(m, m.head.count, m.head.node.n);
    DataOfCandidate(m, m.head, Node16(m.next[m.head.node.n], m.head.count + 1));
    assert m.chain[m.head.count] != m.chain[m.tail.count];
  }

  /** The reads of the head by a dequeuer alone. */
  lemma ReadAlone(s0: State, s: State, t: nat, out: Data) returns (s': State)
    requires Reaches(s0, s) && t < |s.ts| && s.ts[t] == DeqTest(Node16(Null, 0), Node16(Null, 0), out)
    requires s.m.head.node.At? && s.m.head.node != s.m.tail.node
    ensures Reaches(s0, s') && s' == State(s.m, s.ts[t := DeqNext(s.m.head.count, s.m.head.node.n, out)])
  {
    var ch := Choice(false, 0, 0, true, false);
    s' := Go(s0, s, t, ch);
    s' := Go(s0, s', t, ch);
    assert s' == State(s.m, s.ts[t := DeqCount(Node16(Null, 0), out)]);
    s' := Go(s0, s', t, ch);
    s' := Go(s0, s', t, ch);
  }

  /** Then the pop. */
  lemma PopAlone(s0: State, s: State, t: nat, out: Data, v: Data) returns (s': State)
    requires Reaches(s0, s) && t < |s.ts| && FrontIs(s.m, v)
    requires s.ts[t] == DeqNext(s.m.head.count, s.m.head.node.n, out)
    ensures Reaches(s0, s') && s'.ts == s.ts[t := Idle]
    ensures s'.m == s.m.(head := s'.m.head, deq := s.m.deq + [v])
  {
    var ch := Choice(false, 0, 0, true, false);
    s' := Go(s0, s, t, ch);
    s' := Go(s0, s', t, ch);
    var d := Node16(s.m.next[s.m.head.node.n], s.m.head.count + 1);
    assert s' == State(s.m, s.ts[t := DeqCas(s.m.head, d, v)]);
    s' := Go(s0, s', t, ch);
  }

  /** An idle thread passes the gate. */
  lemma AdmitAlone(s0: State, s: State, t: nat) returns (s': State)
    requires Reaches(s0, s) && t < |s.ts| && s.ts[t] == Idle && s.m.count > 0
    ensures Reaches(s0, s')
    ensures s' == State(s.m.(count := s.m.count - 1), s.ts[t := DeqTest(Node16(Null, 0), Node16(Null, 0), 0)])
  {
    var ch := Choice(false, 0, 0, true, false);
    s' := Go(s0, s, t, ch);
    s' := Go(s0, s', t, ch);
  }

  /** A full queue turns an enqueuer away. */
  lemma RejectAlone(s: State, t: nat, v: Data) returns (s': State)
    requires t < |s.ts| && s.ts[t] == Idle && s.m.max <= s.m.count
    ensures Reaches(s, s') && s' == s
  {
    var ch := Choice(true, v, 0, false, false);
    Runs.ReachesSelf(MoveThread, s);
    s' := Go(s, s, t, ch);
    s' := Go(s, s', t, ch);
    assert s'.ts == s.ts;
  }

  /** An enqueue call alone, to its end. */
  lemma AcceptAlone(s: State, t: nat, v: Data) returns (s': State)
    requires t < |s.ts| && s.ts[t] == Idle && TailReady(s.m) && s.m.count < s.m.max
    ensures Reaches(s, s') && s'.ts == s.ts
    ensures s'.m.enq == s.m.enq + [v] && s'.m.deq == s.m.deq && s'.m.max == s.m.max
  {
    Runs.ReachesSelf(MoveThread, s);
    s' := EnqueueAlone(s, s, t, v);
    s' := Go(s, s', t, Choice(true, v, 0, false, false));
    assert s'.ts == s.ts;
  }

  /** A dequeue call alone, to its end. */
  lemma TakeAlone(s: State, t: nat, v: Data) returns (s': State)
    requires t < |s.ts| && s.ts[t] == Idle && FrontIs(s.m, v) && s.m.count > 0
    ensures Reaches(s, s') && s'.ts == s.ts
    ensures s'.m.deq == s.m.deq + [v] && s'.m.enq == s.m.enq && s'.m.max == s.m.max
  {
    Runs.ReachesSelf(MoveThread, s);
    s' := AdmitAlone(s, s, t);
    s' := ReadAlone(s, s', t, 0);
    s' := PopAlone(s, s', t, 0, v);
    assert s'.ts == s.ts;
  }

  lemma UndoAlone(s: State, t: nat) returns (s': State)
    requires t < |s.ts| && s.ts[t] == Idle && s.m.count <= 0
    ensures Reaches(s, s') && s' == s
  {
    Runs.ReachesSelf(MoveThread, s);
    s' := RefuseAlone(s, s, t);
    s' := Go(s, s', t, Choice(false, 0, 0, true, false));
    assert s'.ts == s.ts;
  }

  /** A call made while all threads are idle, and carried to its end, does what a bounded
      FIFO queue does: TryEnqueue appends its argument, or, with the queue full, does
      nothing. */
  lemma EnqueueCallAlone(s: State, t: nat, v: Data) returns (s': State)
    requires Inv(s) && AllIdle(s.ts, 0) && t < |s.ts|
    ensures Reaches(s, s') && s'.ts == s.ts
    ensures if |s.m.enq| - |s.m.deq| < s.m.max
      then s'.m.enq == s.m.enq + [v] && s'.m.deq == s.m.deq && s'.m.max == s.m.max
      else s' == s
  {
    IdleIsSettled(s);
    if s.m.count < s.m.max { s' := AcceptAlone(s, t, v); } else { s' := RejectAlone(s, t, v); }
  }

  /** And TryDequeue removes the front, or, with the queue empty, does nothing. */
  lemma DequeueCallAlone(s: State, t: nat) returns (s': State)
    requires Inv(s) && AllIdle(s.ts, 0) && t < |s.ts|
    ensures Reaches(s, s') && s'.ts == s.ts
    ensures if |s.m.deq| < |s.m.enq|
      then s'.m.deq == s.m.deq + [s.m.enq[|s.m.deq|]] && s'.m.enq == s.m.enq && s'.m.max == s.m.max
      else s' == s
  {
    IdleIsSettled(s);
    if |s.m.deq| < |s.m.enq| {
      FrontOfQueue(s.m);
      s' := TakeAlone(s, t, s.m.enq[|s.m.deq|]);
    } else {
      s' := UndoAlone(s, t);
    }
  }
}
