/** Calls on the stack and the pool of module CountedStack: runs made of whole calls, which
    show where the capacity test and the answer `false` fail, and the books that tie every
    call's argument and answer to the stack. */
module CountedStackCalls {
  import opened Common
  import Runs
  import opened Threads
  import opened Calls
  import opened CountedStack

  // --------------------------------------------------------------- runs that overshoot

  ghost predicate Reaches(s: State, s': State)
  {
    Runs.Reaches(MoveThread, s, s')
  }

  lemma Go(s0: State, s: State, t: nat, ch: Choice) returns (s': State)
    requires Reaches(s0, s) && t < |s.ts|
    ensures s' == Step(s, t, ch) && Reaches(s0, s')
  {
    s' := Runs.Go(MoveThread, s0, s, t, ch);
  }

  /** A node that the stack's allocator can make anew. */
  ghost predicate Fresh(m: Mem, n: nat)
  {
    m.out[n] == 0 && n !in m.next
  }

  /** An idle thread's TryPush, alone up to the read of the top. */
  lemma TakeAlone(s0: State, s: State, t: nat, v: Data, n: nat) returns (s': State)
    requires Reaches(s0, s) && t < |s.ts| && s.ts[t] == Idle
    requires s.m.kind.Stack? && s.m.count < s.m.kind.max && Fresh(s.m, n)
    ensures Reaches(s0, s') && s' == State(Create(s.m, n, v, Hand(t)), s.ts[t := PushRead(n, v)])
  {
    var ch := Choice(true, v, n, false);
    s' := Go(s0, s, t, ch);
    s' := Go(s0, s', t, ch);
    s' := Go(s0, s', t, ch);
  }

  /** Then up to the increment of the counter. */
  lemma LinkAlone(s0: State, s: State, t: nat, v: Data, n: nat) returns (s': State)
    requires Reaches(s0, s) && t < |s.ts| && s.ts[t] == PushRead(n, v)
    ensures Reaches(s0, s')
    ensures s' == State(Push(s.m.(next := s.m.next[n := s.m.top.node]), n, v), s.ts[t := PushInc])
  {
    var ch := Choice(true, 0, 0, false);
    s' := Go(s0, s, t, ch);
    s' := Go(s0, s', t, ch);
    s' := Go(s0, s', t, ch);
  }

  lemma PushAlone(s0: State, s: State, t: nat, v: Data, n: nat) returns (s': State)
    requires Reaches(s0, s) && t < |s.ts| && s.ts[t] == Idle
    requires s.m.kind.Stack? && s.m.count < s.m.kind.max && Fresh(s.m, n)
    ensures Reaches(s0, s') && s'.ts == s.ts[t := PushInc]
    ensures s'.m.kind == s.m.kind && s'.m.count == s.m.count && s'.m.out == s.m.out
    ensures s'.m.list == [n] + s.m.list && s'.m.vals == [v] + s.m.vals
  {
    s' := TakeAlone(s0, s, t, v, n);
    s' := LinkAlone(s0, s', t, v, n);
  }

  /** A stack of which no node has been given back yet. */
  ghost predicate NoneBack(m: Mem)
  {
    m.kind.Stack? && m.out == multiset{}
  }

  ghost predicate AllIdle(ts: seq<Pc>, from: nat)
  {
    forall t :: from <= t < |ts| ==> ts[t] == Idle
  }

  ghost predicate AllUndo(ts: seq<Pc>, to: nat)
  {
    forall t :: 0 <= t < to && t < |ts| ==> ts[t] == PopUndo
  }

  /** One thread fills the stack to `k` elements. */
  lemma {:induction false} FillAlone(max: int, threads: nat, k: nat) returns (s: State)
    requires threads >= 1 && k <= max
    ensures Reaches(Init(Stack(max), threads), s) && |s.ts| == threads && AllIdle(s.ts, 0) && NoneBack(s.m)
    ensures s.m.kind == Stack(max) && s.m.count == |s.m.list| == k
  {
    var s0 := Init(Stack(max), threads);
    if k == 0 {
      s := s0;
      Runs.ReachesSelf(MoveThread, s0);
    } else {
      s := FillAlone(max, threads, k - 1);
      var n := Unused(s.m.next.Keys);
      s := PushAlone(s0, s, 0, 0, n);
      s := Go(s0, s, 0, Choice(true, 0, 0, false));
    }
  }

  /** Poppers of an empty stack, each about to undo its decrement. */
  lemma {:induction false} PopEmpty(max: int, threads: nat, k: nat) returns (s: State)
    requires k <= threads
    ensures Reaches(Init(Stack(max), threads), s) && |s.ts| == threads && AllIdle(s.ts, k) && NoneBack(s.m)
    ensures s.m.kind == Stack(max) && s.m.count + k == 0 && s.m.list == [] && AllUndo(s.ts, k)
  {
    var s0 := Init(Stack(max), threads);
    if k == 0 {
      s := s0;
      Runs.ReachesSelf(MoveThread, s0);
    } else {
      var ch := Choice(false, 0, 0, false);
      s := PopEmpty(max, threads, k - 1);
      s := Go(s0, s, k - 1, ch);
      s := Go(s0, s, k - 1, ch);
    }
  }

  /** Threads `k` and up push while the counter stands one below the maximum: each passes
      the test, as none before it has raised the counter yet. */
  lemma {:induction false} PushTogether(s0: State, s: State, k: nat) returns (s': State)
    requires Reaches(s0, s) && k <= |s.ts| && AllIdle(s.ts, k) && NoneBack(s.m) && s.m.count < s.m.kind.max
    ensures Reaches(s0, s') && |s'.m.list| == |s.m.list| + |s.ts| - k
    decreases |s.ts| - k
  {
    if k == |s.ts| {
      s' := s;
    } else {
      var n := Unused(s.m.next.Keys);
      s' := PushAlone(s0, s, k, 0, n);
      s' := PushTogether(s0, s', k + 1);
    }
  }

  /** The bound of SoftCapacity is attained, for every maximum and number of threads. */
  lemma SoftCapacityIsTight(max: int, threads: nat)
    requires threads >= 1
    ensures exists sched: Schedule :: |Run(Init(Stack(max), threads), sched).m.list| == Max(0, max - 1 + threads)
  {
    var s0 := Init(Stack(max), threads);
    var s;
    if max >= 1 {
      s := FillAlone(max, threads, max - 1);
      s := PushTogether(s0, s, 0);
    } else if threads >= 1 - max {
      s := PopEmpty(max, threads, 1 - max);
      s := PushTogether(s0, s, 1 - max);
    } else {
      s := PopEmpty(max, threads, 0);
    }
    var sched: Schedule :| Runs.Run(MoveThread, s0, sched) == s;
    assert Run(s0, sched) == s;
  }

  /** Exactly when the maximum is respected: with one thread; or with a maximum so far
      below one that the threads together cannot bring the counter below it. */
  lemma CapacityHoldsExactlyWhen(max: int, threads: nat)
    ensures (forall sched: Schedule :: |Run(Init(Stack(max), threads), sched).m.list| <= Max(0, max))
      <==> threads <= 1 || max + threads <= 1
  {
    if threads <= 1 || max + threads <= 1 {
      forall sched: Schedule
        ensures |Run(Init(Stack(max), threads), sched).m.list| <= Max(0, max)
      {
        SoftCapacity(max, threads, sched);
      }
    } else {
      SoftCapacityIsTight(max, threads);
    }
  }

  /** With room for one element, two threads put two on the stack. */
  lemma TwoThreadsExceedOne()
    ensures exists sched: Schedule :: |Run(Init(Stack(1), 2), sched).m.list| == 2
  {
    SoftCapacityIsTight(1, 2);
  }

  // ----------------------------------------------------------------- wrong answers

  /** The elements on the list that nobody speaks for: counted by their pushers, and not
      reserved by a popper at work. */
  ghost function Unspoken(s: State): int
  {
    |s.m.list| - Count(s.ts, Admitted) - Count(s.ts, Unpublished)
  }

  /** TryPop answers `false` (and Alloc makes a new node) exactly at a gate with no count
      left; the elements that nobody speaks for are then at most one per failed decrement
      still to be undone. */
  lemma EmptyAnswer(s: State, t: nat, ch: Choice)
    requires Inv(s) && t < |s.ts| && s.ts[t].PopGate?
    ensures Step(s, t, ch).ts[t].PopUndo? <==> s.m.count <= 0
    ensures s.m.count <= 0 ==> Unspoken(s) <= Count(s.ts, Undoing)
  {
    assert Gate(s.m, s.ts);
  }

  /** Thread `t` is about to be told that the stack is empty, though it holds an element
      that nobody speaks for. */
  ghost predicate WrongEmpty(s: State, t: nat)
  {
    t < |s.ts| && s.ts[t].PopGate? && s.m.count <= 0 && Unspoken(s) > 0
  }

  /** One thread, or more if the maximum is negative, has failed to pop and not undone its
      decrement; another pushes an element, returns, and asks for it in vain. */
  lemma EmptyAnswerCanBeWrong(max: int, threads: nat)
    requires threads >= 2 && max + threads >= 2
    ensures exists sched: Schedule, t: nat :: WrongEmpty(Run(Init(Stack(max), threads), sched), t)
  {
    var s0, k := Init(Stack(max), threads), Max(1, 1 - max);
    var s := PopEmpty(max, threads, k);
    var n := Unused(s.m.next.Keys);
    s := PushAlone(s0, s, k, 0, n);
    s := Go(s0, s, k, Choice(false, 0, 0, false));
    s := Go(s0, s, k, Choice(false, 0, 0, false));
    assert s.ts[k] == PopGate && s.m.count <= 0;
    CountNone(s.ts, Admitted);
    CountNone(s.ts, Unpublished);
    assert WrongEmpty(s, k);
    var sched: Schedule :| Runs.Run(MoveThread, s0, sched) == s;
    assert Run(s0, sched) == s;
  }

  lemma RunThreads(s: State, sched: Schedule)
    ensures |Run(s, sched).ts| == |s.ts|
  {
    Runs.RunKeeps(MoveThread, (x: State) => |x.ts| == |s.ts|, s, sched);
  }

  /** Alone, a thread that asks finds no decrement but its own. */
  lemma AloneIsNeverWrong(s: State, t: nat)
    requires Inv(s) && |s.ts| <= 1
    ensures !WrongEmpty(s, t)
  {
    if t < |s.ts| && s.ts[t].PopGate? {
      CountNone(s.ts, Undoing);
    }
  }

  /** Exactly when the stack's answer `false` can be relied on in every run. */
  lemma EmptyAnswerHoldsExactlyWhen(max: int, threads: nat)
    ensures (forall sched: Schedule, t: nat :: !WrongEmpty(Run(Init(Stack(max), threads), sched), t))
      <==> threads <= 1 || max + threads <= 1
  {
    if threads <= 1 || max + threads <= 1 {
      forall sched: Schedule, t: nat
        ensures !WrongEmpty(Run(Init(Stack(max), threads), sched), t)
      {
        InitInv(Stack(max), threads);
        RunInv(Init(Stack(max), threads), sched);
        RunThreads(Init(Stack(max), threads), sched);
        if threads <= 1 {
          AloneIsNeverWrong(Run(Init(Stack(max), threads), sched), t);
        } else {
          SoftCapacity(max, threads, sched);
        }
      }
    } else {
      EmptyAnswerCanBeWrong(max, threads);
    }
  }

  // --------------------------------------------------------------- calls and answers

  /** A TryPush or TryPop call starts where an idle thread moves, and is answered `false`
      where a thread comes back from the capacity test or from the undone decrement. */
  function NoteStep(t: nat, pc: Pc, pc': Pc, ch: Choice, log: Log<Data>): Log<Data>
  {
    if pc.Idle? then Add(t, if ch.push then StartGive(ch.v) else StartTake, log)
    else if pc'.Idle? && pc.PushCheck? && t in log.args then Add(t, Reject(log.args[t]), log)
    else if pc'.Idle? && pc.PopUndo? then Add(t, Refuse, log)
    else log
  }

  function Note(s: State, t: nat, ch: Choice, log: Log<Data>): Log<Data>
  {
    if t < |s.ts| then NoteStep(t, s.ts[t], Step(s, t, ch).ts[t], ch, log) else log
  }

  ghost function LogOf(s: State, sched: Schedule): Log<Data>
  {
    Runs.Log(MoveThread, Note, s, NoCalls(), sched)
  }

  /** The value that a TryPush not yet linked is carrying. */
  function Carried(pc: Pc): Option<Data>
  {
    match pc
    case PushCheck(v) => Some(v)
    case PushTake(v) => Some(v)
    case PushRead(_, v) => Some(v)
    case PushLink(_, v, _) => Some(v)
    case PushCas(_, v, _) => Some(v)
    case _ => None
  }

  /** A TryPop that has neither popped nor answered. */
  predicate Asking(pc: Pc)
  {
    pc.PopGate? || pc.PopUndo? || Admitted(pc)
  }

  /** What a history pushed, and how many it popped. */
  ghost function BooksOf(hist: seq<CountedStack.Event>): Books<Data>
  {
    if hist == [] then Books(multiset{}, 0)
    else
      var b := BooksOf(hist[..|hist| - 1]);
      match hist[|hist| - 1]
      case Pushed(v) => b.(given := b.given + multiset{v})
      case Popped(_) => b.(taken := b.taken + 1)
  }

  lemma BooksSnoc(hist: seq<CountedStack.Event>, e: CountedStack.Event)
    ensures BooksOf(hist + [e]) ==
      var b := BooksOf(hist); if e.Pushed? then b.(given := b.given + multiset{e.v}) else b.(taken := b.taken + 1)
  {
    assert (hist + [e])[..|hist|] == hist;
  }

  /** What the step does to the calls, and that the log has it so. */
  ghost predicate Progresses(m: Mem, pc: Pc, ch: Choice, m': Mem, pc': Pc, e: Calls.Event<Data>)
  {
    && Effect(e, Carried(pc), Carried(pc'), Asking(pc), Asking(pc'), BooksOf(m.hist), BooksOf(m'.hist))
    && (pc.Idle? ==> e == if ch.push then StartGive(ch.v) else StartTake)
    && (!pc.Idle? ==> !e.StartGive? && !e.StartTake?)
    && (e.Reject? <==> pc.PushCheck? && pc'.Idle?) && (e.Reject? ==> m.kind.Stack? && m.kind.max <= m.count)
    && (e.Refuse? <==> pc.PopUndo? && pc'.Idle?)
    && (m'.vals == m.vals || (e.Give? && m'.vals == [e.v] + m.vals)
        || (e.Take? && m.vals != [] && m'.vals == m.vals[1..]))
    && (m'.hist == m.hist || (e.Give? && m'.hist == m.hist + [Pushed(e.v)]) || (e.Take? && |m'.hist| == |m.hist| + 1))
  }

  lemma PushProgresses(m: Mem, t: nat, pc: Pc, ch: Choice, m': Mem, pc': Pc) returns (e: Calls.Event<Data>)
    requires pc.PushCheck? || pc.PushTake? || pc.PushRead? || pc.PushLink? || pc.PushInc?
    requires m.kind.Stack? && (m', pc') == ExecPush(m, t, pc, ch)
    ensures Progresses(m, pc, ch, m', pc', e)
  {
    e := if pc.PushCheck? && m.kind.max <= m.count then Reject(pc.v) else Carry;
  }

  lemma PushCasProgresses(m: Mem, t: nat, pc: Pc, ch: Choice, m': Mem, pc': Pc) returns (e: Calls.Event<Data>)
    requires pc.PushCas? && (m', pc') == ExecPush(m, t, pc, ch)
    ensures Progresses(m, pc, ch, m', pc', e)
  {
    BooksSnoc(m.hist, Pushed(pc.v));
    e := if m.top.node != pc.p || ch.spurious then Carry else Give(pc.v);
  }

  lemma PopProgresses(m: Mem, t: nat, pc: Pc, ch: Choice, m': Mem, pc': Pc) returns (e: Calls.Event<Data>)
    requires pc.PopGate? || pc.PopUndo? || pc.PopCount? || pc.PopNode? || pc.PopNext? || pc.PopDone?
    requires m.kind.Stack? && Sound(m, pc) && (m', pc') == ExecPop(m, t, pc, ch)
    ensures Progresses(m, pc, ch, m', pc', e)
  {
    e := if pc.PopUndo? then Refuse else Carry;
  }

  lemma PopCasProgresses(m: Mem, t: nat, pc: Pc, ch: Choice, m': Mem, pc': Pc) returns (e: Calls.Event<Data>)
    requires pc.PopCas? && Sound(m, pc) && (m', pc') == ExecPop(m, t, pc, ch)
    ensures Progresses(m, pc, ch, m', pc', e)
  {
    if m.top != Node16(At(pc.n), pc.c) || ch.spurious {
      e := Carry;
    } else {
      BooksSnoc(m.hist, Popped(m.data[pc.n]));
      e := Take;
    }
  }

  lemma StartProgresses(m: Mem, ch: Choice, pc': Pc) returns (e: Calls.Event<Data>)
    requires pc' == if ch.push then PushCheck(ch.v) else PopGate
    ensures Progresses(m, Idle, ch, m, pc', e)
  {
    e := if ch.push then StartGive(ch.v) else StartTake;
  }

  lemma ExecProgresses(m: Mem, t: nat, pc: Pc, ch: Choice, m': Mem, pc': Pc) returns (e: Calls.Event<Data>)
    requires m.kind.Stack? && Sound(m, pc) && !pc.AllocNew? && (m', pc') == Exec(m, t, pc, ch)
    ensures Progresses(m, pc, ch, m', pc', e)
  {
    if pc.Idle? { e := StartProgresses(m, ch, pc'); }
    else if pc.PushCas? { e := PushCasProgresses(m, t, pc, ch, m', pc'); }
    else if pc.PopCas? { e := PopCasProgresses(m, t, pc, ch, m', pc'); }
    else if pc.PopGate? || pc.PopUndo? || pc.PopCount? || pc.PopNode? || pc.PopNext? || pc.PopDone? {
      e := PopProgresses(m, t, pc, ch, m', pc');
    } else { e := PushProgresses(m, t, pc, ch, m', pc'); }
  }

  ghost predicate CallLaw(s: State, log: Log<Data>)
  {
    Law(s.ts, Carried, Asking, BooksOf(s.m.hist), log)
  }

  /** The log is kept as the event has it. */
  lemma NoteIsAdd(m: Mem, ts: seq<Pc>, t: nat, ch: Choice, m': Mem, pc': Pc, e: Calls.Event<Data>, log: Log<Data>)
    requires t < |ts| && HaveArgs(ts, Carried, log.args) && Progresses(m, ts[t], ch, m', pc', e)
    ensures NoteStep(t, ts[t], pc', ch, log) == Add(t, e, log)
  {
    assert Carried(ts[t]).Some? ==> t in log.args && log.args[t] == Carried(ts[t]).value;
  }

  /** A stack, whose threads never allocate as a pool's do. */
  ghost predicate Stacked(s: State)
  {
    s.m.kind.Stack? && forall t :: 0 <= t < |s.ts| ==> !s.ts[t].AllocNew?
  }

  lemma StepCallLaw(s: State, t: nat, ch: Choice, log: Log<Data>)
    requires t < |s.ts| && Stacked(s) && Sound(s.m, s.ts[t]) && CallLaw(s, log)
    ensures CallLaw(Step(s, t, ch), Note(s, t, ch, log))
  {
    var s' := Step(s, t, ch);
    var e := ExecProgresses(s.m, t, s.ts[t], ch, s'.m, s'.ts[t]);
    NoteIsAdd(s.m, s.ts, t, ch, s'.m, s'.ts[t], e, log);
    StepLaw(s.ts, t, s'.ts[t], Carried, Asking, BooksOf(s.m.hist), BooksOf(s'.m.hist), e, log);
  }

  lemma StepStacked(s: State, t: nat, ch: Choice)
    requires Stacked(s) && t < |s.ts|
    ensures Stacked(Step(s, t, ch))
  {
  }

  ghost predicate Lawful(s: State, log: Log<Data>)
  {
    Inv(s) && Stacked(s) && CallLaw(s, log)
  }

  lemma RunLawful(max: int, threads: nat, sched: Schedule)
    ensures Lawful(Run(Init(Stack(max), threads), sched), LogOf(Init(Stack(max), threads), sched))
  {
    var s := Init(Stack(max), threads);
    forall x: State, log: Log<Data>, t: nat, ch: Choice | Lawful(x, log)
      ensures Lawful(MoveThread(x, t, ch), Note(x, t, ch, log))
    {
      if t < |x.ts| {
        StepInv(x, t, ch);
        StepStacked(x, t, ch);
        LocalSound(x.m, t, x.ts[t]);
        StepCallLaw(x, t, ch, log);
      }
    }
    InitInv(Stack(max), threads);
    StartLaw(s.ts, Carried, Asking, BooksOf(s.m.hist));
    Runs.LogKeeps(MoveThread, Note, Lawful, s, NoCalls(), sched);
  }

  /** In every run: the arguments of all TryPush calls are, with multiplicity, those
      answered `false`, those still carried, and the values ever pushed; all TryPop calls
      were answered `false`, are still asking, or have popped a value each. */
  lemma EveryCallCounts(max: int, threads: nat, sched: Schedule)
    ensures var s, log := Run(Init(Stack(max), threads), sched), LogOf(Init(Stack(max), threads), sched);
      && log.started == log.rejected + Gather(s.ts, Carried) + BooksOf(s.m.hist).given
      && log.asked == log.refused + Count(s.ts, Asking) + BooksOf(s.m.hist).taken
  {
    RunLawful(max, threads, sched);
  }

  /** After every run, a step that pushes puts the argument that the pushing thread's own
      call was made with on top; any other step leaves the values alone or pops one. */
  lemma PushAddsArgument(max: int, threads: nat, sched: Schedule, t: nat, ch: Choice)
    requires t < |Run(Init(Stack(max), threads), sched).ts|
    ensures var s, log := Run(Init(Stack(max), threads), sched), LogOf(Init(Stack(max), threads), sched);
      var s' := Step(s, t, ch);
      || s'.m.vals == s.m.vals
      || (t in log.args && s'.m.vals == [log.args[t]] + s.m.vals && s'.m.hist == s.m.hist + [Pushed(log.args[t])])
      || (s.m.vals != [] && s'.m.vals == s.m.vals[1..])
  {
    RunLawful(max, threads, sched);
    var s := Run(Init(Stack(max), threads), sched);
    var s' := Step(s, t, ch);
    assert Local(s.m, t, s.ts[t]);
    LocalSound(s.m, t, s.ts[t]);
    var e := ExecProgresses(s.m, t, s.ts[t], ch, s'.m, s'.ts[t]);
    assert HaveArgs(s.ts, Carried, LogOf(Init(Stack(max), threads), sched).args);
  }

  // ---------------------------------------------------------------- calls made alone

  /** With all threads idle, the counter is the length of the list, and every other node is
      outstanding. */
  lemma IdleIsSettled(s: State)
    requires Inv(s) && AllIdle(s.ts, 0)
    ensures s.m.count == |s.m.list| == |s.m.vals|
  {
    CountNone(s.ts, Undoing);
    CountNone(s.ts, Admitted);
    CountNone(s.ts, Unpublished);
  }

  lemma UnusedIsFresh(m: Mem, n: nat)
    requires Shape(m) && n !in m.next
    ensures Fresh(m, n)
  {
  }

  ghost predicate TopIs(m: Mem, n: nat, v: Data)
  {
    m.list != [] && m.vals != [] && m.list[0] == n && m.top.node == At(n) && Live(m, At(n)) && m.data[n] == v
  }

  lemma TopOfList(m: Mem)
    requires Shape(m) && m.list != []
    ensures m.vals != [] && TopIs(m, m.list[0], m.vals[0])
  {
  }

  /** An idle thread's TryPop or Alloc, alone up to its compare-and-swap. */
  lemma ReadAlone(s0: State, s: State, t: nat, n: nat, v: Data) returns (s': State)
    requires Reaches(s0, s) && t < |s.ts| && s.ts[t] == Idle && s.m.count > 0 && TopIs(s.m, n, v)
    ensures Reaches(s0, s')
    ensures s' == State(s.m.(count := s.m.count - 1), s.ts[t := PopCas(s.m.top.count, n, s.m.next[n])])
  {
    var ch := Choice(false, 0, 0, false);
    s' := Go(s0, s, t, ch);
    s' := Go(s0, s', t, ch);
    s' := Go(s0, s', t, ch);
    s' := Go(s0, s', t, ch);
    s' := Go(s0, s', t, ch);
  }

  /** Then to its end. */
  lemma PopAlone(s0: State, s: State, t: nat, n: nat, v: Data) returns (s': State)
    requires Reaches(s0, s) && t < |s.ts| && TopIs(s.m, n, v)
    requires s.ts[t] == PopCas(s.m.top.count, n, s.m.next[n])
    ensures Reaches(s0, s') && s'.ts == s.ts[t := Idle]
    ensures s'.m.list == s.m.list[1..] && s'.m.vals == s.m.vals[1..] && s'.m.out == s.m.out + multiset{n}
    ensures s'.m.kind == s.m.kind && s'.m.hist == s.m.hist + [Popped(v)]
  {
    var ch := Choice(false, 0, 0, false);
    s' := Go(s0, s, t, ch);
    s' := Go(s0, s', t, ch);
  }

  /** A call made while all threads are idle, and carried to its end, does what a bounded
      stack does: TryPush puts its argument on top, or, with the stack full, does nothing. */
  lemma PushCallAlone(s: State, t: nat, v: Data) returns (s': State)
    requires Inv(s) && AllIdle(s.ts, 0) && t < |s.ts| && s.m.kind.Stack?
    ensures Reaches(s, s') && s'.ts == s.ts && s'.m.kind == s.m.kind
    ensures s'.m.vals == if |s.m.vals| < s.m.kind.max then [v] + s.m.vals else s.m.vals
  {
    IdleIsSettled(s);
    Runs.ReachesSelf(MoveThread, s);
    var ch := Choice(true, v, 0, false);
    if s.m.count < s.m.kind.max {
      var n := Unused(s.m.next.Keys);
      UnusedIsFresh(s.m, n);
      s' := PushAlone(s, s, t, v, n);
    } else {
      s' := Go(s, s, t, ch);
    }
    s' := Go(s, s', t, ch);
    assert s'.ts == s.ts;
  }

  /** And TryPop takes the value on top and returns it, or, with the stack empty, does
      nothing; Alloc hands out the node on top, or, with the pool empty, a new one. */
  lemma PopCallAlone(s: State, t: nat) returns (s': State)
    requires Inv(s) && AllIdle(s.ts, 0) && t < |s.ts|
    ensures Reaches(s, s') && s'.ts == s.ts && s'.m.kind == s.m.kind
    ensures s.m.list != [] ==>
      && s'.m.list == s.m.list[1..] && s'.m.vals == s.m.vals[1..]
      && s'.m.hist == s.m.hist + [Popped(s.m.vals[0])] && s'.m.out == s.m.out + multiset{s.m.list[0]}
    ensures s.m.list == [] && s.m.kind.Stack? ==> s' == s
    ensures s.m.list == [] && s.m.kind.Pool? ==>
      s'.m.list == [] && exists n :: n !in s.m.next && s'.m.out == s.m.out + multiset{n}
  {
    IdleIsSettled(s);
    if s.m.list != [] {
      s' := TakeTopAlone(s, t);
    } else {
      s' := RefuseAlone(s, t);
    }
  }

  lemma TakeTopAlone(s: State, t: nat) returns (s': State)
    requires Inv(s) && t < |s.ts| && s.ts[t] == Idle && s.m.list != [] && s.m.count > 0
    ensures Reaches(s, s') && s'.ts == s.ts && s'.m.kind == s.m.kind
    ensures s'.m.list == s.m.list[1..] && s'.m.vals == s.m.vals[1..]
    ensures s'.m.hist == s.m.hist + [Popped(s.m.vals[0])] && s'.m.out == s.m.out + multiset{s.m.list[0]}
  {
    TopOfList(s.m);
    Runs.ReachesSelf(MoveThread, s);
    s' := ReadAlone(s, s, t, s.m.list[0], s.m.vals[0]);
    s' := PopAlone(s, s', t, s.m.list[0], s.m.vals[0]);
    assert s'.ts == s.ts;
  }

  lemma RefuseAlone(s: State, t: nat) returns (s': State)
    requires t < |s.ts| && s.ts[t] == Idle && s.m.count <= 0
    ensures Reaches(s, s') && s'.ts == s.ts && s'.m.kind == s.m.kind && s'.m.list == s.m.list
    ensures if s.m.kind.Stack? then s' == s else exists n :: n !in s.m.next && s'.m.out == s.m.out + multiset{n}
  {
    var n := Unused(s.m.next.Keys);
    var ch := Choice(false, 0, n, false);
    Runs.ReachesSelf(MoveThread, s);
    s' := Go(s, s, t, ch);
    s' := Go(s, s', t, ch);
    s' := Go(s, s', t, ch);
    if s.m.kind.Pool? {
      s' := Go(s, s', t, ch);
    }
    assert s'.ts == s.ts;
  }

  /** Free puts an outstanding node on the list. */
  lemma FreeCallAlone(s: State, t: nat, n: nat) returns (s': State)
    requires s.m.kind.Pool? && t < |s.ts| && s.ts[t] == Idle && s.m.out[n] > 0
    ensures Reaches(s, s') && s'.ts == s.ts && s'.m.kind == s.m.kind
    ensures s'.m.list == [n] + s.m.list && s'.m.out == s.m.out - multiset{n} && s'.m.count == s.m.count + 1
  {
    var ch := Choice(true, 0, n, false);
    Runs.ReachesSelf(MoveThread, s);
    s' := Go(s, s, t, ch);
    s' := LinkAlone(s, s', t, s'.ts[t].v, n);
    s' := Go(s, s', t, ch);
    assert s'.ts == s.ts;
  }
}
