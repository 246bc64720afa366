/** Calls of Send, and completions, on the sender of module Sender: every buffer given to
    Send is linked once, and what a call or a completion does when no other thread is at
    work. */
module SenderCalls {
  import opened Common
  import Runs
  import opened Threads
  import opened Calls
  import opened Sender

  /** A call of Send starts where an idle thread moves; the log is the argument of each
      thread's latest Send, and the arguments of all Sends. */
  function Note(s: State, t: nat, ch: Choice, log: Log<Buffer>): Log<Buffer>
  {
    if t < |s.ts| && s.ts[t].Idle? && ch.Send? then Add(t, StartGive(ch.b), log) else log
  }

  ghost function LogOf(s: State, sched: Schedule): Log<Buffer>
  {
    Runs.Log(MoveThread, Note, s, NoCalls(), sched)
  }

  /** The buffer that a Send not yet linked is carrying. */
  function Carried(pc: Pc): Option<Buffer>
  {
    if pc.SendLink? then Some(pc.b) else None
  }

  predicate Asking(pc: Pc)
  {
    false
  }

  ghost function BooksOf(m: Mem): Books<Buffer>
  {
    Books(multiset(m.enqueued), 0)
  }

  function EventOf(pc: Pc, ch: Choice): Event<Buffer>
  {
    if pc.Idle? && ch.Send? then StartGive(ch.b) else if pc.SendLink? then Give(pc.b) else Carry
  }

  /** What the step does to the calls. */
  lemma ExecProgresses(m: Mem, pc: Pc, ch: Choice, m': Mem, pc': Pc)
    requires (m', pc') == Exec(m, pc, ch) && (pc.DrainPop? ==> m.queue != [])
    ensures Effect(EventOf(pc, ch), Carried(pc), Carried(pc'), Asking(pc), Asking(pc'), BooksOf(m), BooksOf(m'))
    ensures m'.enqueued == if pc.SendLink? then m.enqueued + [pc.b] else m.enqueued
  {
  }

  ghost predicate CallLaw(s: State, log: Log<Buffer>)
  {
    Law(s.ts, Carried, Asking, BooksOf(s.m), log) && log.rejected == multiset{}
  }

  lemma StepCallLaw(s: State, t: nat, ch: Choice, log: Log<Buffer>)
    requires t < |s.ts| && CallLaw(s, log) && (s.ts[t].DrainPop? ==> s.m.queue != [])
    ensures CallLaw(Step(s, t, ch), Note(s, t, ch, log))
  {
    var s' := Step(s, t, ch);
    ExecProgresses(s.m, s.ts[t], ch, s'.m, s'.ts[t]);
    StepLaw(s.ts, t, s'.ts[t], Carried, Asking, BooksOf(s.m), BooksOf(s'.m), EventOf(s.ts[t], ch), log);
  }

  ghost predicate Lawful(s: State, log: Log<Buffer>)
  {
    Inv(s) && CallLaw(s, log)
  }

  lemma PopsSomething(s: State, t: nat)
    requires Inv(s) && t < |s.ts| && s.ts[t].DrainPop?
    ensures s.m.queue != []
  {
    CountMember(s.ts, t, Admitted);
  }

  lemma RunLawful(threads: nat, sched: Schedule)
    ensures Lawful(Run(Init(threads), sched), LogOf(Init(threads), sched))
  {
    var s := Init(threads);
    forall x: State, log: Log<Buffer>, t: nat, ch: Choice | Lawful(x, log)
      ensures Lawful(MoveThread(x, t, ch), Note(x, t, ch, log))
    {
      if t < |x.ts| {
        StepInv(x, t, ch);
        if x.ts[t].DrainPop? { PopsSomething(x, t); }
        StepCallLaw(x, t, ch, log);
      }
    }
    InitInv(threads);
    StartLaw(s.ts, Carried, Asking, BooksOf(s.m));
    Runs.LogKeeps(MoveThread, Note, Lawful, s, NoCalls(), sched);
  }

  /** In every run the buffers given to Send are, with multiplicity, those still to be
      linked and those submitted, being drained, or queued. */
  lemma EverySendCounts(threads: nat, sched: Schedule)
    ensures var s, log := Run(Init(threads), sched), LogOf(Init(threads), sched);
      && log.started == Gather(s.ts, Carried) + multiset(s.m.enqueued)
      && s.m.enqueued == Flatten(s.m.batches) + s.m.drained + s.m.queue
  {
    RunLawful(threads, sched);
    ExactlyOnceInOrder(threads, sched);
  }

  /** After every run, a step that links appends the buffer that the linking thread's own
      Send was called with. */
  lemma LinkAppendsArgument(threads: nat, sched: Schedule, t: nat, ch: Choice)
    requires t < |Run(Init(threads), sched).ts|
    ensures var s, log := Run(Init(threads), sched), LogOf(Init(threads), sched);
      var s' := Step(s, t, ch);
      s'.m.enqueued == s.m.enqueued || (t in log.args && s'.m.enqueued == s.m.enqueued + [log.args[t]])
  {
    RunLawful(threads, sched);
    var s := Run(Init(threads), sched);
    var s' := Step(s, t, ch);
    if s.ts[t].DrainPop? { PopsSomething(s, t); }
    ExecProgresses(s.m, s.ts[t], ch, s'.m, s'.ts[t]);
    assert HaveArgs(s.ts, Carried, LogOf(Init(threads), sched).args);
    assert s.ts[t].SendLink? ==> Carried(s.ts[t]) == Some(s.ts[t].b);
  }

  // ---------------------------------------------------------------- calls made alone

  ghost predicate Reaches(s: State, s': State)
  {
    Runs.Reaches(MoveThread, s, s')
  }

  lemma Go(s0: State, s: State, t: nat, ch: Choice) returns (s': State)
    requires Reaches(s0, s) && t < |s.ts|
    ensures s' == Step(s, t, ch) && Reaches(s0, s')
  {
    s' := Runs.Go(MoveThread, s0, s, t, ch);
  }

  lemma IdleIsSettled(s: State)
    requires Inv(s) && AllIdle(s.ts)
    ensures s.m.count == |s.m.queue| && s.m.inFlight <= 1 && s.m.flag == (s.m.inFlight == 1) && s.m.drained == []
    ensures s.m.inFlight == 0 ==> s.m.queue == [] && s.m.pending == []
  {
    CountNone(s.ts, Owner);
    CountNone(s.ts, Undoing);
    CountNone(s.ts, Admitted);
    CountNone(s.ts, Unpublished);
    CountNone(s.ts, Waking);
  }

  /** The memory after `k` buffers have been drained. */
  function Drained(m: Mem, k: nat): Mem
    requires k <= |m.queue|
  {
    m.(count := m.count - k, queue := m.queue[k..], pending := m.pending + m.queue[..k],
       drained := m.drained + m.queue[..k])
  }

  function Least(a: nat, b: nat): nat { if a < b then a else b }

  lemma DrainOne(m: Mem, k: nat)
    requires 1 <= k <= |m.queue|
    ensures Drained(Drained(m, 1), k - 1) == Drained(m, k)
    ensures [m.queue[0]] + m.queue[1..][..k - 1] == m.queue[..k]
  {
    assert m.queue[..1] + m.queue[1..][..k - 1] == m.queue[..k];
    assert m.queue[1..][k - 1..] == m.queue[k..];
  }

  lemma PopAlone(s0: State, s: State, t: nat, batch: seq<Buffer>) returns (s': State)
    requires Reaches(s0, s) && t < |s.ts| && s.ts[t] == DrainGate(batch)
    requires s.m.count > 0 && s.m.queue != []
    ensures Reaches(s0, s') && s' == State(Drained(s.m, 1), s.ts[t := Drain(batch + [s.m.queue[0]])])
  {
    s' := Go(s0, s, t, Register);
    s' := Go(s0, s', t, Register);
    assert s.m.queue[..1] == [s.m.queue[0]];
  }

  /** The loop of Register, alone: it drains the queue, up to a full batch. */
  lemma {:induction false} DrainAlone(s0: State, s: State, t: nat, batch: seq<Buffer>) returns (s': State)
    requires Reaches(s0, s) && t < |s.ts| && s.ts[t] == DrainGate(batch) && |batch| < MAX_SEND_WSABUF_SIZE
    requires s.m.count == |s.m.queue|
    ensures var k := Least(MAX_SEND_WSABUF_SIZE - |batch|, |s.m.queue|);
      var full := batch + s.m.queue[..k];
      Reaches(s0, s') && s' == State(Drained(s.m, k), s.ts[t := if full == [] then DropFlag else Submit(full)])
    decreases |s.m.queue|
  {
    if s.m.queue == [] {
      s' := Go(s0, s, t, Register);
      s' := Go(s0, s', t, Register);
      assert s.m.queue[..0] == [] && batch + [] == batch;
      assert s.m.pending + [] == s.m.pending && s.m.drained + [] == s.m.drained;
      assert s'.m == Drained(s.m, 0);
    } else {
      var b := s.m.queue[0];
      s' := PopAlone(s0, s, t, batch);
      var k := Least(MAX_SEND_WSABUF_SIZE - |batch|, |s.m.queue|);
      DrainOne(s.m, k);
      assert (batch + [b]) + s.m.queue[1..][..k - 1] == batch + s.m.queue[..k] != [];
      assert s.m.queue[..1] == [b];
      if |batch| + 1 < MAX_SEND_WSABUF_SIZE {
        s' := DrainAlone(s0, s', t, batch + [b]);
      }
    }
  }

  /** Register alone, by the thread that gets the flag: everything queued, up to a full
      batch, is submitted in order; with nothing queued the flag is down again. */
  lemma RegisterAlone(s0: State, s: State, t: nat) returns (s': State)
    requires Reaches(s0, s) && t < |s.ts| && s.ts[t] == Exchange && !s.m.flag
    requires s.m.count == |s.m.queue| && s.m.drained == s.m.pending == []
    ensures Reaches(s0, s') && s'.ts == s.ts[t := Idle] && s'.m.enqueued == s.m.enqueued
    ensures var k := Least(MAX_SEND_WSABUF_SIZE, |s.m.queue|);
      && s'.m.queue == s.m.queue[k..] && s'.m.pending == s.m.queue[..k]
      && if k == 0 then s'.m.batches == s.m.batches && s'.m.inFlight == s.m.inFlight && !s'.m.flag
         else s'.m.batches == s.m.batches + [s.m.queue[..k]] && s'.m.inFlight == s.m.inFlight + 1 && s'.m.flag
  {
    s' := Go(s0, s, t, Register);
    s' := DrainAlone(s0, s', t, []);
    var k := Least(MAX_SEND_WSABUF_SIZE, |s.m.queue|);
    assert [] + s.m.queue[..k] == s.m.queue[..k];
    if k == 0 {
      s' := DropAlone(s0, s', t);
    } else {
      s' := Go(s0, s', t, Register);
    }
  }

  lemma DropAlone(s0: State, s: State, t: nat) returns (s': State)
    requires Reaches(s0, s) && t < |s.ts| && s.ts[t] == DropFlag && s.m.count == 0
    ensures Reaches(s0, s') && s' == State(s.m.(flag := false), s.ts[t := Idle])
  {
    s' := Go(s0, s, t, Register);
    s' := Go(s0, s', t, Register);
  }

  /** A Send made while all threads are idle, and carried to its end: with a batch in flight
      its buffer is queued; with none, it is submitted at once, as a batch of its own. */
  lemma SendCallAlone(s: State, t: nat, b: Buffer) returns (s': State)
    requires Inv(s) && AllIdle(s.ts) && t < |s.ts|
    ensures Reaches(s, s') && s'.ts == s.ts && s'.m.enqueued == s.m.enqueued + [b] && s'.m.inFlight == 1
    ensures if s.m.inFlight == 1
      then s'.m.queue == s.m.queue + [b] && s'.m.batches == s.m.batches && s'.m.pending == s.m.pending
      else s'.m.queue == [] && s'.m.batches == s.m.batches + [[b]] && s'.m.pending == [b]
  {
    IdleIsSettled(s);
    s' := SendAlone(s, t, b);
  }

  lemma SendAlone(s: State, t: nat, b: Buffer) returns (s': State)
    requires t < |s.ts| && s.ts[t] == Idle && s.m.count == |s.m.queue| && s.m.drained == []
    requires s.m.inFlight <= 1 && s.m.flag == (s.m.inFlight == 1)
    requires s.m.inFlight == 0 ==> s.m.queue == [] && s.m.pending == []
    ensures Reaches(s, s') && s'.ts == s.ts && s'.m.enqueued == s.m.enqueued + [b] && s'.m.inFlight == 1
    ensures if s.m.inFlight == 1
      then s'.m.queue == s.m.queue + [b] && s'.m.batches == s.m.batches && s'.m.pending == s.m.pending
      else s'.m.queue == [] && s'.m.batches == s.m.batches + [[b]] && s'.m.pending == [b]
  {
    Runs.ReachesSelf(MoveThread, s);
    s' := Go(s, s, t, Send(b));
    s' := Go(s, s', t, Register);
    s' := Go(s, s', t, Register);
    if s.m.inFlight == 1 {
      s' := Go(s, s', t, Register);
    } else {
      assert s'.m.queue == [b] && [b][..1] == [b];
      s' := RegisterAlone(s, s', t);
    }
    assert s'.ts == s.ts;
  }

  /** A completion handled while all threads are idle: the next batch is all that is queued,
      up to 64 buffers, in order; with nothing queued the sender is at rest. */
  lemma CompletionAlone(s: State, t: nat) returns (s': State)
    requires Inv(s) && AllIdle(s.ts) && t < |s.ts| && s.m.inFlight == 1
    ensures Reaches(s, s') && s'.ts == s.ts && s'.m.enqueued == s.m.enqueued
    ensures var k := Least(MAX_SEND_WSABUF_SIZE, |s.m.queue|);
      && s'.m.queue == s.m.queue[k..] && s'.m.pending == s.m.queue[..k]
      && if k == 0 then s'.m.batches == s.m.batches && s'.m.inFlight == 0 && !s'.m.flag
         else s'.m.batches == s.m.batches + [s.m.queue[..k]] && s'.m.inFlight == 1
  {
    IdleIsSettled(s);
    s' := CompleteAlone(s, t);
  }

  lemma CompleteAlone(s: State, t: nat) returns (s': State)
    requires t < |s.ts| && s.ts[t] == Idle && s.m.count == |s.m.queue| && s.m.drained == [] && s.m.inFlight == 1
    ensures Reaches(s, s') && s'.ts == s.ts && s'.m.enqueued == s.m.enqueued
    ensures var k := Least(MAX_SEND_WSABUF_SIZE, |s.m.queue|);
      && s'.m.queue == s.m.queue[k..] && s'.m.pending == s.m.queue[..k]
      && if k == 0 then s'.m.batches == s.m.batches && s'.m.inFlight == 0 && !s'.m.flag
         else s'.m.batches == s.m.batches + [s.m.queue[..k]] && s'.m.inFlight == 1
  {
    Runs.ReachesSelf(MoveThread, s);
    s' := Go(s, s, t, Complete);
    s' := Go(s, s', t, Register);
    s' := Go(s, s', t, Register);
    s' := Go(s, s', t, Register);
    if s.m.queue != [] {
      s' := RegisterAlone(s, s', t);
    }
    assert s'.ts == s.ts;
  }
}
