/** The count-gated Michael-Scott queue of CppNetEngine/LockFreeQueue.h as a step
    machine: every shared read, compare-and-swap and fetch_add is one step, and any
    number of threads interleave in any order.

    Memory is sequentially consistent and counters are unbounded.  A node taken from
    the allocator is fresh (no node is reused while a thread may still hold a pointer
    to it), and the compare-and-swap of `moveTail` fails only when the tail changed;
    every other compare-and-swap may also fail spuriously. */
module LockFreeQueue {
  import opened Common
  import Runs
  import opened Threads

  /** A node in preparation and the value `TryEnqueue` was called with. */
  datatype Cell = Cell(n: nat, v: Data)

  /** Where `moveTail` returns to: the retry of an enqueue, the enqueue that linked
      chain position `i`, or the `continue` of a dequeue. */
  datatype Cont =
    | Retry(cell: Cell)
    | Linked(i: int)
    | Continue(e: Node16, d: Node16, out: Data)

  datatype Pc =
    | Idle
    // TryEnqueue
    | EnqCheck(v: Data)
    | EnqAlloc(v: Data)
    | EnqReadTail(cell: Cell)
    | EnqReadNext(cell: Cell, a: Ptr)
    | EnqReadTailAgain(cell: Cell, x: Ptr)
    | EnqCas(cell: Cell, b: Ptr)
    | EnqInc(i: int)
    // moveTail
    | MoveCount(k: Cont)
    | MoveNode(k: Cont, c: int)
    | MoveNext(k: Cont, c: int, a: Ptr)
    | MoveCas(k: Cont, c: int, a: Ptr, x: Ptr)
    // TryDequeue
    | DeqGate(out: Data)
    | DeqUndo
    | DeqTest(e: Node16, d: Node16, out: Data)
    | DeqTestTail(e: Node16, d: Node16, out: Data, h: Ptr)
    | DeqTestHead(e: Node16, d: Node16, out: Data, l: Ptr)
    | DeqCount(d: Node16, out: Data)
    | DeqNode(c: int, d: Node16, out: Data)
    | DeqNext(c: int, p: nat, out: Data)
    | DeqData(e: Node16, d: Node16)
    | DeqCas(e: Node16, d: Node16, out: Data)

  /** What the environment decides at a step: which call an idle thread makes, which
      fresh node the allocator returns, which operand of `mHead.pNode == mTail.pNode`
      is read first, and whether a weak compare-and-swap fails spuriously. */
  datatype Choice = Choice(enqueue: bool, v: Data, newNode: nat, headFirst: bool, spurious: bool)

  /** The queue's fields and the node heap, then the history the theorems speak of:
      `chain` lists the nodes ever linked (the dummy first), `pos` inverts it, `owner`
      says which thread prepares an unlinked node, `linker` who linked last, and
      `enq`/`deq` the values linked and the values handed out, in order.  `fault` is
      set when a null pointer is followed. */
  datatype Mem = Mem(
    max: int, count: int, head: Node16, tail: Node16,
    next: map<nat, Ptr>, data: map<nat, Data>, fault: bool,
    chain: seq<nat>, pos: map<nat, nat>, owner: map<nat, nat>, linker: nat,
    enq: seq<Data>, deq: seq<Data>)
  {
    ghost function Last(): int { |chain| - 1 }
  }

  datatype State = State(m: Mem, ts: seq<Pc>)

  // ---------------------------------------------------------------- the machine

  function Init(max: int, threads: nat): State
  {
    State(
      Mem(max, 0, Node16(At(0), 0), Node16(At(0), 0), map[0 := Null], map[0 := 0], false,
          [0], map[0 := 0], map[], 0, [], []),
      seq(threads, _ => Idle))
  }

  function Resume(k: Cont): Pc
  {
    match k
    case Retry(cell) => EnqReadTail(cell)
    case Linked(i) => EnqInc(i)
    case Continue(e, d, out) => DeqCas(e, d, out)
  }

  /** `p->pNextNode`, when `p` may be followed. */
  predicate Live(m: Mem, p: Ptr)
  {
    p.At? && p.n in m.next && p.n in m.data
  }

  /** A fresh node, filled in before any other thread can see it. */
  function Alloc(m: Mem, t: nat, n: nat, v: Data): Mem
  {
    m.(next := m.next[n := Null], data := m.data[n := v], owner := m.owner[n := t])
  }

  /** The successful compare-and-swap on the last node's next pointer. */
  function Link(m: Mem, t: nat, cell: Cell, b: nat): Mem
  {
    m.(next := m.next[b := At(cell.n)], chain := m.chain + [cell.n], pos := m.pos[cell.n := |m.chain|],
       owner := m.owner - {cell.n}, linker := t, enq := m.enq + [cell.v])
  }

  function ExecEnqueue(m: Mem, t: nat, pc: Pc, ch: Choice): (Mem, Pc)
    requires pc.EnqCheck? || pc.EnqAlloc? || pc.EnqReadTail? || pc.EnqReadNext? || pc.EnqReadTailAgain? || pc.EnqCas?
          || pc.EnqInc?
  {
    match pc
    case EnqCheck(v) => (m, if m.max <= m.count then Idle else EnqAlloc(v))
    case EnqAlloc(v) =>
      if ch.newNode in m.next then (m, pc)
      else
        (Alloc(m, t, ch.newNode, v), EnqReadTail(Cell(ch.newNode, v)))
    case EnqReadTail(cell) => (m, EnqReadNext(cell, m.tail.node))
    case EnqReadNext(cell, a) =>
      if Live(m, a) then (m, EnqReadTailAgain(cell, m.next[a.n])) else (m.(fault := true), Idle)
    case EnqReadTailAgain(cell, x) =>
      (m, if x == Null then EnqCas(cell, m.tail.node) else MoveCount(Retry(cell)))
    case EnqCas(cell, b) =>
      if !Live(m, b) then (m.(fault := true), Idle)
      else if m.next[b.n] == Null && !ch.spurious then
        (Link(m, t, cell, b.n), MoveCount(Linked(|m.chain|)))
      else (m, MoveCount(Retry(cell)))
    case EnqInc(_) => (m.(count := m.count + 1), Idle)
  }

  /** The double-word compare-and-swap on the tail. */
  function Advance(m: Mem, c: int, a: Ptr, x: Ptr): Mem
  {
    m.(tail := if m.tail == Node16(a, c) then Node16(x, c + 1) else m.tail)
  }

  function ExecMoveTail(m: Mem, pc: Pc): (Mem, Pc)
    requires pc.MoveCount? || pc.MoveNode? || pc.MoveNext? || pc.MoveCas?
  {
    match pc
    case MoveCount(k) => (m, MoveNode(k, m.tail.count))
    case MoveNode(k, c) => (m, MoveNext(k, c, m.tail.node))
    case MoveNext(k, c, a) =>
      if !Live(m, a) then (m.(fault := true), Idle)
      else (m, if m.next[a.n] == Null then Resume(k) else MoveCas(k, c, a, m.next[a.n]))
    case MoveCas(k, c, a, x) =>
      (Advance(m, c, a, x), Resume(k))
  }

  function ExecDequeue(m: Mem, pc: Pc, ch: Choice): (Mem, Pc)
    requires pc.DeqGate? || pc.DeqUndo? || pc.DeqTest? || pc.DeqTestTail? || pc.DeqTestHead? || pc.DeqCount?
          || pc.DeqNode? || pc.DeqNext? || pc.DeqData? || pc.DeqCas?
  {
    match pc
    case DeqGate(out) =>
      (m.(count := m.count - 1),
       if m.count <= 0 then DeqUndo else DeqTest(Node16(Null, 0), Node16(Null, 0), out))
    case DeqUndo => (m.(count := m.count + 1), Idle)
    case DeqTest(e, d, out) =>
      (m, if ch.headFirst then DeqTestTail(e, d, out, m.head.node) else DeqTestHead(e, d, out, m.tail.node))
    case DeqTestTail(e, d, out, h) =>
      (m, if h == m.tail.node then MoveCount(Continue(e, d, out)) else DeqCount(d, out))
    case DeqTestHead(e, d, out, l) =>
      (m, if m.head.node == l then MoveCount(Continue(e, d, out)) else DeqCount(d, out))
    case DeqCount(d, out) => (m, DeqNode(m.head.count, d, out))
    case DeqNode(c, d, out) =>
      (m, if m.head.node == Null then DeqCas(Node16(Null, c), d, out) else DeqNext(c, m.head.node.n, out))
    case DeqNext(c, p, out) =>
      if !Live(m, At(p)) then (m.(fault := true), Idle)
      else
        var e, d := Node16(At(p), c), Node16(m.next[p], c + 1);
        (m, if m.next[p] == Null then DeqCas(e, d, out) else DeqData(e, d))
    case DeqData(e, d) =>
      if !Live(m, d.node) then (m.(fault := true), Idle)
      else (m, DeqCas(e, d, m.data[d.node.n]))
    case DeqCas(e, d, out) =>
      if m.head == e && !ch.spurious then (m.(head := d, deq := m.deq + [out]), Idle)
      else (m, DeqTest(m.head, d, out))  // a failed compare-and-swap loads the current head
  }

  /** One step of thread `t`, whose program counter is `pc`. */
  function Exec(m: Mem, t: nat, pc: Pc, ch: Choice): (Mem, Pc)
  {
    if pc.Idle? then (m, if ch.enqueue then EnqCheck(ch.v) else DeqGate(ch.v))
    else if pc.MoveCount? || pc.MoveNode? || pc.MoveNext? || pc.MoveCas? then ExecMoveTail(m, pc)
    else if pc.EnqCheck? || pc.EnqAlloc? || pc.EnqReadTail? || pc.EnqReadNext? || pc.EnqReadTailAgain? || pc.EnqCas?
         || pc.EnqInc?
    then ExecEnqueue(m, t, pc, ch)
    else ExecDequeue(m, pc, ch)
  }

  function Step(s: State, t: nat, ch: Choice): (s': State)
    requires t < |s.ts|
    ensures |s'.ts| == |s.ts|
  {
    var (m', pc') := Exec(s.m, t, s.ts[t], ch);
    State(m', s.ts[t := pc'])
  }

  /** A schedule names the thread that moves at each step and the choices it meets. */
  type Schedule = seq<(nat, Choice)>

  /** A thread that does not exist does not move. */
  function MoveThread(s: State, t: nat, ch: Choice): (s': State)
    ensures |s'.ts| == |s.ts|
  {
    if t < |s.ts| then Step(s, t, ch) else s
  }

  ghost function Run(s: State, sched: Schedule): (s': State)
  {
    Runs.Run(MoveThread, s, sched)
  }

  // ------------------------------------------------------------ the memory shape

  ghost predicate Known(m: Mem, p: Ptr, bound: int)
  {
    p.At? && p.n in m.pos && m.pos[p.n] <= bound
  }

  /** The chain is duplicate-free. */
  ghost predicate ChainOk(chain: seq<nat>, pos: map<nat, nat>)
  {
    && |chain| >= 1
    && (forall i :: 0 <= i < |chain| ==> chain[i] in pos && pos[chain[i]] == i)
    && (forall n :: n in pos ==> pos[n] < |chain| && chain[pos[n]] == n)
  }

  /** Each linked node points to its successor and the last one to null. */
  ghost predicate LinksOk(chain: seq<nat>, pos: map<nat, nat>, next: map<nat, Ptr>)
    requires ChainOk(chain, pos)
  {
    && pos.Keys <= next.Keys
    && (forall n {:trigger next[n]} :: n in pos ==>
          next[n] == (if pos[n] == |chain| - 1 then Null else At(chain[pos[n] + 1])))
  }

  /** A node in preparation is not linked. */
  ghost predicate OwnersOk(owner: map<nat, nat>, pos: map<nat, nat>, next: map<nat, Ptr>)
  {
    forall n :: n in owner ==> n !in pos && n in next && next[n] == Null
  }

  /** The values linked so far are the values of the linked nodes, in order. */
  ghost predicate ValuesOk(chain: seq<nat>, data: map<nat, Data>, enq: seq<Data>)
  {
    && |enq| == |chain| - 1
    && (forall j {:trigger chain[j]} :: 0 < j < |chain| ==> chain[j] in data && enq[j - 1] == data[chain[j]])
  }

  /** Head and tail stand on the chain, their counts are their positions, the head
      does not overtake the tail and the tail lags the last node by at most one. */
  ghost predicate EndsOk(chain: seq<nat>, head: Node16, tail: Node16)
  {
    && 0 <= head.count <= tail.count <= |chain| - 1 <= tail.count + 1
    && head.node == At(chain[head.count])
    && tail.node == At(chain[tail.count])
  }

  ghost predicate Shape(m: Mem)
  {
    && !m.fault
    && ChainOk(m.chain, m.pos)
    && LinksOk(m.chain, m.pos, m.next)
    && m.next.Keys == m.data.Keys
    && OwnersOk(m.owner, m.pos, m.next)
    && ValuesOk(m.chain, m.data, m.enq)
    && EndsOk(m.chain, m.head, m.tail)
    && m.deq == m.enq[..m.head.count]
  }

  // ------------------------------------------------- what each thread may rely on

  ghost predicate Mine(m: Mem, t: nat, cell: Cell)
  {
    && cell.n in m.owner && m.owner[cell.n] == t
    && cell.n in m.data && m.data[cell.n] == cell.v
  }

  /** `e` can no longer be the head: the head has moved on since `e` was read. */
  ghost predicate Stale(m: Mem, e: Node16)
  {
    e.node.At? ==> e.count < m.head.count
  }

  /** `d` is the true successor of `e`'s node. */
  ghost predicate Successor(m: Mem, e: Node16, d: Node16)
  {
    && Known(m, e.node, m.head.count)
    && e.count <= m.pos[e.node.n] < m.Last() <= |m.enq|
    && d == Node16(At(m.chain[m.pos[e.node.n] + 1]), e.count + 1)
  }

  /** `c` is a lower bound of the tail's position, known to the thread in `moveTail`. */
  ghost predicate ContInv(m: Mem, t: nat, k: Cont, c: int)
  {
    match k
    case Retry(cell) => Mine(m, t, cell)
    case Linked(i) => 1 <= i <= m.Last() && i - 1 <= c
    case Continue(e, d, out) => Stale(m, e)
  }

  ghost predicate Local(m: Mem, t: nat, pc: Pc)
  {
    match pc
    case Idle => true
    case EnqCheck(_) => true
    case EnqAlloc(_) => true
    case EnqReadTail(cell) => Mine(m, t, cell)
    case EnqReadNext(cell, a) => Mine(m, t, cell) && Known(m, a, m.tail.count)
    case EnqReadTailAgain(cell, x) => Mine(m, t, cell)
    case EnqCas(cell, b) => Mine(m, t, cell) && Known(m, b, m.tail.count)
    case EnqInc(i) => 1 <= i <= m.tail.count
    case MoveCount(k) => ContInv(m, t, k, m.tail.count)
    case MoveNode(k, c) => ContInv(m, t, k, c) && c <= m.tail.count
    case MoveNext(k, c, a) => ContInv(m, t, k, c) && Known(m, a, m.tail.count) && c <= m.pos[a.n]
    case MoveCas(k, c, a, x) =>
      && ContInv(m, t, k, c) && Known(m, a, m.tail.count)
      && c <= m.pos[a.n] < m.Last() && x == At(m.chain[m.pos[a.n] + 1])
    case DeqGate(_) => true
    case DeqUndo => true
    case DeqTest(e, d, out) => e.node.At? ==> e.count <= m.head.count
    case DeqTestTail(e, d, out, h) => (e.node.At? ==> e.count <= m.head.count) && Known(m, h, m.head.count)
    case DeqTestHead(e, d, out, l) => Known(m, l, m.tail.count) && (e.node.At? ==> e.count < m.pos[l.n])
    case DeqCount(d, out) => true
    case DeqNode(c, d, out) => c <= m.head.count
    case DeqNext(c, p, out) => Known(m, At(p), m.head.count) && c <= m.pos[p]
    case DeqData(e, d) => Successor(m, e, d)
    case DeqCas(e, d, out) =>
      Stale(m, e) || (Successor(m, e, d) && out == m.enq[m.pos[e.node.n]])
  }

  // -------------------------------------------------------------- the gate counts

  /** A failed decrement of `mCount` not yet undone. */
  predicate Undoing(pc: Pc) { pc.DeqUndo? }

  predicate Moving(pc: Pc) { pc.MoveCount? || pc.MoveNode? || pc.MoveNext? || pc.MoveCas? }

  /** A dequeuer that the gate let through and that has not popped yet. */
  predicate Admitted(pc: Pc)
  {
    || pc.DeqTest? || pc.DeqTestTail? || pc.DeqTestHead? || pc.DeqCount? || pc.DeqNode?
    || pc.DeqNext? || pc.DeqData? || pc.DeqCas?
    || (Moving(pc) && pc.k.Continue?)
  }

  /** An enqueuer that linked its node and has not raised `mCount` yet. */
  predicate Unpublished(pc: Pc)
  {
    pc.EnqInc? || (Moving(pc) && pc.k.Linked?)
  }

  /** An enqueuer that passed the capacity test and has not raised `mCount` yet. */
  predicate Passed(pc: Pc)
  {
    || pc.EnqAlloc? || pc.EnqReadTail? || pc.EnqReadNext? || pc.EnqReadTailAgain? || pc.EnqCas? || pc.EnqInc?
    || (Moving(pc) && !pc.k.Continue?)
  }

  /** The enqueuer that linked the last node is still inside its `moveTail`. */
  ghost predicate Lagging(m: Mem, ts: seq<Pc>)
  {
    m.linker < |ts| && Moving(ts[m.linker]) && ts[m.linker].k == Linked(m.Last())
  }

  ghost predicate Gate(m: Mem, ts: seq<Pc>)
  {
    && m.count + Count(ts, Undoing) >= 0
    && m.count + Count(ts, Undoing) + Count(ts, Admitted) + Count(ts, Unpublished) == m.Last() - m.head.count
  }

  ghost predicate Inv(s: State)
  {
    && Shape(s.m)
    && (forall t :: 0 <= t < |s.ts| ==> Local(s.m, t, s.ts[t]))
    && Gate(s.m, s.ts)
    && (s.m.Last() == s.m.tail.count + 1 ==> Lagging(s.m, s.ts))
  }

  /** The gate: the dequeuers it let through never outnumber the nodes between head
      and tail, so head and tail differ whenever one of them is at work. */
  lemma ReservedWithinReach(s: State)
    requires Inv(s)
    ensures Count(s.ts, Admitted) <= s.m.tail.count - s.m.head.count
  {
    if s.m.Last() == s.m.tail.count + 1 {
      CountMember(s.ts, s.m.linker, Unpublished);
    }
  }

  // ------------------------------------------------------ one step keeps the invariant

  /** What a step of thread `t` leaves intact for the other threads. */
  ghost predicate Grows(m: Mem, m': Mem, t: nat)
  {
    && m.head.count <= m'.head.count && m.tail.count <= m'.tail.count
    && m.chain <= m'.chain && m.enq <= m'.enq && |m'.enq| == m'.Last()
    && (forall n :: n in m.pos ==> n in m'.pos && m'.pos[n] == m.pos[n])
    && (forall n :: n in m.data ==> n in m'.data && m'.data[n] == m.data[n])
    && (forall n :: n in m.owner && m.owner[n] != t ==> n in m'.owner && m'.owner[n] == m.owner[n])
  }

  lemma GrowsSame(m: Mem, t: nat)
    requires Shape(m)
    ensures Grows(m, m, t)
  {
  }

  lemma LocalStable(m: Mem, m': Mem, t: nat, u: nat, pc: Pc)
    requires Grows(m, m', t) && u != t
    requires Local(m, u, pc)
    ensures Local(m', u, pc)
  {
  }

  lemma LinkPositions(chain: seq<nat>, pos: map<nat, nat>, n: nat)
    requires ChainOk(chain, pos) && n !in pos
    ensures ChainOk(chain + [n], pos[n := |chain|])
  {
  }

  /** Linking a prepared node behind the last one keeps the chain. */
  lemma LinkChain(chain: seq<nat>, pos: map<nat, nat>, next: map<nat, Ptr>, n: nat, b: nat)
    requires ChainOk(chain, pos) && LinksOk(chain, pos, next)
    requires n !in pos && n in next && next[n] == Null
    requires b in pos && next[b] == Null
    ensures pos[b] == |chain| - 1
    ensures ChainOk(chain + [n], pos[n := |chain|])
    ensures LinksOk(chain + [n], pos[n := |chain|], next[b := At(n)])
  {
    LinkPositions(chain, pos, n);
    var chain', pos', next' := chain + [n], pos[n := |chain|], next[b := At(n)];
    forall x {:trigger next'[x]} | x in pos'
      ensures x in next' && next'[x] == (if pos'[x] == |chain| then Null else At(chain'[pos'[x] + 1]))
    {
      if x != n && x != b {
        LinkOther(chain, pos, next, x, b);
      }
    }
  }

  /** A linked node that does not point to null is not the last one. */
  lemma LinkOther(chain: seq<nat>, pos: map<nat, nat>, next: map<nat, Ptr>, x: nat, b: nat)
    requires ChainOk(chain, pos) && LinksOk(chain, pos, next)
    requires x in pos && b in pos && x != b && next[b] == Null
    ensures pos[x] < |chain| - 1 && x in next && next[x] == At(chain[pos[x] + 1])
  {
    assert pos[b] == |chain| - 1;
    assert chain[pos[x]] == x && chain[pos[b]] == b;
  }

  lemma AllocShape(m: Mem, t: nat, n: nat, v: Data)
    requires Shape(m) && n !in m.next
    ensures var m' := Alloc(m, t, n, v); Shape(m') && Grows(m, m', t)
  {
    var m' := Alloc(m, t, n, v);
    assert n !in m.pos;
    assert LinksOk(m'.chain, m'.pos, m'.next);
    assert OwnersOk(m'.owner, m'.pos, m'.next);
    assert ValuesOk(m'.chain, m'.data, m'.enq);
  }

  lemma AllocLocal(m: Mem, t: nat, pc: Pc, ch: Choice)
    requires Shape(m) && pc.EnqAlloc?
    ensures var (m', pc') := ExecEnqueue(m, t, pc, ch); Shape(m') && Grows(m, m', t) && Local(m', t, pc')
  {
    GrowsSame(m, t);
    if ch.newNode !in m.next {
      AllocShape(m, t, ch.newNode, pc.v);
    }
  }

  lemma EnqueueLocal(m: Mem, t: nat, pc: Pc, ch: Choice)
    requires Shape(m) && Local(m, t, pc)
    requires pc.EnqCheck? || pc.EnqReadTail? || pc.EnqReadNext? || pc.EnqReadTailAgain? || pc.EnqInc?
    ensures var (m', pc') := ExecEnqueue(m, t, pc, ch); Shape(m') && Grows(m, m', t) && Local(m', t, pc')
  {
  }

  /** `moveTail` may return once the tail has passed the position it set out to pass. */
  lemma ResumeLocal(m: Mem, t: nat, k: Cont, c: int)
    requires ContInv(m, t, k, c)
    requires k.Linked? ==> k.i <= m.tail.count
    ensures Local(m, t, Resume(k))
  {
  }

  lemma LinkOwners(owner: map<nat, nat>, pos: map<nat, nat>, next: map<nat, Ptr>, n: nat, b: nat, i: nat)
    requires OwnersOk(owner, pos, next) && b in pos
    ensures OwnersOk(owner - {n}, pos[n := i], next[b := At(n)])
  {
  }

  lemma LinkValues(chain: seq<nat>, data: map<nat, Data>, enq: seq<Data>, n: nat)
    requires ValuesOk(chain, data, enq) && n in data && |chain| >= 1
    ensures ValuesOk(chain + [n], data, enq + [data[n]])
  {
  }

  lemma LinkShape(m: Mem, t: nat, cell: Cell, b: nat)
    requires Shape(m) && Mine(m, t, cell) && Known(m, At(b), m.tail.count) && m.next[b] == Null
    ensures var m' := Link(m, t, cell, b); Shape(m') && m'.tail.count == m'.Last() - 1
  {
    LinkChain(m.chain, m.pos, m.next, cell.n, b);
    LinkOwners(m.owner, m.pos, m.next, cell.n, b, |m.chain|);
    LinkValues(m.chain, m.data, m.enq, cell.n);
  }

  lemma LinkGrows(m: Mem, t: nat, cell: Cell, b: nat)
    requires Mine(m, t, cell) && cell.n !in m.pos && |m.enq| == m.Last()
    ensures Grows(m, Link(m, t, cell, b), t)
  {
  }

  lemma EnqCasLocal(m: Mem, t: nat, pc: Pc, ch: Choice)
    requires Shape(m) && Local(m, t, pc) && pc.EnqCas?
    ensures var (m', pc') := ExecEnqueue(m, t, pc, ch); Shape(m') && Grows(m, m', t) && Local(m', t, pc')
  {
    if m.next[pc.b.n] == Null && !ch.spurious {
      LinkShape(m, t, pc.cell, pc.b.n);
      LinkGrows(m, t, pc.cell, pc.b.n);
    }
  }

  lemma MoveTailLocal(m: Mem, t: nat, pc: Pc)
    requires Shape(m) && Local(m, t, pc)
    requires pc.MoveCount? || pc.MoveNode?
    ensures var (m', pc') := ExecMoveTail(m, pc); m' == m && Local(m, t, pc')
  {
  }

  lemma MoveNextLocal(m: Mem, t: nat, k: Cont, c: int, a: nat)
    requires Shape(m) && Local(m, t, MoveNext(k, c, At(a)))
    ensures a in m.next
    ensures m.next[a] == Null ==> Local(m, t, Resume(k))
    ensures m.next[a] != Null ==> Local(m, t, MoveCas(k, c, At(a), m.next[a]))
  {
    assert m.next[a] == (if m.pos[a] == |m.chain| - 1 then Null else At(m.chain[m.pos[a] + 1]));
    if m.next[a] == Null {
      ResumeLocal(m, t, k, c);
    }
  }

  lemma ContStable(m: Mem, m': Mem, t: nat, k: Cont, c: int)
    requires m'.owner == m.owner && m'.data == m.data && m'.chain == m.chain && m'.head == m.head
    requires ContInv(m, t, k, c)
    ensures ContInv(m', t, k, c)
  {
  }

  /** Winning or losing, the compare-and-swap leaves the tail on the chain past `c`. */
  lemma AdvanceEnds(chain: seq<nat>, pos: map<nat, nat>, head: Node16, tail: Node16, c: int, a: nat, x: Ptr)
    requires ChainOk(chain, pos) && EndsOk(chain, head, tail)
    requires a in pos && c <= pos[a] <= tail.count && pos[a] < |chain| - 1 && x == At(chain[pos[a] + 1])
    ensures var tail' := if tail == Node16(At(a), c) then Node16(x, c + 1) else tail;
      EndsOk(chain, head, tail') && tail.count <= tail'.count && c < tail'.count
  {
    assert chain[pos[a]] == a;
  }

  lemma TailShape(m: Mem, t: nat, tail: Node16)
    requires Shape(m) && EndsOk(m.chain, m.head, tail) && m.tail.count <= tail.count
    ensures var m' := m.(tail := tail); Shape(m') && Grows(m, m', t)
  {
  }

  /** After that compare-and-swap, won or lost, the tail has passed position `c`. */
  lemma AdvanceShape(m: Mem, t: nat, c: int, a: nat, x: Ptr, m': Mem)
    requires Shape(m) && Known(m, At(a), m.tail.count) && c <= m.pos[a] < m.Last() && x == At(m.chain[m.pos[a] + 1])
    requires m' == Advance(m, c, At(a), x)
    ensures Shape(m') && Grows(m, m', t) && m'.tail.count > c
  {
    AdvanceEnds(m.chain, m.pos, m.head, m.tail, c, a, x);
    TailShape(m, t, m'.tail);
  }

  lemma AdvanceResumes(m: Mem, t: nat, k: Cont, c: int, m': Mem)
    requires ContInv(m, t, k, c) && m' == m.(tail := m'.tail) && m'.tail.count > c
    ensures Local(m', t, Resume(k))
  {
    ContStable(m, m', t, k, c);
    ResumeLocal(m', t, k, c);
  }

  lemma AdvanceLocal(m: Mem, t: nat, k: Cont, c: int, a: nat, x: Ptr, m': Mem)
    requires Shape(m) && Known(m, At(a), m.tail.count) && c <= m.pos[a] < m.Last() && x == At(m.chain[m.pos[a] + 1])
    requires ContInv(m, t, k, c) && m' == Advance(m, c, At(a), x)
    ensures Shape(m') && Grows(m, m', t) && Local(m', t, Resume(k))
  {
    AdvanceShape(m, t, c, a, x, m');
    AdvanceResumes(m, t, k, c, m');
  }

  lemma GateStepLocal(m: Mem, t: nat, pc: Pc, ch: Choice)
    requires Shape(m) && Local(m, t, pc) && (pc.DeqGate? || pc.DeqUndo?)
    ensures var (m', pc') := ExecDequeue(m, pc, ch); Shape(m') && Grows(m, m', t) && Local(m', t, pc')
  {
  }

  /** The comparison of head and tail: whichever is read first, they are seen equal
      only after the head has moved since the last failed compare-and-swap. */
  lemma CompareLocal(m: Mem, t: nat, pc: Pc, ch: Choice)
    requires Shape(m) && Local(m, t, pc)
    requires pc.DeqTest? || pc.DeqTestTail? || pc.DeqTestHead?
    requires m.head.count < m.tail.count
    ensures var (m', pc') := ExecDequeue(m, pc, ch); m' == m && Local(m, t, pc')
  {
    match pc
    case DeqTest(e, d, out) =>
    case DeqTestTail(e, d, out, h) => assert h != m.tail.node;
    case DeqTestHead(e, d, out, l) => assert m.head.node == l ==> Stale(m, e);
  }

  /** The reads of the candidate: its successor is never null. */
  lemma CandidateLocal(m: Mem, t: nat, pc: Pc, ch: Choice)
    requires Shape(m) && Local(m, t, pc)
    requires pc.DeqCount? || pc.DeqNode? || pc.DeqNext? || pc.DeqData?
    requires m.head.count < m.tail.count
    ensures var (m', pc') := ExecDequeue(m, pc, ch); m' == m && Local(m, t, pc')
  {
    match pc
    case DeqCount(d, out) =>
    case DeqNode(c, d, out) => HeadNode(m);
    case DeqNext(c, p, out) => NextOfCandidate(m, c, p);
    case DeqData(e, d) => DataOfCandidate(m, e, d);
  }

  lemma HeadNode(m: Mem)
    requires Shape(m)
    ensures Known(m, m.head.node, m.head.count) && m.pos[m.head.node.n] == m.head.count
  {
  }

  lemma NextOfCandidate(m: Mem, c: int, p: nat)
    requires Shape(m) && Known(m, At(p), m.head.count) && c <= m.pos[p] && m.head.count < m.tail.count
    ensures Live(m, At(p)) && m.next[p] != Null && Successor(m, Node16(At(p), c), Node16(m.next[p], c + 1))
  {
    assert m.next[p] == At(m.chain[m.pos[p] + 1]);
  }

  lemma DataOfCandidate(m: Mem, e: Node16, d: Node16)
    requires Shape(m) && Successor(m, e, d)
    ensures Live(m, d.node) && m.data[d.node.n] == m.enq[m.pos[e.node.n]]
  {
    var j := m.pos[e.node.n] + 1;
    assert m.chain[j] in m.data && m.enq[j - 1] == m.data[m.chain[j]];
  }

  /** A head compare-and-swap that succeeds installs the true successor and hands out
      that successor's value; a stale pair never matches the head. */
  lemma PopPair(m: Mem, e: Node16, d: Node16, out: Data)
    requires Shape(m) && m.head == e && Local(m, 0, DeqCas(e, d, out))
    ensures m.head.count < m.Last() && out == m.enq[m.head.count]
    ensures d == Node16(At(m.chain[m.head.count + 1]), m.head.count + 1)
  {
    assert m.pos[m.head.node.n] == m.head.count;
  }

  lemma PopHistory(enq: seq<Data>, deq: seq<Data>, k: nat, out: Data)
    requires k < |enq| && deq == enq[..k] && out == enq[k]
    ensures deq + [out] == enq[..k + 1]
  {
  }

  /** The winning compare-and-swap on the head. */
  lemma PopShape(m: Mem, e: Node16, d: Node16, out: Data)
    requires Shape(m) && m.head == e && Local(m, 0, DeqCas(e, d, out))
    requires m.head.count < m.tail.count
    ensures d == Node16(At(m.chain[m.head.count + 1]), m.head.count + 1) && out == m.enq[m.head.count]
    ensures Shape(m.(head := d, deq := m.deq + [out]))
  {
    PopPair(m, e, d, out);
    PopHistory(m.enq, m.deq, m.head.count, out);
    assert EndsOk(m.chain, d, m.tail);
  }

  lemma PopGrows(m: Mem, t: nat, d: Node16, out: Data)
    requires m.head.count <= d.count && |m.enq| == m.Last()
    ensures Grows(m, m.(head := d, deq := m.deq + [out]), t)
  {
  }

  lemma PopLocal(m: Mem, t: nat, pc: Pc, ch: Choice)
    requires Shape(m) && Local(m, t, pc) && pc.DeqCas?
    requires m.head.count < m.tail.count
    ensures var (m', pc') := ExecDequeue(m, pc, ch); Shape(m') && Grows(m, m', t) && Local(m', t, pc')
  {
    if m.head == pc.e && !ch.spurious {
      PopShape(m, pc.e, pc.d, pc.out);
      PopGrows(m, t, pc.d, pc.out);
    }
  }

  lemma MovingLocal(m: Mem, t: nat, pc: Pc, m': Mem, pc': Pc)
    requires Shape(m) && Local(m, t, pc) && Moving(pc) && (m', pc') == ExecMoveTail(m, pc)
    ensures Shape(m') && Grows(m, m', t) && Local(m', t, pc')
  {
    GrowsSame(m, t);
    if pc.MoveCas? { AdvanceLocal(m, t, pc.k, pc.c, pc.a.n, pc.x, m'); }
    else if pc.MoveNext? { MoveNextLocal(m, t, pc.k, pc.c, pc.a.n); }
    else { MoveTailLocal(m, t, pc); }
  }

  lemma DequeueLocal(m: Mem, t: nat, pc: Pc, ch: Choice)
    requires Shape(m) && Local(m, t, pc) && !Moving(pc)
    requires pc.DeqGate? || pc.DeqUndo? || (Admitted(pc) && m.head.count < m.tail.count)
    ensures var (m', pc') := ExecDequeue(m, pc, ch); Shape(m') && Grows(m, m', t) && Local(m', t, pc')
  {
    GrowsSame(m, t);
    if pc.DeqCas? { PopLocal(m, t, pc, ch); }
    else if pc.DeqGate? || pc.DeqUndo? { GateStepLocal(m, t, pc, ch); }
    else if pc.DeqTest? || pc.DeqTestTail? || pc.DeqTestHead? { CompareLocal(m, t, pc, ch); }
    else { CandidateLocal(m, t, pc, ch); }
  }

  lemma EnqueuerLocal(m: Mem, t: nat, pc: Pc, ch: Choice)
    requires Shape(m) && Local(m, t, pc)
    requires !pc.Idle? && !Moving(pc) && !pc.DeqGate? && !pc.DeqUndo? && !Admitted(pc)
    ensures var (m', pc') := ExecEnqueue(m, t, pc, ch); Shape(m') && Grows(m, m', t) && Local(m', t, pc')
  {
    if pc.EnqAlloc? { AllocLocal(m, t, pc, ch); }
    else if pc.EnqCas? { EnqCasLocal(m, t, pc, ch); }
    else { EnqueueLocal(m, t, pc, ch); }
  }

  lemma ExecLocal(m: Mem, t: nat, pc: Pc, ch: Choice)
    requires Shape(m) && Local(m, t, pc)
    requires Admitted(pc) ==> m.head.count < m.tail.count
    ensures var (m', pc') := Exec(m, t, pc, ch); Shape(m') && Grows(m, m', t) && Local(m', t, pc')
  {
    var (m', pc') := Exec(m, t, pc, ch);
    if pc.Idle? { GrowsSame(m, t); }
    else if Moving(pc) { MovingLocal(m, t, pc, m', pc'); }
    else if pc.DeqGate? || pc.DeqUndo? || Admitted(pc) { DequeueLocal(m, t, pc, ch); }
    else { EnqueuerLocal(m, t, pc, ch); }
  }

  /** The counter, the regions and the distance from head to last node, in balance:
      `mCount` plus the dequeuers at work plus the unpublished enqueuers. */
  function Weight(pc: Pc): int
  {
    Bit(Undoing(pc)) + Bit(Admitted(pc)) + Bit(Unpublished(pc))
  }

  ghost function Surplus(m: Mem): int
  {
    m.count - (m.Last() - m.head.count)
  }

  /** The pointers a thread is about to follow, and the pair it is about to install. */
  ghost predicate Sound(m: Mem, pc: Pc)
  {
    && (pc.EnqReadNext? ==> Live(m, pc.a))
    && (pc.EnqCas? ==> Live(m, pc.b))
    && (pc.MoveNext? ==> Live(m, pc.a))
    && (pc.DeqNext? ==> Live(m, At(pc.p)))
    && (pc.DeqData? ==> Live(m, pc.d.node))
    && (pc.DeqCas? && m.head == pc.e ==> pc.d.count == m.head.count + 1)
  }

  lemma LocalSound(m: Mem, t: nat, pc: Pc)
    requires Shape(m) && Local(m, t, pc)
    ensures Sound(m, pc)
  {
    assert pc.DeqData? ==> m.chain[m.pos[pc.e.node.n] + 1] in m.pos;
  }

  lemma EnqueueCounts(m: Mem, t: nat, pc: Pc, ch: Choice)
    requires Sound(m, pc)
    requires !pc.Idle? && !Moving(pc) && !Admitted(pc) && !pc.DeqGate? && !pc.DeqUndo?
    ensures var (m', pc') := Exec(m, t, pc, ch);
      && m'.max == m.max
      && Surplus(m') + Weight(pc') == Surplus(m) + Weight(pc)
      && m'.count >= m.count && !Undoing(pc') && !Admitted(pc')
      && (m'.count + Bit(Passed(pc')) <= m.count + Bit(Passed(pc)) || m'.count < m.max)
      && ((m'.linker == t && pc' == MoveCount(Linked(m'.Last()))) || (m'.linker == m.linker && m'.Last() == m.Last()))
  {
  }

  lemma MoveCounts(m: Mem, t: nat, pc: Pc, ch: Choice)
    requires Sound(m, pc) && Moving(pc)
    ensures var (m', pc') := Exec(m, t, pc, ch);
      && m'.max == m.max && m'.count == m.count && m'.chain == m.chain && m'.head == m.head && m'.linker == m.linker
      && ((Moving(pc') && pc'.k == pc.k) || pc' == Resume(pc.k))
  {
  }

  lemma GateCounts(m: Mem, t: nat, pc: Pc, ch: Choice)
    requires pc.DeqGate? || pc.DeqUndo?
    ensures var (m', pc') := Exec(m, t, pc, ch);
      && m'.max == m.max && m'.chain == m.chain && m'.linker == m.linker
      && Surplus(m') + Weight(pc') == Surplus(m) + Weight(pc)
      && (m'.count + Bit(Undoing(pc')) >= m.count + Bit(Undoing(pc)) || m'.count >= 0)
      && m'.count + Bit(Undoing(pc')) + Bit(Admitted(pc')) == m.count + Bit(Undoing(pc)) + Bit(Admitted(pc))
      && !Passed(pc')
  {
  }

  lemma DequeueCounts(m: Mem, t: nat, pc: Pc, ch: Choice)
    requires Sound(m, pc) && Admitted(pc) && !Moving(pc)
    ensures var (m', pc') := Exec(m, t, pc, ch);
      && m'.max == m.max && m'.chain == m.chain && m'.linker == m.linker && m'.count == m.count
      && Surplus(m') + Weight(pc') == Surplus(m) + Weight(pc)
      && !Undoing(pc') && !Passed(pc')
  {
  }

  lemma ExecCounts(m: Mem, t: nat, pc: Pc, ch: Choice)
    requires Sound(m, pc)
    ensures var (m', pc') := Exec(m, t, pc, ch);
      && m'.max == m.max
      && Surplus(m') + Weight(pc') == Surplus(m) + Weight(pc)
      && (m'.count + Bit(Undoing(pc')) >= m.count + Bit(Undoing(pc)) || m'.count >= 0)
      && (m'.count + Bit(Undoing(pc')) + Bit(Admitted(pc')) + Bit(Passed(pc'))
            <= m.count + Bit(Undoing(pc)) + Bit(Admitted(pc)) + Bit(Passed(pc))
          || m'.count < m.max)
      && ((m'.linker == t && pc' == MoveCount(Linked(m'.Last())))
          || (m'.linker == m.linker && m'.Last() == m.Last()
              && (Moving(pc) && pc.k.Linked? ==> (Moving(pc') && pc'.k == pc.k) || pc' == EnqInc(pc.k.i))))
  {
    if Moving(pc) { MoveCounts(m, t, pc, ch); }
    else if pc.DeqGate? || pc.DeqUndo? { GateCounts(m, t, pc, ch); }
    else if Admitted(pc) { DequeueCounts(m, t, pc, ch); }
    else if !pc.Idle? { EnqueueCounts(m, t, pc, ch); }
  }

  // ------------------------------------------------------------------ whole runs

  /** What the thread that moves finds afterwards. */
  lemma MoverLocal(s: State, t: nat, ch: Choice)
    requires Inv(s) && t < |s.ts|
    ensures var (m', pc') := Exec(s.m, t, s.ts[t], ch); Shape(m') && Grows(s.m, m', t) && Local(m', t, pc')
  {
    ReservedWithinReach(s);
    if Admitted(s.ts[t]) {
      CountMember(s.ts, t, Admitted);
    }
    ExecLocal(s.m, t, s.ts[t], ch);
  }

  lemma StepLocals(s: State, t: nat, ch: Choice)
    requires Inv(s) && t < |s.ts|
    ensures var s' := Step(s, t, ch); Shape(s'.m) && forall u :: 0 <= u < |s'.ts| ==> Local(s'.m, u, s'.ts[u])
  {
    var m' := Exec(s.m, t, s.ts[t], ch).0;
    MoverLocal(s, t, ch);
    forall u | 0 <= u < |s.ts| && u != t
      ensures Local(m', u, s.ts[u])
    {
      LocalStable(s.m, m', t, u, s.ts[u]);
    }
  }

  lemma StepGate(s: State, t: nat, ch: Choice)
    requires Gate(s.m, s.ts) && t < |s.ts| && Sound(s.m, s.ts[t])
    ensures var s' := Step(s, t, ch); Gate(s'.m, s'.ts)
  {
    var (m', pc') := Exec(s.m, t, s.ts[t], ch);
    ExecCounts(s.m, t, s.ts[t], ch);
    CountUpdate(s.ts, t, pc', Undoing);
    CountUpdate(s.ts, t, pc', Admitted);
    CountUpdate(s.ts, t, pc', Unpublished);
    assert Surplus(m') + Weight(pc') == Surplus(s.m) + Weight(s.ts[t]);
  }

  /** The tail lags only while the thread that linked the last node is in `moveTail`. */
  lemma StepLag(s: State, t: nat, ch: Choice)
    requires Inv(s) && t < |s.ts|
    requires var s' := Step(s, t, ch); Local(s'.m, t, s'.ts[t]) && s'.m.tail.count >= s.m.tail.count
    requires var s' := Step(s, t, ch); s'.m.Last() == s'.m.tail.count + 1
    ensures var s' := Step(s, t, ch); Lagging(s'.m, s'.ts)
  {
    LocalSound(s.m, t, s.ts[t]);
    ExecCounts(s.m, t, s.ts[t], ch);
  }

  lemma StepInv(s: State, t: nat, ch: Choice)
    requires Inv(s) && t < |s.ts|
    ensures Inv(Step(s, t, ch))
  {
    StepLocals(s, t, ch);
    TailMonotone(s.m, t, s.ts[t], ch);
    LocalSound(s.m, t, s.ts[t]);
    StepGate(s, t, ch);
    var s' := Step(s, t, ch);
    if s'.m.Last() == s'.m.tail.count + 1 {
      StepLag(s, t, ch);
    }
  }

  lemma TailMonotone(m: Mem, t: nat, pc: Pc, ch: Choice)
    ensures Exec(m, t, pc, ch).0.tail.count >= m.tail.count
  {
  }

  lemma InitInv(max: int, threads: nat)
    ensures Inv(Init(max, threads))
  {
    var s := Init(max, threads);
    CountNone(s.ts, Undoing);
    CountNone(s.ts, Admitted);
    CountNone(s.ts, Unpublished);
  }

  lemma RunInv(s: State, sched: Schedule)
    requires Inv(s)
    ensures Inv(Run(s, sched))
  {
    forall x: State, t: nat, ch: Choice | Inv(x)
      ensures Inv(MoveThread(x, t, ch))
    {
      if t < |x.ts| { StepInv(x, t, ch); }
    }
    Runs.RunKeeps(MoveThread, Inv, s, sched);
  }

  // ---------------------------------------------------------------- main results

  /** The FIFO law of whole runs.  For any capacity, any number of threads and any
      schedule: no null pointer is followed; the k-th successful head compare-and-swap
      hands out the value of the k-th linked node; the head stands on the chain exactly
      as many nodes in as values were handed out, never overtakes the tail, and the
      tail lags the last node by at most one. */
  lemma QueueIsFifo(max: int, threads: nat, sched: Schedule)
    ensures var m := Run(Init(max, threads), sched).m;
      && !m.fault
      && |m.chain| == |m.enq| + 1
      && |m.deq| <= m.tail.count <= |m.enq| <= m.tail.count + 1
      && m.deq == m.enq[..|m.deq|]
      && m.head == Node16(At(m.chain[|m.deq|]), |m.deq|)
      && m.tail.node == At(m.chain[m.tail.count])
      && ChainOk(m.chain, m.pos) && LinksOk(m.chain, m.pos, m.next)
  {
    InitInv(max, threads);
    RunInv(Init(max, threads), sched);
  }

  lemma ExecHistory(m: Mem, t: nat, pc: Pc, ch: Choice)
    ensures var m' := Exec(m, t, pc, ch).0;
      || (m'.enq == m.enq && m'.deq == m.deq)
      || (pc.EnqCas? && m'.enq == m.enq + [pc.cell.v] && m'.deq == m.deq)
      || (pc.DeqCas? && m.head == pc.e && m'.enq == m.enq && m'.deq == m.deq + [pc.out])
  {
  }

  /** Every step of a run acts on the abstract queue `enq[|deq|..]` as a FIFO queue
      does: it appends the argument of the call whose node it links, or removes the
      front and returns it, or leaves the queue alone. */
  lemma StepRefinesFifo(s: State, t: nat, ch: Choice)
    requires Inv(s) && t < |s.ts|
    ensures var (m, m') := (s.m, Step(s, t, ch).m);
      || (m'.enq == m.enq && m'.deq == m.deq)
      || (s.ts[t].EnqCas? && m'.enq == m.enq + [s.ts[t].cell.v] && m'.deq == m.deq)
      || (s.ts[t].DeqCas? && m'.enq == m.enq && |m.deq| < |m.enq| && m'.deq == m.deq + [m.enq[|m.deq|]]
          && s.ts[t].out == m.enq[|m.deq|])
  {
    var pc := s.ts[t];
    ExecHistory(s.m, t, pc, ch);
    if pc.DeqCas? && s.m.head == pc.e {
      ReservedWithinReach(s);
      CountMember(s.ts, t, Admitted);
      PopShape(s.m, pc.e, pc.d, pc.out);
    }
  }

  /** A dequeuer that arrives at the compare-and-swap through a `continue` holds a
      desired value that is not the successor of what it expects; in no reachable
      state does its expected value match the head. */
  lemma ContinueNeverCommits(s: State, t: nat)
    requires Inv(s) && t < |s.ts| && s.ts[t].DeqCas?
    requires !Successor(s.m, s.ts[t].e, s.ts[t].d)
    ensures s.m.head != s.ts[t].e
  {
    assert Local(s.m, t, s.ts[t]);
  }

  ghost predicate Bounded(s: State)
  {
    s.m.count + Count(s.ts, Undoing) + Count(s.ts, Admitted) + Count(s.ts, Passed)
      <= Max(0, s.m.max - 1 + |s.ts|)
  }

  /** No thread counts twice. */
  lemma RegionsDisjoint(ts: seq<Pc>)
    ensures Count(ts, Undoing) + Count(ts, Admitted) + Count(ts, Passed) <= |ts|
  {
    CountDisjoint(ts, Undoing, Admitted, Passed);
  }

  lemma StepBounded(s: State, t: nat, ch: Choice)
    requires Bounded(s) && t < |s.ts| && Sound(s.m, s.ts[t])
    ensures Bounded(Step(s, t, ch)) && Step(s, t, ch).m.max == s.m.max
  {
    var s' := Step(s, t, ch);
    var pc' := s'.ts[t];
    ExecCounts(s.m, t, s.ts[t], ch);
    CountUpdate(s.ts, t, pc', Undoing);
    CountUpdate(s.ts, t, pc', Admitted);
    CountUpdate(s.ts, t, pc', Passed);
    RegionsDisjoint(s'.ts);
  }

  /** Bounded, under the invariant, for a given capacity and number of threads. */
  ghost predicate BoundedBy(s: State, max: int, threads: nat)
  {
    Inv(s) && Bounded(s) && s.m.max == max && |s.ts| == threads
  }

  lemma RunBounded(s: State, sched: Schedule)
    requires Inv(s) && Bounded(s)
    ensures BoundedBy(Run(s, sched), s.m.max, |s.ts|)
  {
    var max, threads := s.m.max, |s.ts|;
    forall x: State, t: nat, ch: Choice | BoundedBy(x, max, threads)
      ensures BoundedBy(MoveThread(x, t, ch), max, threads)
    {
      if t < |x.ts| {
        StepInv(x, t, ch);
        LocalSound(x.m, t, x.ts[t]);
        StepBounded(x, t, ch);
      }
    }
    Runs.RunKeeps(MoveThread, x => BoundedBy(x, max, threads), s, sched);
  }

  lemma {:induction false} CountMono(ts: seq<Pc>)
    ensures Count(ts, Unpublished) <= Count(ts, Passed)
  {
    if ts == [] {
    } else {
      CountMono(ts[1..]);
    }
  }

  /** The capacity is soft: the test and the increment are separate steps, so `threads`
      threads may exceed it together, but by no more than one element each. */
  lemma SoftCapacity(max: int, threads: nat, sched: Schedule)
    ensures var m := Run(Init(max, threads), sched).m;
      |m.enq| - |m.deq| <= Max(0, max - 1 + threads)
  {
    var s := Init(max, threads);
    InitInv(max, threads);
    CountNone(s.ts, Undoing);
    CountNone(s.ts, Admitted);
    CountNone(s.ts, Passed);
    RunInv(s, sched);
    RunBounded(s, sched);
    CountMono(Run(s, sched).ts);
  }

  /** The elements in the queue that nobody speaks for: linked and counted by their
      enqueuers, and not reserved by a dequeuer at work. */
  ghost function Unspoken(s: State): int
  {
    |s.m.enq| - |s.m.deq| - Count(s.ts, Admitted) - Count(s.ts, Unpublished)
  }

  /** TryDequeue answers `false` exactly at a gate with no count left; the elements that
      nobody speaks for are then at most one per failed decrement still to be undone. */
  lemma EmptyAnswer(s: State, t: nat, ch: Choice)
    requires Inv(s) && t < |s.ts| && s.ts[t].DeqGate?
    ensures Step(s, t, ch).ts[t].DeqUndo? <==> s.m.count <= 0
    ensures s.m.count <= 0 ==> Unspoken(s) <= Count(s.ts, Undoing)
  {
    assert Gate(s.m, s.ts);
  }
}
