/** The counted Treiber stack behind CppNetEngine/LockFreeStack.h and the free list of
    ObjectPool in CppNetEngine/ObjectPool.h, as a step machine.

    Both run the same algorithm: pops compare and swap the pair (pointer, count), pushes
    compare and swap the pointer alone, and a counter gates every pop.  Nodes are
    recycled without restriction: a popped node may be pushed again at once, while other
    threads still hold stale pointers to it.  Every compare-and-swap may fail
    spuriously.  Memory is sequentially consistent and counters are unbounded. */
module CountedStack {
  import opened Common
  import Runs
  import opened Threads

  /** Which class runs the algorithm: the object pool (Alloc/Free) with the number of
      nodes it starts with, or the stack (TryPush/TryPop) with its capacity. */
  datatype Kind = Pool(pooled: nat) | Stack(max: int)

  datatype Pc =
    | Idle
    // Alloc / TryPop
    | PopGate
    | PopUndo
    | AllocNew
    | PopCount
    | PopNode(c: int)
    | PopNext(c: int, p: Ptr)
    | PopCas(c: int, n: nat, x: Ptr)
    | PopDone(n: nat, v: Data)
    // Free / TryPush
    | PushCheck(v: Data)
    | PushTake(v: Data)
    | PushRead(n: nat, v: Data)
    | PushLink(n: nat, v: Data, p: Ptr)
    | PushCas(n: nat, v: Data, p: Ptr)
    | PushInc

  /** What the environment decides: whether an idle thread pushes or pops, with which
      value (stack) or which of its outstanding nodes (pool), which node an allocation
      returns, and whether a weak compare-and-swap fails spuriously. */
  datatype Choice = Choice(push: bool, v: Data, node: nat, spurious: bool)

  /** Who has a node: the list, a client (or, for the stack, the node allocator), or
      the one thread that is pushing it or has just popped it. */
  datatype Holder = List | Client | Hand(t: nat)

  /** A successful push or pop, in the order of the compare-and-swaps. */
  datatype Event = Pushed(v: Data) | Popped(v: Data)

  /** `top`, `count`, `next` and `data` are the program's; `out` counts how often each
      node is handed out to clients at the moment (the program keeps no such record);
      `list` and `vals` are the nodes and values from the top down, `holder` the owner
      of each node, `hist` the successful operations, and `fault` a followed null. */
  datatype Mem = Mem(
    kind: Kind, count: int, top: Node16, next: map<nat, Ptr>, data: map<nat, Data>, fault: bool,
    out: multiset<nat>,
    list: seq<nat>, vals: seq<Data>, holder: map<nat, Holder>, hist: seq<Event>)

  datatype State = State(m: Mem, ts: seq<Pc>)

  // ---------------------------------------------------------------- the machine

  predicate Live(m: Mem, p: Ptr)
  {
    p.At? && p.n in m.next && p.n in m.data
  }

  /** A client gives a node back to the pool. */
  function Surrender(m: Mem, t: nat, n: nat): Mem
  {
    m.(out := m.out - multiset{n}, holder := m.holder[n := Hand(t)])
  }

  function ExecIdle(m: Mem, t: nat, ch: Choice): (Mem, Pc)
  {
    if !ch.push then (m, PopGate)
    else if m.kind.Stack? then (m, PushCheck(ch.v))
    else if m.out[ch.node] == 0 then (m, Idle)  // only outstanding pointers are freed
    else (Surrender(m, t, ch.node), PushRead(ch.node, if ch.node in m.data then m.data[ch.node] else 0))
  }

  /** A node the allocator has never returned. */
  function Create(m: Mem, n: nat, v: Data, h: Holder): Mem
  {
    m.(next := m.next[n := Null], data := m.data[n := v], holder := m.holder[n := h])
  }

  /** The winning double-word compare-and-swap of a pop. */
  function Pop(m: Mem, t: nat, p: nat, x: Ptr): Mem
    requires p in m.data && m.list != [] && m.vals != []
  {
    m.(top := Node16(x, m.top.count + 1), list := m.list[1..], vals := m.vals[1..],
       holder := m.holder[p := Hand(t)], hist := m.hist + [Popped(m.data[p])])
  }

  function ExecPop(m: Mem, t: nat, pc: Pc, ch: Choice): (Mem, Pc)
    requires pc.PopGate? || pc.PopUndo? || pc.AllocNew? || pc.PopCount? || pc.PopNode? || pc.PopNext? || pc.PopCas?
          || pc.PopDone?
  {
    match pc
    case PopGate => (m.(count := m.count - 1), if m.count <= 0 then PopUndo else PopCount)
    case PopUndo => (m.(count := m.count + 1), if m.kind.Pool? then AllocNew else Idle)
    case AllocNew =>
      if ch.node in m.next then (m, pc)
      else (Create(m, ch.node, ch.v, Client).(out := m.out + multiset{ch.node}), Idle)
    case PopCount => (m, PopNode(m.top.count))
    case PopNode(c) => (m, PopNext(c, m.top.node))
    case PopNext(c, p) =>
      if Live(m, p) then (m, PopCas(c, p.n, m.next[p.n])) else (m.(fault := true), Idle)
    case PopCas(c, n, x) =>
      if m.top != Node16(At(n), c) || ch.spurious then (m, PopCount)
      else if n !in m.data || m.list == [] || m.vals == [] then (m.(fault := true), Idle)
      else (Pop(m, t, n, x), PopDone(n, m.data[n]))
    case PopDone(n, _) => (m.(out := m.out + multiset{n}, holder := m.holder[n := Client]), Idle)
  }

  /** The winning pointer compare-and-swap of a push. */
  function Push(m: Mem, n: nat, v: Data): Mem
  {
    m.(top := Node16(At(n), m.top.count), list := [n] + m.list, vals := [v] + m.vals,
       holder := m.holder[n := List], hist := m.hist + [Pushed(v)])
  }

  /** The stack's allocator hands a recycled node to a push. */
  function Recycle(m: Mem, t: nat, n: nat, v: Data): Mem
  {
    m.(out := m.out - multiset{n}, data := m.data[n := v], holder := m.holder[n := Hand(t)])
  }

  function ExecPush(m: Mem, t: nat, pc: Pc, ch: Choice): (Mem, Pc)
    requires pc.PushCheck? || pc.PushTake? || pc.PushRead? || pc.PushLink? || pc.PushCas? || pc.PushInc?
  {
    match pc
    case PushCheck(v) => (m, if m.kind.Stack? && m.kind.max <= m.count then Idle else PushTake(v))
    case PushTake(v) =>  // NewObject: a recycled node or a new one
      if m.out[ch.node] > 0 then
        (Recycle(m, t, ch.node, v), PushRead(ch.node, v))
      else if ch.node in m.next then (m, pc)
      else (Create(m, ch.node, v, Hand(t)), PushRead(ch.node, v))
    case PushRead(n, v) => (m, PushLink(n, v, m.top.node))
    case PushLink(n, v, p) => (m.(next := m.next[n := p]), PushCas(n, v, p))
    case PushCas(n, v, p) => if m.top.node != p || ch.spurious then (m, PushRead(n, v)) else (Push(m, n, v), PushInc)
    case PushInc => (m.(count := m.count + 1), Idle)
  }

  /** One turn of the pool's constructor loop. */
  function Preload(m: Mem, n: nat): Mem
  {
    var m1 := Create(m, n, 0, Hand(0));
    Push(m1.(next := m1.next[n := m.top.node]), n, 0).(count := m.count + 1)
  }

  /** The constructor of the pool links its first nodes one by one; the stack starts
      empty. */
  function Construct(kind: Kind, k: nat): (m: Mem)
    ensures forall n :: n in m.next ==> n < k
  {
    if k == 0 then
      Mem(kind, 0, Node16(Null, 0), map[], map[], false, multiset{}, [], [], map[], [])
    else
      Preload(Construct(kind, k - 1), k - 1)
  }

  function Init(kind: Kind, threads: nat): State
  {
    State(Construct(kind, if kind.Pool? then kind.pooled else 0), seq(threads, _ => Idle))
  }

  function Exec(m: Mem, t: nat, pc: Pc, ch: Choice): (Mem, Pc)
  {
    if pc.Idle? then ExecIdle(m, t, ch)
    else if pc.PushCheck? || pc.PushTake? || pc.PushRead? || pc.PushLink? || pc.PushCas? || pc.PushInc?
    then ExecPush(m, t, pc, ch)
    else ExecPop(m, t, pc, ch)
  }

  function Step(s: State, t: nat, ch: Choice): (s': State)
    requires t < |s.ts|
    ensures |s'.ts| == |s.ts|
  {
    var (m', pc') := Exec(s.m, t, s.ts[t], ch);
    State(m', s.ts[t := pc'])
  }

  type Schedule = seq<(nat, Choice)>

  /** A thread that does not exist does not move. */
  function MoveThread(s: State, t: nat, ch: Choice): (s': State)
    ensures |s'.ts| == |s.ts|
  {
    if t < |s.ts| then Step(s, t, ch) else s
  }

  ghost function Run(s: State, sched: Schedule): (s': State)
  {
    Runs.Run(MoveThread, s, sched)
  }

  // ------------------------------------------------------------ the memory shape

  /** From `p` on, `next` runs through exactly the nodes of `list` and ends in null. */
  ghost predicate Linked(p: Ptr, list: seq<nat>, next: map<nat, Ptr>)
    decreases |list|
  {
    if list == [] then p == Null
    else p == At(list[0]) && list[0] in next && Linked(next[list[0]], list[1..], next)
  }

  /** Every node is held once: by the list, by its clients, or by one thread. */
  ghost predicate HoldersOk(list: seq<nat>, holder: map<nat, Holder>, out: multiset<nat>, nodes: set<nat>)
  {
    && holder.Keys == nodes
    && (forall i :: 0 <= i < |list| ==> list[i] in holder && holder[list[i]] == List)
    && (forall i, j :: 0 <= i < j < |list| ==> list[i] != list[j])
    && (forall n :: n in holder && holder[n] == List ==> n in list)
    && (forall n :: out[n] == (if n in holder && holder[n] == Client then 1 else 0))
  }

  ghost predicate ValuesOk(list: seq<nat>, vals: seq<Data>, data: map<nat, Data>)
  {
    && |vals| == |list|
    && (forall i :: 0 <= i < |list| ==> list[i] in data && data[list[i]] == vals[i])
  }

  /** The abstract stack after a history, or None when a pop returned anything other
      than the value then on top. */
  function Replay(hist: seq<Event>): Option<seq<Data>>
  {
    if hist == [] then Some([])
    else
      match (Replay(hist[..|hist| - 1]), hist[|hist| - 1])
      case (None, _) => None
      case (Some(st), Pushed(v)) => Some([v] + st)
      case (Some(st), Popped(v)) => if st != [] && st[0] == v then Some(st[1..]) else None
  }

  ghost predicate Shape(m: Mem)
  {
    && !m.fault
    && Linked(m.top.node, m.list, m.next)
    && HoldersOk(m.list, m.holder, m.out, m.next.Keys)
    && m.data.Keys == m.next.Keys
    && ValuesOk(m.list, m.vals, m.data)
    && Replay(m.hist) == Some(m.vals)
  }

  // ------------------------------------------------- what each thread may rely on

  ghost predicate Mine(m: Mem, t: nat, n: nat)
  {
    n in m.holder && m.holder[n] == Hand(t)
  }

  /** The heart of the ABA argument: while the count is still `c`, no pop has happened
      since it was read, so a node seen on top since then is still on the list. */
  ghost predicate Pinned(m: Mem, c: int, p: nat)
  {
    && c <= m.top.count && p in m.next
    && (c == m.top.count ==> p in m.holder && m.holder[p] == List)
  }

  ghost predicate Local(m: Mem, t: nat, pc: Pc)
  {
    match pc
    case PopNode(c) => c <= m.top.count
    case PopNext(c, p) => p.At? && Pinned(m, c, p.n)
    case PopCas(c, n, x) => Pinned(m, c, n) && (c == m.top.count ==> m.next[n] == x)
    case PopDone(n, v) => Mine(m, t, n) && n in m.data && m.data[n] == v
    case PushRead(n, v) => Mine(m, t, n) && n in m.data && m.data[n] == v
    case PushLink(n, v, p) => Mine(m, t, n) && n in m.data && m.data[n] == v
    case PushCas(n, v, p) => Mine(m, t, n) && n in m.data && m.data[n] == v && n in m.next && m.next[n] == p
    case _ => true
  }

  // -------------------------------------------------------------- the gate counts

  predicate Undoing(pc: Pc) { pc.PopUndo? }

  /** A popper that the gate let through and that has not popped yet. */
  predicate Admitted(pc: Pc) { pc.PopCount? || pc.PopNode? || pc.PopNext? || pc.PopCas? }

  /** A pusher that linked its node and has not raised the counter yet. */
  predicate Unpublished(pc: Pc) { pc.PushInc? }

  /** A TryPush that passed the capacity test and has not raised the counter yet. */
  predicate Passed(pc: Pc) { pc.PushTake? || pc.PushRead? || pc.PushLink? || pc.PushCas? || pc.PushInc? }

  ghost predicate Gate(m: Mem, ts: seq<Pc>)
  {
    && m.count + Count(ts, Undoing) >= 0
    && m.count + Count(ts, Undoing) + Count(ts, Admitted) + Count(ts, Unpublished) == |m.list|
  }

  ghost predicate Inv(s: State)
  {
    && Shape(s.m)
    && (forall t :: 0 <= t < |s.ts| ==> Local(s.m, t, s.ts[t]))
    && Gate(s.m, s.ts)
  }

  // ------------------------------------------------------ one step keeps the invariant

  /** A write to a node that is off the list leaves the list linked. */
  lemma {:induction false} LinkedFrame(p: Ptr, list: seq<nat>, next: map<nat, Ptr>, n: nat, x: Ptr)
    requires Linked(p, list, next) && n !in list
    ensures Linked(p, list, next[n := x])
    decreases |list|
  {
    if list == [] {
    } else {
      LinkedFrame(next[list[0]], list[1..], next, n, x);
    }
  }

  lemma ReplayStep(hist: seq<Event>, e: Event)
    ensures Replay(hist + [e]) ==
      match (Replay(hist), e)
      case (None, _) => None
      case (Some(st), Pushed(v)) => Some([v] + st)
      case (Some(st), Popped(v)) => if st != [] && st[0] == v then Some(st[1..]) else None
  {
    assert (hist + [e])[..|hist|] == hist;
  }

  lemma PopHolders(list: seq<nat>, holder: map<nat, Holder>, out: multiset<nat>, nodes: set<nat>, t: nat)
    requires HoldersOk(list, holder, out, nodes) && list != []
    ensures HoldersOk(list[1..], holder[list[0] := Hand(t)], out, nodes)
  {
    assert list == [list[0]] + list[1..];
  }

  lemma PushHolders(list: seq<nat>, holder: map<nat, Holder>, out: multiset<nat>, nodes: set<nat>, n: nat)
    requires HoldersOk(list, holder, out, nodes) && n in holder && holder[n].Hand?
    ensures HoldersOk([n] + list, holder[n := List], out, nodes)
  {
  }

  /** A node leaves a thread's hand for a client, or comes back from one. */
  lemma ClientHolders(list: seq<nat>, holder: map<nat, Holder>, out: multiset<nat>, nodes: set<nat>, n: nat, t: nat)
    requires HoldersOk(list, holder, out, nodes) && n in nodes
    ensures holder[n].Hand? ==> HoldersOk(list, holder[n := Client], out + multiset{n}, nodes)
    ensures out[n] > 0 ==> HoldersOk(list, holder[n := Hand(t)], out - multiset{n}, nodes)
  {
  }

  lemma NewHolders(list: seq<nat>, holder: map<nat, Holder>, out: multiset<nat>, nodes: set<nat>, n: nat, t: nat)
    requires HoldersOk(list, holder, out, nodes) && n !in nodes
    ensures HoldersOk(list, holder[n := Hand(t)], out, nodes + {n})
    ensures HoldersOk(list, holder[n := Client], out + multiset{n}, nodes + {n})
  {
  }

  lemma OutIsNode(m: Mem, n: nat)
    requires Shape(m) && m.out[n] > 0
    ensures n in m.next && m.holder[n] == Client && n !in m.list
  {
  }

  lemma PopShape(m: Mem, t: nat, p: nat, x: Ptr)
    requires Shape(m) && m.top.node == At(p) && p in m.next && m.next[p] == x
    ensures m.list != [] && m.list[0] == p && m.vals != []
    ensures Shape(Pop(m, t, p, x))
  {
    ReplayStep(m.hist, Popped(m.data[p]));
    PopHolders(m.list, m.holder, m.out, m.next.Keys, t);
  }

  lemma PushShape(m: Mem, n: nat, v: Data)
    requires Shape(m) && n in m.holder && m.holder[n].Hand? && m.next[n] == m.top.node && m.data[n] == v
    ensures Shape(Push(m, n, v))
  {
    ReplayStep(m.hist, Pushed(v));
    PushHolders(m.list, m.holder, m.out, m.next.Keys, n);
    assert ([n] + m.list)[1..] == m.list;
  }

  lemma NewShape(m: Mem, n: nat, v: Data, t: nat)
    requires Shape(m) && n !in m.next
    ensures Shape(Create(m, n, v, Hand(t)))
    ensures Shape(Create(m, n, v, Client).(out := m.out + multiset{n}))
  {
    NewHolders(m.list, m.holder, m.out, m.next.Keys, n, t);
    LinkedFrame(m.top.node, m.list, m.next, n, Null);
    assert m.next[n := Null].Keys == m.next.Keys + {n};
  }

  predicate InOtherHand(h: Holder, t: nat)
  {
    h.Hand? && h.t != t
  }

  /** The nodes in other threads' hands stay there as they are. */
  ghost predicate GrowsHands(holder: map<nat, Holder>, holder': map<nat, Holder>, next: map<nat, Ptr>,
    next': map<nat, Ptr>, data: map<nat, Data>, data': map<nat, Data>, t: nat)
  {
    forall n :: n in holder && InOtherHand(holder[n], t) ==>
      && n in holder' && holder'[n] == holder[n]
      && (n in data ==> n in data' && data'[n] == data[n])
      && (n in next ==> n in next' && next'[n] == next[n])
  }

  /** The listed nodes stay listed as they are. */
  ghost predicate GrowsList(holder: map<nat, Holder>, holder': map<nat, Holder>,
    next: map<nat, Ptr>, next': map<nat, Ptr>)
  {
    forall n :: n in holder && holder[n] == List ==>
      n in holder' && holder'[n] == List && (n in next ==> n in next' && next'[n] == next[n])
  }

  /** What a step of thread `t` leaves intact for the other threads. */
  ghost predicate Grows(m: Mem, m': Mem, t: nat)
  {
    && m.top.count <= m'.top.count
    && m.next.Keys <= m'.next.Keys
    && GrowsHands(m.holder, m'.holder, m.next, m'.next, m.data, m'.data, t)
    && (m.top.count == m'.top.count ==> GrowsList(m.holder, m'.holder, m.next, m'.next))
  }

  lemma GrowsSame(m: Mem, t: nat)
    ensures Grows(m, m, t)
  {
  }

  lemma PopGrows(m: Mem, t: nat, p: nat, x: Ptr)
    requires p in m.data && m.list != [] && m.vals != [] && p in m.holder && m.holder[p] == List
    ensures Grows(m, Pop(m, t, p, x), t)
  {
  }

  lemma PushGrows(m: Mem, t: nat, n: nat, v: Data)
    requires Mine(m, t, n)
    ensures Grows(m, Push(m, n, v), t)
  {
  }

  lemma NewGrows(m: Mem, t: nat, n: nat, v: Data)
    requires n !in m.next && n !in m.holder
    ensures Grows(m, Create(m, n, v, Hand(t)), t)
    ensures Grows(m, Create(m, n, v, Client).(out := m.out + multiset{n}), t)
  {
  }

  lemma RecycleShape(m: Mem, t: nat, n: nat, v: Data)
    requires Shape(m) && m.out[n] > 0
    ensures Shape(Recycle(m, t, n, v)) && Grows(m, Recycle(m, t, n, v), t)
  {
    OutIsNode(m, n);
    ClientHolders(m.list, m.holder, m.out, m.next.Keys, n, t);
  }

  lemma LocalStable(m: Mem, m': Mem, t: nat, u: nat, pc: Pc)
    requires Grows(m, m', t) && u != t
    requires Local(m, u, pc)
    ensures Local(m', u, pc)
  {
  }

  lemma PopReadLocal(m: Mem, t: nat, pc: Pc, ch: Choice)
    requires Shape(m) && Local(m, t, pc) && (pc.PopCount? || pc.PopNode? || pc.PopNext?)
    requires m.list != []
    ensures var (m', pc') := ExecPop(m, t, pc, ch); m' == m && Local(m, t, pc')
  {
  }

  lemma PopCasLocal(m: Mem, t: nat, pc: Pc, ch: Choice)
    requires Shape(m) && Local(m, t, pc) && pc.PopCas?
    ensures var (m', pc') := ExecPop(m, t, pc, ch); Shape(m') && Grows(m, m', t) && Local(m', t, pc')
  {
    if m.top == Node16(At(pc.n), pc.c) && !ch.spurious {
      PopShape(m, t, pc.n, pc.x);
      PopGrows(m, t, pc.n, pc.x);
    } else {
      GrowsSame(m, t);
    }
  }

  lemma PopDoneLocal(m: Mem, t: nat, pc: Pc, ch: Choice)
    requires Shape(m) && Local(m, t, pc) && pc.PopDone?
    ensures var (m', pc') := ExecPop(m, t, pc, ch); Shape(m') && Grows(m, m', t) && Local(m', t, pc')
  {
    ClientHolders(m.list, m.holder, m.out, m.next.Keys, pc.n, t);
  }

  lemma GateLocal(m: Mem, t: nat, pc: Pc, ch: Choice)
    requires Shape(m) && (pc.PopGate? || pc.PopUndo?)
    ensures var (m', pc') := ExecPop(m, t, pc, ch); Shape(m') && Grows(m, m', t) && Local(m', t, pc')
  {
  }

  lemma AllocNewLocal(m: Mem, t: nat, ch: Choice)
    requires Shape(m)
    ensures var (m', pc') := ExecPop(m, t, AllocNew, ch); Shape(m') && Grows(m, m', t) && Local(m', t, pc')
  {
    if ch.node !in m.next {
      NewShape(m, ch.node, ch.v, t);
      NewGrows(m, t, ch.node, ch.v);
    } else {
      GrowsSame(m, t);
    }
  }

  /** A client's node comes back into a thread's hand. */
  lemma SurrenderShape(m: Mem, t: nat, n: nat)
    requires Shape(m) && m.out[n] > 0
    ensures var m' := Surrender(m, t, n);
      Shape(m') && Grows(m, m', t) && Mine(m', t, n) && n in m'.data
  {
    OutIsNode(m, n);
    ClientHolders(m.list, m.holder, m.out, m.next.Keys, n, t);
  }

  lemma IdleLocal(m: Mem, t: nat, ch: Choice)
    requires Shape(m)
    ensures var (m', pc') := ExecIdle(m, t, ch); Shape(m') && Grows(m, m', t) && Local(m', t, pc')
  {
    if ch.push && m.kind.Pool? && m.out[ch.node] > 0 {
      SurrenderShape(m, t, ch.node);
      assert ExecIdle(m, t, ch).0 == Surrender(m, t, ch.node);
    } else {
      GrowsSame(m, t);
    }
  }

  lemma TakeLocal(m: Mem, t: nat, pc: Pc, ch: Choice)
    requires Shape(m) && pc.PushTake?
    ensures var (m', pc') := ExecPush(m, t, pc, ch); Shape(m') && Grows(m, m', t) && Local(m', t, pc')
  {
    if m.out[ch.node] > 0 {
      RecycleShape(m, t, ch.node, pc.v);
    } else if ch.node !in m.next {
      NewShape(m, ch.node, pc.v, t);
      NewGrows(m, t, ch.node, pc.v);
    } else {
      GrowsSame(m, t);
    }
  }

  lemma LinkLocal(m: Mem, t: nat, pc: Pc, ch: Choice)
    requires Shape(m) && Local(m, t, pc) && pc.PushLink?
    ensures var (m', pc') := ExecPush(m, t, pc, ch); Shape(m') && Grows(m, m', t) && Local(m', t, pc')
  {
    LinkedFrame(m.top.node, m.list, m.next, pc.n, pc.p);
    assert m.next[pc.n := pc.p].Keys == m.next.Keys;
  }

  lemma PushCasLocal(m: Mem, t: nat, pc: Pc, ch: Choice)
    requires Shape(m) && Local(m, t, pc) && pc.PushCas?
    ensures var (m', pc') := ExecPush(m, t, pc, ch); Shape(m') && Grows(m, m', t) && Local(m', t, pc')
  {
    if m.top.node == pc.p && !ch.spurious {
      PushShape(m, pc.n, pc.v);
      PushGrows(m, t, pc.n, pc.v);
    } else {
      GrowsSame(m, t);
    }
  }

  lemma PushLocal(m: Mem, t: nat, pc: Pc, ch: Choice)
    requires Shape(m) && Local(m, t, pc) && (pc.PushCheck? || pc.PushRead? || pc.PushInc?)
    ensures var (m', pc') := ExecPush(m, t, pc, ch); Shape(m') && Grows(m, m', t) && Local(m', t, pc')
  {
  }

  lemma ExecLocal(m: Mem, t: nat, pc: Pc, ch: Choice)
    requires Shape(m) && Local(m, t, pc)
    requires Admitted(pc) ==> m.list != []
    ensures var (m', pc') := Exec(m, t, pc, ch); Shape(m') && Grows(m, m', t) && Local(m', t, pc')
  {
    GrowsSame(m, t);
    if pc.Idle? { IdleLocal(m, t, ch); }
    else if pc.PopGate? || pc.PopUndo? { GateLocal(m, t, pc, ch); }
    else if pc.AllocNew? { AllocNewLocal(m, t, ch); }
    else if pc.PopCas? { PopCasLocal(m, t, pc, ch); }
    else if pc.PopDone? { PopDoneLocal(m, t, pc, ch); }
    else if Admitted(pc) { PopReadLocal(m, t, pc, ch); }
    else if pc.PushTake? { TakeLocal(m, t, pc, ch); }
    else if pc.PushLink? { LinkLocal(m, t, pc, ch); }
    else if pc.PushCas? { PushCasLocal(m, t, pc, ch); }
    else { PushLocal(m, t, pc, ch); }
  }

  function Weight(pc: Pc): int
  {
    Bit(Undoing(pc)) + Bit(Admitted(pc)) + Bit(Unpublished(pc))
  }

  /** The pointers a thread is about to follow, and the list a pop is about to shorten. */
  ghost predicate Sound(m: Mem, pc: Pc)
  {
    && (pc.PopNext? ==> Live(m, pc.p))
    && (pc.PopCas? && m.top == Node16(At(pc.n), pc.c) ==> pc.n in m.data && m.list != [] && m.vals != [])
  }

  lemma LocalSound(m: Mem, t: nat, pc: Pc)
    requires Shape(m) && Local(m, t, pc)
    ensures Sound(m, pc)
  {
  }

  lemma PopCounts(m: Mem, t: nat, pc: Pc, ch: Choice)
    requires Sound(m, pc)
    requires Admitted(pc) || pc.PopGate? || pc.PopUndo? || pc.AllocNew? || pc.PopDone?
    ensures var (m', pc') := ExecPop(m, t, pc, ch);
      && m'.kind == m.kind
      && m'.count - |m'.list| + Weight(pc') == m.count - |m.list| + Weight(pc)
      && (m'.count + Bit(Undoing(pc')) >= m.count + Bit(Undoing(pc)) || m'.count >= 0)
      && m'.count + Bit(Undoing(pc')) + Bit(Admitted(pc')) <= m.count + Bit(Undoing(pc)) + Bit(Admitted(pc))
      && !Passed(pc')
  {
  }

  lemma PushCounts(m: Mem, t: nat, pc: Pc, ch: Choice)
    requires pc.PushCheck? || Passed(pc)
    ensures var (m', pc') := ExecPush(m, t, pc, ch);
      && m'.kind == m.kind
      && m'.count - |m'.list| + Weight(pc') == m.count - |m.list| + Weight(pc)
      && m'.count >= m.count && !Undoing(pc') && !Admitted(pc')
      && (m'.count + Bit(Passed(pc')) <= m.count + Bit(Passed(pc)) || m.kind.Pool? || m'.count < m.kind.max)
  {
  }

  lemma ExecCounts(m: Mem, t: nat, pc: Pc, ch: Choice)
    requires Sound(m, pc)
    ensures var (m', pc') := Exec(m, t, pc, ch);
      && m'.kind == m.kind
      && m'.count - |m'.list| + Weight(pc') == m.count - |m.list| + Weight(pc)
      && (m'.count + Bit(Undoing(pc')) >= m.count + Bit(Undoing(pc)) || m'.count >= 0)
      && (m.kind.Stack? ==>
            m'.count + Bit(Undoing(pc')) + Bit(Admitted(pc')) + Bit(Passed(pc'))
              <= m.count + Bit(Undoing(pc)) + Bit(Admitted(pc)) + Bit(Passed(pc))
            || m'.count < m.kind.max)
  {
    if pc.PushCheck? || Passed(pc) { PushCounts(m, t, pc, ch); }
    else if !pc.Idle? { PopCounts(m, t, pc, ch); }
  }

  // ------------------------------------------------------------------ whole runs

  /** The gate: an admitted popper finds a node for itself on the list. */
  lemma AdmittedSeesTop(s: State)
    requires Inv(s)
    ensures Count(s.ts, Admitted) <= |s.m.list|
    ensures forall t :: 0 <= t < |s.ts| && Admitted(s.ts[t]) ==> s.m.top.node != Null
  {
    forall t | 0 <= t < |s.ts| && Admitted(s.ts[t])
      ensures s.m.top.node != Null
    {
      CountMember(s.ts, t, Admitted);
    }
  }

  lemma StepInv(s: State, t: nat, ch: Choice)
    requires Inv(s) && t < |s.ts|
    ensures Inv(Step(s, t, ch))
  {
    var (m', pc') := Exec(s.m, t, s.ts[t], ch);
    AdmittedSeesTop(s);
    ExecLocal(s.m, t, s.ts[t], ch);
    forall u | 0 <= u < |s.ts| && u != t
      ensures Local(m', u, s.ts[u])
    {
      LocalStable(s.m, m', t, u, s.ts[u]);
    }
    LocalSound(s.m, t, s.ts[t]);
    StepGate(s, t, ch);
  }

  lemma StepGate(s: State, t: nat, ch: Choice)
    requires Gate(s.m, s.ts) && t < |s.ts| && Sound(s.m, s.ts[t])
    ensures var s' := Step(s, t, ch); Gate(s'.m, s'.ts)
  {
    var (m', pc') := Exec(s.m, t, s.ts[t], ch);
    ExecCounts(s.m, t, s.ts[t], ch);
    CountUpdate(s.ts, t, pc', Undoing);
    CountUpdate(s.ts, t, pc', Admitted);
    CountUpdate(s.ts, t, pc', Unpublished);
  }

  lemma PreloadCounts(m: Mem, n: nat)
    ensures var m' := Preload(m, n); m'.count == m.count + 1 && |m'.list| == |m.list| + 1 && m'.kind == m.kind
  {
  }

  lemma PreloadShape(m: Mem, n: nat, m': Mem)
    requires Shape(m) && n !in m.next && m' == Preload(m, n)
    ensures Shape(m')
  {
    NewShape(m, n, 0, 0);
    var m1 := Create(m, n, 0, Hand(0));
    LinkedFrame(m1.top.node, m1.list, m1.next, n, m.top.node);
    var m2 := m1.(next := m1.next[n := m.top.node]);
    assert m2.next.Keys == m1.next.Keys;
    PushShape(m2, n, 0);
  }

  lemma EmptyShape(kind: Kind)
    ensures Shape(Construct(kind, 0))
  {
  }

  lemma {:induction false} ConstructCounts(kind: Kind, k: nat)
    ensures var m := Construct(kind, k); m.count == |m.list| == k && m.kind == kind
  {
    if k == 0 {
    } else {
      ConstructCounts(kind, k - 1);
      PreloadCounts(Construct(kind, k - 1), k - 1);
    }
  }

  /** The constructor's loop leaves a well-linked list of `k` nodes, counted. */
  lemma {:induction false} ConstructShape(kind: Kind, k: nat, m: Mem)
    requires m == Construct(kind, k)
    ensures Shape(m) && m.count == |m.list| == k && m.kind == kind
  {
    ConstructCounts(kind, k);
    if k == 0 {
      EmptyShape(kind);
    } else {
      var m0 := Construct(kind, k - 1);
      ConstructShape(kind, k - 1, m0);
      PreloadShape(m0, k - 1, m);
    }
  }

  lemma InitInv(kind: Kind, threads: nat)
    ensures Inv(Init(kind, threads))
  {
    var s := Init(kind, threads);
    ConstructShape(kind, if kind.Pool? then kind.pooled else 0, s.m);
    CountNone(s.ts, Undoing);
    CountNone(s.ts, Admitted);
    CountNone(s.ts, Unpublished);
  }

  lemma RunInv(s: State, sched: Schedule)
    requires Inv(s)
    ensures Inv(Run(s, sched))
  {
    forall x: State, t: nat, ch: Choice | Inv(x)
      ensures Inv(MoveThread(x, t, ch))
    {
      if t < |x.ts| { StepInv(x, t, ch); }
    }
    Runs.RunKeeps(MoveThread, Inv, s, sched);
  }

  // ---------------------------------------------------------------- main results

  /** The node a thread has in its hands: just popped, or about to be pushed. */
  predicate Holds(pc: Pc, n: nat)
  {
    (pc.PopDone? || pc.PushRead? || pc.PushLink? || pc.PushCas?) && pc.n == n
  }

  lemma HeldIsMine(s: State, t: nat, n: nat)
    requires Inv(s) && t < |s.ts| && Holds(s.ts[t], n)
    ensures Mine(s.m, t, n) && n !in s.m.list && s.m.out[n] == 0
  {
    assert Local(s.m, t, s.ts[t]);
  }

  /** No node is in two places. */
  ghost predicate Exclusive(s: State)
  {
    && (forall i, j :: 0 <= i < j < |s.m.list| ==> s.m.list[i] != s.m.list[j])
    && (forall n :: s.m.out[n] <= 1)
    && (forall n :: n in s.m.list ==> s.m.out[n] == 0)
    && (forall t, n :: 0 <= t < |s.ts| && Holds(s.ts[t], n) ==> n !in s.m.list && s.m.out[n] == 0)
    && (forall t, u, n :: 0 <= t < u < |s.ts| && Holds(s.ts[t], n) ==> !Holds(s.ts[u], n))
  }

  lemma InvExclusive(s: State)
    requires Inv(s)
    ensures Exclusive(s)
  {
    var m := s.m;
    assert HoldersOk(m.list, m.holder, m.out, m.next.Keys);
    forall t, n | 0 <= t < |s.ts| && Holds(s.ts[t], n)
      ensures n !in s.m.list && s.m.out[n] == 0
    {
      HeldIsMine(s, t, n);
    }
    forall t, u, n | 0 <= t < u < |s.ts| && Holds(s.ts[t], n)
      ensures !Holds(s.ts[u], n)
    {
      HeldIsMine(s, t, n);
      if Holds(s.ts[u], n) { HeldIsMine(s, u, n); }
    }
  }

  /** Recycling is safe in every run: no null is followed, the list is what `next`
      says from the top, duplicate-free; a node is outstanding at most once, never
      while it is listed or in a thread's hands, and never in two threads' hands. */
  lemma NoNodeIsShared(kind: Kind, threads: nat, sched: Schedule)
    ensures var s := Run(Init(kind, threads), sched);
      !s.m.fault && Linked(s.m.top.node, s.m.list, s.m.next) && Exclusive(s)
  {
    InitInv(kind, threads);
    RunInv(Init(kind, threads), sched);
    InvExclusive(Run(Init(kind, threads), sched));
  }

  /** Every node in a thread's hand is one that its code is at work on. */
  ghost predicate Claimed(holder: map<nat, Holder>, ts: seq<Pc>)
  {
    forall n :: n in holder && holder[n].Hand? ==> holder[n].t < |ts| && Holds(ts[holder[n].t], n)
  }

  /** What the thread holds is what its code is at work on. */
  ghost predicate OwnClaims(holder: map<nat, Holder>, t: nat, pc: Pc)
  {
    forall n :: n in holder && holder[n] == Hand(t) ==> Holds(pc, n)
  }

  ghost predicate NoNewClaims(holder: map<nat, Holder>, holder': map<nat, Holder>, t: nat)
  {
    forall n :: n in holder' && InOtherHand(holder'[n], t) ==> n in holder && holder[n] == holder'[n]
  }

  lemma TakeClaims(m: Mem, t: nat, pc: Pc, ch: Choice, m': Mem, pc': Pc)
    requires pc.PushTake? && (m', pc') == ExecPush(m, t, pc, ch) && OwnClaims(m.holder, t, pc)
    ensures NoNewClaims(m.holder, m'.holder, t) && OwnClaims(m'.holder, t, pc')
  {
  }

  lemma PushClaims(m: Mem, t: nat, pc: Pc, ch: Choice, m': Mem, pc': Pc)
    requires pc.PushCheck? || pc.PushRead? || pc.PushLink? || pc.PushCas? || pc.PushInc?
    requires (m', pc') == ExecPush(m, t, pc, ch) && OwnClaims(m.holder, t, pc)
    ensures NoNewClaims(m.holder, m'.holder, t) && OwnClaims(m'.holder, t, pc')
  {
  }

  lemma PopClaims(m: Mem, t: nat, pc: Pc, ch: Choice, m': Mem, pc': Pc)
    requires pc.PopGate? || pc.PopUndo? || pc.AllocNew? || pc.PopCount? || pc.PopNode? || pc.PopNext? || pc.PopCas?
          || pc.PopDone?
    requires Sound(m, pc) && (m', pc') == ExecPop(m, t, pc, ch) && OwnClaims(m.holder, t, pc)
    ensures NoNewClaims(m.holder, m'.holder, t) && OwnClaims(m'.holder, t, pc')
  {
  }

  /** A step puts nodes into, and leaves them in, no hand but that of the thread that makes
      it, and there only the one it is at work on. */
  lemma ExecClaims(m: Mem, t: nat, pc: Pc, ch: Choice, m': Mem, pc': Pc)
    requires Sound(m, pc) && (m', pc') == Exec(m, t, pc, ch) && OwnClaims(m.holder, t, pc)
    ensures NoNewClaims(m.holder, m'.holder, t) && OwnClaims(m'.holder, t, pc')
  {
    if pc.Idle? { }
    else if pc.PushTake? { TakeClaims(m, t, pc, ch, m', pc'); }
    else if pc.PushCheck? || pc.PushRead? || pc.PushLink? || pc.PushCas? || pc.PushInc? {
      PushClaims(m, t, pc, ch, m', pc');
    } else { PopClaims(m, t, pc, ch, m', pc'); }
  }

  lemma StepClaimed(s: State, t: nat, ch: Choice)
    requires Inv(s) && Claimed(s.m.holder, s.ts) && t < |s.ts|
    ensures Claimed(Step(s, t, ch).m.holder, Step(s, t, ch).ts)
  {
    var s' := Step(s, t, ch);
    assert Local(s.m, t, s.ts[t]);
    LocalSound(s.m, t, s.ts[t]);
    ExecClaims(s.m, t, s.ts[t], ch, s'.m, s'.ts[t]);
  }

  lemma {:induction false} ConstructClaimed(kind: Kind, k: nat, ts: seq<Pc>)
    ensures Claimed(Construct(kind, k).holder, ts)
  {
    if k == 0 {
    } else {
      ConstructClaimed(kind, k - 1, ts);
    }
  }

  ghost predicate InvClaimed(s: State)
  {
    Inv(s) && Claimed(s.m.holder, s.ts)
  }

  lemma RunClaimed(kind: Kind, threads: nat, sched: Schedule)
    ensures InvClaimed(Run(Init(kind, threads), sched))
  {
    forall x: State, t: nat, ch: Choice | InvClaimed(x)
      ensures InvClaimed(MoveThread(x, t, ch))
    {
      if t < |x.ts| {
        StepInv(x, t, ch);
        StepClaimed(x, t, ch);
      }
    }
    InitInv(kind, threads);
    ConstructClaimed(kind, if kind.Pool? then kind.pooled else 0, Init(kind, threads).ts);
    Runs.RunKeeps(MoveThread, InvClaimed, Init(kind, threads), sched);
  }

  /** No node is lost: in every run each node ever made is on the list, outstanding with a
      client, or being worked on by a thread that is not idle. */
  lemma NoNodeIsLost(kind: Kind, threads: nat, sched: Schedule, n: nat)
    requires n in Run(Init(kind, threads), sched).m.next
    ensures var s := Run(Init(kind, threads), sched);
      n in s.m.list || s.m.out[n] == 1 || exists t :: 0 <= t < |s.ts| && Holds(s.ts[t], n)
  {
    RunClaimed(kind, threads, sched);
    var s := Run(Init(kind, threads), sched);
    assert HoldersOk(s.m.list, s.m.holder, s.m.out, s.m.next.Keys);
    if s.m.holder[n].Hand? {
      assert Holds(s.ts[s.m.holder[n].t], n);
    }
  }

  /** A pop whose compare-and-swap succeeds takes the node on top and installs its true
      successor, however often that node was popped and pushed since it was first read. */
  lemma PopInstallsSuccessor(s: State, t: nat)
    requires Inv(s) && t < |s.ts| && s.ts[t].PopCas?
    requires s.m.top == Node16(At(s.ts[t].n), s.ts[t].c)
    ensures s.m.list != [] && s.ts[t].n == s.m.list[0]
    ensures s.ts[t].x == if |s.m.list| == 1 then Null else At(s.m.list[1])
  {
    assert Local(s.m, t, s.ts[t]);
    assert Linked(s.ts[t].x, s.m.list[1..], s.m.next);
  }

  /** Linearizability: in every run the successful compare-and-swaps, in their order,
      are a legal history of a sequential LIFO stack whose content is the list, and a
      pop returns the value its compare-and-swap took off that stack. */
  lemma StackIsLifo(kind: Kind, threads: nat, sched: Schedule)
    ensures var s := Run(Init(kind, threads), sched);
      && Replay(s.m.hist) == Some(s.m.vals)
      && ValuesOk(s.m.list, s.m.vals, s.m.data)
      && (forall t :: 0 <= t < |s.ts| && s.ts[t].PopDone? ==>
            s.ts[t].n in s.m.data && s.m.data[s.ts[t].n] == s.ts[t].v)
  {
    InitInv(kind, threads);
    RunInv(Init(kind, threads), sched);
    var s := Run(Init(kind, threads), sched);
    forall t | 0 <= t < |s.ts| && s.ts[t].PopDone?
      ensures s.ts[t].n in s.m.data && s.m.data[s.ts[t].n] == s.ts[t].v
    {
      assert Local(s.m, t, s.ts[t]);
    }
  }

  lemma ExecHistory(m: Mem, t: nat, pc: Pc, ch: Choice)
    requires Sound(m, pc)
    ensures var (m', pc') := Exec(m, t, pc, ch);
      || (m'.hist == m.hist && m'.vals == m.vals)
      || (pc.PushCas? && m'.hist == m.hist + [Pushed(pc.v)] && m'.vals == [pc.v] + m.vals)
      || (pc.PopCas? && m.top == Node16(At(pc.n), pc.c) && pc.n in m.data && m.vals != []
          && m'.hist == m.hist + [Popped(m.data[pc.n])] && m'.vals == m.vals[1..] && pc' == PopDone(pc.n, m.data[pc.n]))
  {
  }

  /** Every step acts on the abstract stack as a LIFO stack does: it pushes the argument
      of the call whose node it links, or takes the value on top and goes on to return
      it, or leaves the stack alone. */
  lemma StepRefinesLifo(s: State, t: nat, ch: Choice)
    requires Inv(s) && t < |s.ts|
    ensures var (m, s') := (s.m, Step(s, t, ch));
      || (s'.m.hist == m.hist && s'.m.vals == m.vals)
      || (s.ts[t].PushCas? && s'.m.hist == m.hist + [Pushed(s.ts[t].v)] && s'.m.vals == [s.ts[t].v] + m.vals)
      || (s.ts[t].PopCas? && m.vals != [] && s'.m.hist == m.hist + [Popped(m.vals[0])] && s'.m.vals == m.vals[1..]
          && s'.ts[t] == PopDone(s.ts[t].n, m.vals[0]))
  {
    assert Local(s.m, t, s.ts[t]);
    LocalSound(s.m, t, s.ts[t]);
    ExecHistory(s.m, t, s.ts[t], ch);
    if s.ts[t].PopCas? && s.m.top == Node16(At(s.ts[t].n), s.ts[t].c) {
      PopInstallsSuccessor(s, t);
    }
  }

  ghost predicate Bounded(s: State)
  {
    s.m.kind.Stack? ==>
      s.m.count + Count(s.ts, Undoing) + Count(s.ts, Admitted) + Count(s.ts, Passed)
        <= Max(0, s.m.kind.max - 1 + |s.ts|)
  }

  /** No thread counts twice. */
  lemma RegionsDisjoint(ts: seq<Pc>)
    ensures Count(ts, Undoing) + Count(ts, Admitted) + Count(ts, Passed) <= |ts|
  {
    CountDisjoint(ts, Undoing, Admitted, Passed);
  }

  lemma StepBounded(s: State, t: nat, ch: Choice)
    requires Bounded(s) && t < |s.ts| && Sound(s.m, s.ts[t])
    ensures Bounded(Step(s, t, ch)) && Step(s, t, ch).m.kind == s.m.kind
  {
    var s' := Step(s, t, ch);
    var pc' := s'.ts[t];
    ExecCounts(s.m, t, s.ts[t], ch);
    CountUpdate(s.ts, t, pc', Undoing);
    CountUpdate(s.ts, t, pc', Admitted);
    CountUpdate(s.ts, t, pc', Passed);
    RegionsDisjoint(s'.ts);
  }

  /** Bounded, under the invariant, for a given capacity and number of threads. */
  ghost predicate BoundedBy(s: State, kind: Kind, threads: nat)
  {
    Inv(s) && Bounded(s) && s.m.kind == kind && |s.ts| == threads
  }

  lemma RunBounded(s: State, sched: Schedule)
    requires Inv(s) && Bounded(s)
    ensures BoundedBy(Run(s, sched), s.m.kind, |s.ts|)
  {
    var kind, threads := s.m.kind, |s.ts|;
    forall x: State, t: nat, ch: Choice | BoundedBy(x, kind, threads)
      ensures BoundedBy(MoveThread(x, t, ch), kind, threads)
    {
      if t < |x.ts| {
        StepInv(x, t, ch);
        LocalSound(x.m, t, x.ts[t]);
        StepBounded(x, t, ch);
      }
    }
    Runs.RunKeeps(MoveThread, x => BoundedBy(x, kind, threads), s, sched);
  }

  lemma {:induction false} CountMono(ts: seq<Pc>)
    ensures Count(ts, Unpublished) <= Count(ts, Passed)
  {
    if ts == [] {
    } else {
      CountMono(ts[1..]);
    }
  }

  /** The stack's capacity is soft by at most one element per further thread. */
  lemma SoftCapacity(max: int, threads: nat, sched: Schedule)
    ensures |Run(Init(Stack(max), threads), sched).m.list| <= Max(0, max - 1 + threads)
  {
    var s := Init(Stack(max), threads);
    InitInv(Stack(max), threads);
    CountNone(s.ts, Undoing);
    CountNone(s.ts, Admitted);
    CountNone(s.ts, Passed);
    RunInv(s, sched);
    RunBounded(s, sched);
    CountMono(Run(s, sched).ts);
  }
}
