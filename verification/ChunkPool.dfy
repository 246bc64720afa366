/** The per-thread chunk discipline of TlsObjectPool (CppNetEngine/ObjectPool.h) and
    MemoryPool (CppNetEngine/MemoryPool.h), as a step machine.

    A thread bumps through the slots of its current chunk; slots are freed by any
    thread; the free that completes a chunk resets it and returns it to the chunk
    pool.  The chunk pool itself is the object pool of module CountedStack: an
    allocation returns a chunk that is free or new, in one step.  Clients free each
    pointer at most once. */
module ChunkPool {
  import opened Common
  import Runs
  import opened Threads

  /** A chunk's two counters. */
  datatype Chunk = Chunk(alloc: int, freed: int)

  datatype Slot = Slot(c: nat, i: int)

  datatype Pc =
    | Idle
    // Alloc
    | Enter
    | GetData
    | CheckEmpty(s: Slot)
    | NextChunk(s: Slot)
    | Return(s: Slot)
    // Free
    | CountFree(s: Slot)
    | ResetAlloc(c: nat)
    | ResetFree(c: nat)
    | GiveBack(c: nat)

  /** A thread: its program counter and its thread-local current chunk. */
  datatype Thread = Thread(pc: Pc, cur: Option<nat>)

  /** What the environment decides: whether an idle thread allocates or frees, which
      slot it frees, and which chunk the chunk pool returns. */
  datatype Choice = Choice(allocate: bool, slot: Slot, chunk: nat)

  /** What a chunk is used for. */
  datatype Use = Free | Current(t: nat) | Full | Retired(t: nat)

  /** Who has a slot handed out and not yet counted as freed: a client, a thread inside
      Alloc or Free, or the thread that took a chunk's last slot and has yet to fetch
      its next chunk. */
  datatype Holder = Client | Hand(t: nat) | Last(t: nat)

  /** `chunks` and the pool's `free` set are the program's; `live` counts how often each
      slot is in clients' hands (the program keeps no such record); `use` and `held` are
      history; `nullReturned` records that GetData gave up. */
  datatype Mem = Mem(
    size: int, chunks: map<nat, Chunk>, free: set<nat>, live: multiset<Slot>, nullReturned: bool,
    use: map<nat, Use>, held: map<nat, map<int, Holder>>)

  datatype State = State(m: Mem, ts: seq<Thread>)

  // ---------------------------------------------------------------- the machine

  function Init(size: int, threads: nat): State
  {
    State(Mem(size, map[], {}, multiset{}, false, map[], map[]), seq(threads, _ => Thread(Idle, None)))
  }

  /** ObjectPool<Chunk>::Alloc: a free chunk, as it was given back, or a new one. */
  predicate CanTake(m: Mem, c: nat)
  {
    c in m.free || c !in m.chunks
  }

  /** The chunk's counters, use and slots, replaced together. */
  function Put(m: Mem, c: nat, k: Chunk, u: Use, h: map<int, Holder>): Mem
  {
    m.(chunks := m.chunks[c := k], use := m.use[c := u], held := m.held[c := h])
  }

  function Take(m: Mem, t: nat, c: nat): Mem
  {
    Put(m, c, if c in m.chunks then m.chunks[c] else Chunk(0, 0), Current(t), Held(m, c)).(free := m.free - {c})
  }

  function Held(m: Mem, c: nat): map<int, Holder>
  {
    if c in m.held then m.held[c] else map[]
  }

  function UseOf(m: Mem, c: nat): Use
  {
    if c in m.use then m.use[c] else Full
  }

  /** Chunk::GetData takes the next slot. */
  function Bump(m: Mem, t: nat, c: nat): Mem
    requires c in m.chunks
  {
    var k := m.chunks[c];
    var h := if k.alloc == m.size - 1 then Last(t) else Hand(t);
    Put(m, c, k.(alloc := k.alloc + 1), UseOf(m, c), Held(m, c)[k.alloc := h])
  }

  /** A slot changes hands. */
  function Transfer(m: Mem, s: Slot, h: Holder): Mem
  {
    m.(held := m.held[s.c := Held(m, s.c)[s.i := h]])
  }

  /** The thread that took the last slot of a chunk lets go of the chunk. */
  function Fill(m: Mem, t: nat, s: Slot): Mem
  {
    Transfer(m, s, Hand(t)).(use := m.use[s.c := Full])
  }

  function ExecAlloc(m: Mem, t: nat, th: Thread, ch: Choice): (Mem, Thread)
    requires th.pc.Enter? || th.pc.GetData? || th.pc.CheckEmpty? || th.pc.NextChunk? || th.pc.Return?
  {
    match th.pc
    case Enter =>
      if th.cur.Some? then (m, th.(pc := GetData))
      else if CanTake(m, ch.chunk) then (Take(m, t, ch.chunk), Thread(GetData, Some(ch.chunk)))
      else (m, th)
    case GetData =>
      if th.cur.None? || th.cur.value !in m.chunks || m.chunks[th.cur.value].alloc >= m.size
      then (m.(nullReturned := true), th.(pc := Idle))
      else
        var c := th.cur.value;
        (Bump(m, t, c), th.(pc := CheckEmpty(Slot(c, m.chunks[c].alloc))))
    case CheckEmpty(s) =>
      (m, th.(pc := if s.c in m.chunks && m.chunks[s.c].alloc == m.size then NextChunk(s) else Return(s)))
    case NextChunk(s) =>
      if CanTake(m, ch.chunk)
      then (Take(Fill(m, t, s), t, ch.chunk), Thread(Return(s), Some(ch.chunk)))
      else (m, th)
    case Return(s) =>
      (Transfer(m, s, Client).(live := m.live + multiset{s}), th.(pc := Idle))
  }

  /** Chunk::FreeWithIsAllFreed counts one more free. */
  function Drop(m: Mem, t: nat, s: Slot): Mem
    requires s.c in m.chunks
  {
    var k := m.chunks[s.c];
    Put(m, s.c, k.(freed := k.freed + 1), if k.freed == m.size - 1 then Retired(t) else UseOf(m, s.c),
        Held(m, s.c) - {s.i})
  }

  function ExecFree(m: Mem, t: nat, th: Thread): (Mem, Thread)
    requires th.pc.CountFree? || th.pc.ResetAlloc? || th.pc.ResetFree? || th.pc.GiveBack?
  {
    match th.pc
    case CountFree(s) =>
      if s.c !in m.chunks then (m, th.(pc := Idle))
      else
        (Drop(m, t, s), th.(pc := if m.chunks[s.c].freed == m.size - 1 then ResetAlloc(s.c) else Idle))
    case ResetAlloc(c) =>
      (if c in m.chunks then m.(chunks := m.chunks[c := m.chunks[c].(alloc := 0)]) else m, th.(pc := ResetFree(c)))
    case ResetFree(c) =>
      (if c in m.chunks then m.(chunks := m.chunks[c := m.chunks[c].(freed := 0)]) else m, th.(pc := GiveBack(c)))
    case GiveBack(c) =>
      (m.(free := m.free + {c}, use := m.use[c := Free]), th.(pc := Idle))
  }

  function Exec(m: Mem, t: nat, th: Thread, ch: Choice): (Mem, Thread)
  {
    if th.pc.Idle? then
      if ch.allocate then (m, th.(pc := Enter))
      else if m.live[ch.slot] == 0 then (m, th)  // only pointers in a client's hands are freed
      else
        (Transfer(m, ch.slot, Hand(t)).(live := m.live - multiset{ch.slot}), th.(pc := CountFree(ch.slot)))
    else if th.pc.Enter? || th.pc.GetData? || th.pc.CheckEmpty? || th.pc.NextChunk? || th.pc.Return?
    then ExecAlloc(m, t, th, ch)
    else ExecFree(m, t, th)
  }

  function Step(s: State, t: nat, ch: Choice): (s': State)
    requires t < |s.ts|
    ensures |s'.ts| == |s.ts|
  {
    var (m', th') := Exec(s.m, t, s.ts[t], ch);
    State(m', s.ts[t := th'])
  }

  type Schedule = seq<(nat, Choice)>

  /** A thread that does not exist does not move. */
  function MoveThread(s: State, t: nat, ch: Choice): (s': State)
    ensures |s'.ts| == |s.ts|
  {
    if t < |s.ts| then Step(s, t, ch) else s
  }

  ghost function Run(s: State, sched: Schedule): (s': State)
  {
    Runs.Run(MoveThread, s, sched)
  }

  // ---------------------------------------------------------------- the invariant

  /** The books of one chunk: the slots handed out in this generation are those below
      `alloc`; each is either still held by someone or counted in `freed`. */
  ghost predicate BooksOk(size: int, k: Chunk, u: Use, held: map<int, Holder>)
  {
    match u
    case Free => k == Chunk(0, 0) && held == map[]
    case Current(t) =>
      && 0 <= k.alloc <= size && 0 <= k.freed && |held| + k.freed == k.alloc
      && (forall i :: i in held ==> 0 <= i < k.alloc)
      && (k.alloc == size ==> size - 1 in held && held[size - 1] == Last(t))
    case Full =>
      && k.alloc == size && 0 <= k.freed < size && |held| + k.freed == k.alloc
      && (forall i :: i in held ==> 0 <= i < k.alloc)
    case Retired(_) => held == map[]
  }

  ghost predicate Books(size: int, chunks: map<nat, Chunk>, use: map<nat, Use>, held: map<nat, map<int, Holder>>)
  {
    && use.Keys == chunks.Keys == held.Keys
    && (forall c :: c in chunks ==> BooksOk(size, chunks[c], use[c], held[c]))
  }

  ghost predicate FreeOk(free: set<nat>, use: map<nat, Use>)
  {
    forall c :: c in free <==> c in use && use[c] == Free
  }

  ghost predicate LiveOk(live: multiset<Slot>, held: map<nat, map<int, Holder>>)
  {
    forall s: Slot :: live[s] == if s.c in held && s.i in held[s.c] && held[s.c][s.i] == Client then 1 else 0
  }

  ghost predicate Shape(m: Mem)
  {
    && !m.nullReturned
    && m.size >= 1
    && Books(m.size, m.chunks, m.use, m.held)
    && FreeOk(m.free, m.use)
    && LiveOk(m.live, m.held)
  }

  ghost predicate HeldBy(m: Mem, s: Slot, h: Holder)
  {
    s.c in m.held && s.i in m.held[s.c] && m.held[s.c][s.i] == h
  }

  ghost predicate Uses(m: Mem, c: nat, u: Use)
  {
    c in m.use && m.use[c] == u
  }

  /** A thread's current chunk is its own and has room, except while the thread is
      between taking the last slot and fetching the next chunk. */
  ghost predicate Local(m: Mem, t: nat, th: Thread)
  {
    && (th.cur.Some? ==> Uses(m, th.cur.value, Current(t)))
    && match th.pc
       case Idle => HasRoom(m, th)
       case Enter => HasRoom(m, th)
       case GetData => HasRoom(m, th) && th.cur.Some?
       case CheckEmpty(s) =>
         && th.cur == Some(s.c) && s.c in m.chunks && m.chunks[s.c].alloc == s.i + 1 <= m.size
         && HeldBy(m, s, if s.i == m.size - 1 then Last(t) else Hand(t))
       case NextChunk(s) =>
         HeldBy(m, s, Last(t)) && th.cur == Some(s.c) && s.c in m.chunks && m.chunks[s.c].alloc == m.size == s.i + 1
       case Return(s) => HeldBy(m, s, Hand(t)) && HasRoom(m, th)
       case CountFree(s) => HeldBy(m, s, Hand(t)) && HasRoom(m, th)
       case ResetAlloc(c) => HasRoom(m, th) && Uses(m, c, Retired(t))
       case ResetFree(c) => HasRoom(m, th) && Uses(m, c, Retired(t)) && c in m.chunks && m.chunks[c].alloc == 0
       case GiveBack(c) => HasRoom(m, th) && Uses(m, c, Retired(t)) && c in m.chunks && m.chunks[c] == Chunk(0, 0)
  }

  ghost predicate HasRoom(m: Mem, th: Thread)
  {
    th.cur.Some? ==> th.cur.value in m.chunks && m.chunks[th.cur.value].alloc < m.size
  }

  ghost predicate Inv(s: State)
  {
    && Shape(s.m)
    && (forall t :: 0 <= t < |s.ts| ==> Local(s.m, t, s.ts[t]))
  }

  predicate OfOther(u: Use, t: nat)
  {
    (u.Current? || u.Retired?) && u.t != t
  }

  predicate InOtherHand(h: Holder, t: nat)
  {
    !h.Client? && h.t != t
  }

  ghost predicate KeepsUse(use: map<nat, Use>, use': map<nat, Use>, t: nat)
  {
    forall c :: c in use && OfOther(use[c], t) ==> c in use' && use'[c] == use[c]
  }

  ghost predicate KeepsChunks(use: map<nat, Use>, chunks: map<nat, Chunk>, chunks': map<nat, Chunk>, t: nat)
  {
    forall c :: c in use && c in chunks && OfOther(use[c], t) ==>
      c in chunks' && chunks'[c].alloc == chunks[c].alloc && (use[c].Retired? ==> chunks'[c] == chunks[c])
  }

  ghost predicate KeepsHeld(held: map<nat, map<int, Holder>>, held': map<nat, map<int, Holder>>, t: nat)
  {
    forall c, i :: c in held && i in held[c] && InOtherHand(held[c][i], t) ==>
      c in held' && i in held'[c] && held'[c][i] == held[c][i]
  }

  /** What a step of thread `t` leaves intact for the other threads: the chunks they
      use or retire, with their slot counter, and the slots in their hands. */
  ghost predicate Keeps(m: Mem, m': Mem, t: nat)
  {
    && m'.size == m.size
    && KeepsUse(m.use, m'.use, t)
    && KeepsChunks(m.use, m.chunks, m'.chunks, t)
    && KeepsHeld(m.held, m'.held, t)
  }

  lemma LocalStable(m: Mem, m': Mem, t: nat, u: nat, th: Thread)
    requires Keeps(m, m', t) && u != t
    requires Local(m, u, th)
    ensures Local(m', u, th)
  {
  }

  /** A new use of a chunk whose books balance keeps all books balanced. */
  lemma PutShape(m: Mem, c: nat, k: Chunk, u: Use, h: map<int, Holder>)
    requires Books(m.size, m.chunks, m.use, m.held) && BooksOk(m.size, k, u, h)
    ensures var m' := Put(m, c, k, u, h); Books(m'.size, m'.chunks, m'.use, m'.held)
  {
  }

  lemma TakeShape(m: Mem, t: nat, c: nat)
    requires Shape(m) && CanTake(m, c)
    ensures var m' := Take(m, t, c);
      && m' == Put(m, c, Chunk(0, 0), Current(t), map[]).(free := m.free - {c})
      && Shape(m')
  {
    assert c in m.chunks ==> BooksOk(m.size, m.chunks[c], Free, m.held[c]);
    PutShape(m, c, Chunk(0, 0), Current(t), map[]);
  }

  lemma TakeKeeps(m: Mem, t: nat, c: nat)
    requires c in m.held ==> m.held[c] == map[]
    requires c in m.use ==> m.use[c] == Free
    ensures var m' := Put(m, c, Chunk(0, 0), Current(t), map[]).(free := m.free - {c});
      Keeps(m, m', t) && forall s, h :: HeldBy(m, s, h) ==> HeldBy(m', s, h)
  {
  }

  /** A free or new chunk has no slot out and nobody's use. */
  lemma CanTakeIdle(m: Mem, c: nat)
    requires Shape(m) && CanTake(m, c)
    ensures c in m.held ==> m.held[c] == map[]
    ensures c in m.use ==> m.use[c] == Free
  {
    assert c in m.chunks ==> BooksOk(m.size, m.chunks[c], m.use[c], m.held[c]);
  }

  lemma KeepsSame(m: Mem, t: nat)
    ensures Keeps(m, m, t)
  {
  }

  lemma EnterLocal(m: Mem, t: nat, th: Thread, ch: Choice)
    requires Shape(m) && Local(m, t, th) && th.pc.Enter?
    ensures var (m', th') := ExecAlloc(m, t, th, ch); Shape(m') && Keeps(m, m', t) && Local(m', t, th')
  {
    KeepsSame(m, t);
    if th.cur.None? && CanTake(m, ch.chunk) {
      CanTakeIdle(m, ch.chunk);
      TakeShape(m, t, ch.chunk);
      TakeKeeps(m, t, ch.chunk);
    }
  }

  lemma BumpBooks(size: int, k: Chunk, t: nat, held: map<int, Holder>, h: Holder)
    requires BooksOk(size, k, Current(t), held) && k.alloc < size && (k.alloc == size - 1 ==> h == Last(t))
    ensures k.alloc !in held && BooksOk(size, k.(alloc := k.alloc + 1), Current(t), held[k.alloc := h])
  {
    if k.alloc in held {  // every slot handed out is below alloc
      assert false;
    }
    var held' := held[k.alloc := h];
    assert |held'| == |held| + 1;
    assert k.alloc == size - 1 ==> held'[size - 1] == Last(t);
  }

  /** Handing out slot `alloc` balances the books: it was not handed out before. */
  lemma GetDataShape(m: Mem, t: nat, c: nat)
    requires Shape(m) && Uses(m, c, Current(t)) && m.chunks[c].alloc < m.size
    ensures Shape(Bump(m, t, c)) && Keeps(m, Bump(m, t, c), t)
    ensures Uses(Bump(m, t, c), c, Current(t))
  {
    var k := m.chunks[c];
    var h := if k.alloc == m.size - 1 then Last(t) else Hand(t);
    assert BooksOk(m.size, k, Current(t), m.held[c]);
    BumpBooks(m.size, k, t, m.held[c], h);
    PutShape(m, c, k.(alloc := k.alloc + 1), Current(t), m.held[c][k.alloc := h]);
    BumpLive(m.live, m.held, c, k.alloc, h);
    BumpKeeps(m, t, c);
    assert m.use[c := Current(t)] == m.use;
  }

  lemma BumpKeeps(m: Mem, t: nat, c: nat)
    requires c in m.chunks && Uses(m, c, Current(t)) && c in m.held && m.chunks[c].alloc !in m.held[c]
    ensures Keeps(m, Bump(m, t, c), t)
  {
  }

  lemma BumpLive(live: multiset<Slot>, held: map<nat, map<int, Holder>>, c: nat, i: int, h: Holder)
    requires LiveOk(live, held) && c in held && i !in held[c] && h != Client
    ensures LiveOk(live, held[c := held[c][i := h]])
  {
  }

  lemma GetDataLocal(m: Mem, t: nat, th: Thread, ch: Choice)
    requires Shape(m) && Local(m, t, th) && th.pc.GetData?
    ensures var (m', th') := ExecAlloc(m, t, th, ch); Shape(m') && Keeps(m, m', t) && Local(m', t, th')
  {
    GetDataShape(m, t, th.cur.value);
    assert ExecAlloc(m, t, th, ch).0 == Bump(m, t, th.cur.value);
  }

  /** A slot that changes hands, other than a last one, leaves the books balanced. */
  lemma TransferBooks(m: Mem, s: Slot, h: Holder)
    requires Shape(m) && s.c in m.held && s.i in m.held[s.c] && !m.held[s.c][s.i].Last?
    ensures var m' := Transfer(m, s, h); Books(m'.size, m'.chunks, m'.use, m'.held)
  {
    var c := s.c;
    var held' := m.held[c][s.i := h];
    assert held'.Keys == m.held[c].Keys;
    assert |held'| == |held'.Keys| && |m.held[c]| == |m.held[c].Keys|;
    assert BooksOk(m.size, m.chunks[c], m.use[c], m.held[c]);
    assert BooksOk(m.size, m.chunks[c], m.use[c], held');
  }

  lemma TransferKeeps(m: Mem, t: nat, s: Slot, h: Holder)
    requires HeldBy(m, s, Client) || HeldBy(m, s, Hand(t)) || HeldBy(m, s, Last(t))
    ensures Keeps(m, Transfer(m, s, h), t)
  {
  }

  lemma TransferLive(live: multiset<Slot>, held: map<nat, map<int, Holder>>, s: Slot, t: nat)
    requires LiveOk(live, held) && s.c in held && s.i in held[s.c]
    ensures held[s.c][s.i] != Client ==> LiveOk(live + multiset{s}, held[s.c := held[s.c][s.i := Client]])
    ensures held[s.c][s.i] != Client ==> LiveOk(live, held[s.c := held[s.c][s.i := Hand(t)]])
    ensures held[s.c][s.i] == Client ==> LiveOk(live - multiset{s}, held[s.c := held[s.c][s.i := Hand(t)]])
  {
  }

  /** The chunk whose last slot was taken is not yet wholly freed. */
  lemma FillShape(m: Mem, t: nat, s: Slot)
    requires Shape(m) && Uses(m, s.c, Current(t)) && HeldBy(m, s, Last(t)) && m.chunks[s.c].alloc == m.size
    ensures var m1 := Fill(m, t, s); Shape(m1) && HeldBy(m1, s, Hand(t))
  {
    var c := s.c;
    var held' := m.held[c][s.i := Hand(t)];
    assert held'.Keys == m.held[c].Keys;
    assert |held'| == |held'.Keys| && |m.held[c]| == |m.held[c].Keys|;
    assert BooksOk(m.size, m.chunks[c], Current(t), m.held[c]);
    assert s.i in held'.Keys && |held'| > 0;
    assert BooksOk(m.size, m.chunks[c], Full, held');
    PutShape(m, c, m.chunks[c], Full, held');
    assert Put(m, c, m.chunks[c], Full, held').chunks == m.chunks;
    TransferLive(m.live, m.held, s, t);
  }

  lemma FillKeeps(m: Mem, t: nat, s: Slot)
    requires Uses(m, s.c, Current(t)) && HeldBy(m, s, Last(t))
    ensures Keeps(m, Fill(m, t, s), t)
  {
  }

  lemma NextChunkLocal(m: Mem, t: nat, th: Thread, ch: Choice)
    requires Shape(m) && Local(m, t, th) && th.pc.NextChunk?
    ensures var (m', th') := ExecAlloc(m, t, th, ch); Shape(m') && Keeps(m, m', t) && Local(m', t, th')
  {
    var s := th.pc.s;
    KeepsSame(m, t);
    if CanTake(m, ch.chunk) {
      var m1 := Fill(m, t, s);
      FillShape(m, t, s);
      FillKeeps(m, t, s);
      CanTakeIdle(m1, ch.chunk);
      TakeShape(m1, t, ch.chunk);
      TakeKeeps(m1, t, ch.chunk);
      KeepsTrans(m, m1, Take(m1, t, ch.chunk), t);
    }
  }

  lemma KeepsTrans(m: Mem, m1: Mem, m2: Mem, t: nat)
    requires Keeps(m, m1, t) && Keeps(m1, m2, t)
    ensures Keeps(m, m2, t)
  {
  }

  lemma ReturnShape(m: Mem, t: nat, s: Slot)
    requires Shape(m) && HeldBy(m, s, Hand(t))
    ensures var m' := Transfer(m, s, Client).(live := m.live + multiset{s}); Shape(m') && Keeps(m, m', t)
  {
    TransferBooks(m, s, Client);
    TransferKeeps(m, t, s, Client);
    TransferLive(m.live, m.held, s, t);
  }

  lemma ReturnLocal(m: Mem, t: nat, th: Thread, ch: Choice)
    requires Shape(m) && Local(m, t, th) && th.pc.Return?
    ensures var (m', th') := ExecAlloc(m, t, th, ch); Shape(m') && Keeps(m, m', t) && Local(m', t, th')
  {
    ReturnShape(m, t, th.pc.s);
  }

  lemma SurrenderLocal(m: Mem, t: nat, th: Thread, s: Slot)
    requires Shape(m) && Local(m, t, th) && th.pc.Idle? && m.live[s] > 0
    ensures var m' := Transfer(m, s, Hand(t)).(live := m.live - multiset{s});
      Shape(m') && Keeps(m, m', t) && Local(m', t, th.(pc := CountFree(s)))
  {
    TransferBooks(m, s, Hand(t));
    TransferKeeps(m, t, s, Hand(t));
    TransferLive(m.live, m.held, s, t);
  }

  /** Counting a free balances the books.  The free that completes the count finds all
      slots handed out and no other one still held: the chunk is nobody's current. */
  lemma CountFreeBooks(size: int, k: Chunk, u: Use, held: map<int, Holder>, i: int, t: nat)
    requires BooksOk(size, k, u, held) && size >= 1 && i in held && held[i] == Hand(t)
    ensures var k' := k.(freed := k.freed + 1);
      if k.freed == size - 1
      then u == Full && k.alloc == size && held.Keys == {i} && BooksOk(size, k', Retired(t), held - {i})
      else BooksOk(size, k', u, held - {i})
  {
    var held' := held - {i};
    assert held'.Keys == held.Keys - {i};
    assert |held.Keys| == |held| && |held'.Keys| == |held'| == |held| - 1;
    if k.freed == size - 1 {
      assert k.alloc == size && |held'| == 0;
      assert held.Keys == {i} + held'.Keys;
    }
  }

  lemma CountFreeLive(live: multiset<Slot>, held: map<nat, map<int, Holder>>, s: Slot)
    requires LiveOk(live, held) && s.c in held && s.i in held[s.c] && held[s.c][s.i] != Client
    ensures LiveOk(live, held[s.c := held[s.c] - {s.i}])
  {
  }

  lemma CountFreeKeeps(m: Mem, t: nat, s: Slot, u: Use)
    requires s.c in m.chunks && HeldBy(m, s, Hand(t))
    requires s.c in m.use && (u == m.use[s.c] || m.use[s.c] == Full)
    requires !m.use[s.c].Retired?
    ensures Keeps(m, Put(m, s.c, m.chunks[s.c].(freed := m.chunks[s.c].freed + 1), u, Held(m, s.c) - {s.i}), t)
  {
    assert KeepsHeld(m.held, m.held[s.c := m.held[s.c] - {s.i}], t);
  }

  lemma DropBooks(m: Mem, t: nat, s: Slot)
    requires Books(m.size, m.chunks, m.use, m.held) && m.size >= 1 && HeldBy(m, s, Hand(t))
    ensures var m' := Drop(m, t, s); Books(m'.size, m'.chunks, m'.use, m'.held)
    ensures m.use[s.c].Current? || m.use[s.c] == Full
    ensures m.chunks[s.c].freed == m.size - 1 ==> m.use[s.c] == Full
  {
    var k, u := m.chunks[s.c], m.use[s.c];
    CountFreeBooks(m.size, k, u, m.held[s.c], s.i, t);
    PutShape(m, s.c, k.(freed := k.freed + 1), if k.freed == m.size - 1 then Retired(t) else u, m.held[s.c] - {s.i});
  }

  lemma FreeOkKept(free: set<nat>, use: map<nat, Use>, c: nat, u: Use)
    requires FreeOk(free, use) && c in use && use[c] != Free && u != Free
    ensures FreeOk(free, use[c := u])
  {
  }

  lemma DropShape(m: Mem, t: nat, s: Slot)
    requires Shape(m) && HeldBy(m, s, Hand(t))
    ensures Shape(Drop(m, t, s))
  {
    DropBooks(m, t, s);
    CountFreeLive(m.live, m.held, s);
    FreeOkKept(m.free, m.use, s.c, if m.chunks[s.c].freed == m.size - 1 then Retired(t) else m.use[s.c]);
  }

  lemma DropKeeps(m: Mem, t: nat, s: Slot)
    requires Shape(m) && HeldBy(m, s, Hand(t))
    ensures Keeps(m, Drop(m, t, s), t)
  {
    DropBooks(m, t, s);
    CountFreeKeeps(m, t, s, if m.chunks[s.c].freed == m.size - 1 then Retired(t) else m.use[s.c]);
  }

  lemma CountFreeLocal(m: Mem, t: nat, th: Thread)
    requires Shape(m) && Local(m, t, th) && th.pc.CountFree?
    ensures var (m', th') := ExecFree(m, t, th); Shape(m') && Keeps(m, m', t) && Local(m', t, th')
  {
    DropShape(m, t, th.pc.s);
    DropKeeps(m, t, th.pc.s);
  }

  lemma ResetLocal(m: Mem, t: nat, th: Thread)
    requires Shape(m) && Local(m, t, th) && (th.pc.ResetAlloc? || th.pc.ResetFree?)
    ensures var (m', th') := ExecFree(m, t, th); Shape(m') && Keeps(m, m', t) && Local(m', t, th')
  {
    var m' := ExecFree(m, t, th).0;
    assert BooksOk(m.size, m.chunks[th.pc.c], m.use[th.pc.c], m.held[th.pc.c]);
    assert Books(m'.size, m'.chunks, m'.use, m'.held);
  }

  lemma GiveBackLocal(m: Mem, t: nat, th: Thread)
    requires Shape(m) && Local(m, t, th) && th.pc.GiveBack?
    ensures var (m', th') := ExecFree(m, t, th); Shape(m') && Keeps(m, m', t) && Local(m', t, th')
  {
    var m' := ExecFree(m, t, th).0;
    assert BooksOk(m.size, m.chunks[th.pc.c], m.use[th.pc.c], m.held[th.pc.c]);
    assert Books(m'.size, m'.chunks, m'.use, m'.held);
  }

  lemma ExecLocal(m: Mem, t: nat, th: Thread, ch: Choice)
    requires Shape(m) && Local(m, t, th)
    ensures var (m', th') := Exec(m, t, th, ch); Shape(m') && Keeps(m, m', t) && Local(m', t, th')
  {
    KeepsSame(m, t);
    if th.pc.Idle? {
      if !ch.allocate && m.live[ch.slot] > 0 { SurrenderLocal(m, t, th, ch.slot); }
    }
    else if th.pc.Enter? { EnterLocal(m, t, th, ch); }
    else if th.pc.GetData? { GetDataLocal(m, t, th, ch); }
    else if th.pc.CheckEmpty? { }
    else if th.pc.NextChunk? { NextChunkLocal(m, t, th, ch); }
    else if th.pc.Return? { ReturnLocal(m, t, th, ch); }
    else if th.pc.CountFree? { CountFreeLocal(m, t, th); }
    else if th.pc.GiveBack? { GiveBackLocal(m, t, th); }
    else { ResetLocal(m, t, th); }
  }

  // ------------------------------------------------------------------ whole runs

  lemma StepInv(s: State, t: nat, ch: Choice)
    requires Inv(s) && t < |s.ts|
    ensures Inv(Step(s, t, ch))
  {
    var (m', th') := Exec(s.m, t, s.ts[t], ch);
    ExecLocal(s.m, t, s.ts[t], ch);
    forall u | 0 <= u < |s.ts| && u != t
      ensures Local(m', u, s.ts[u])
    {
      LocalStable(s.m, m', t, u, s.ts[u]);
    }
  }

  lemma RunInv(s: State, sched: Schedule)
    requires Inv(s)
    ensures Inv(Run(s, sched)) && Run(s, sched).m.size == s.m.size
  {
    var size := s.m.size;
    forall x: State, t: nat, ch: Choice | Inv(x) && x.m.size == size
      ensures Inv(MoveThread(x, t, ch)) && MoveThread(x, t, ch).m.size == size
    {
      if t < |x.ts| {
        StepInv(x, t, ch);
        ExecLocal(x.m, t, x.ts[t], ch);
      }
    }
    Runs.RunKeeps(MoveThread, x => Inv(x) && x.m.size == size, s, sched);
  }

  // ---------------------------------------------------------------- main results

  /** A slot inside Alloc or Free: about to be returned, or not yet counted as freed. */
  predicate Holds(th: Thread, s: Slot)
  {
    (th.pc.CheckEmpty? || th.pc.NextChunk? || th.pc.Return? || th.pc.CountFree?) && th.pc.s == s
  }

  lemma HeldOnce(s: State, t: nat, x: Slot)
    requires Inv(s) && t < |s.ts| && Holds(s.ts[t], x)
    ensures HeldBy(s.m, x, Hand(t)) || HeldBy(s.m, x, Last(t))
    ensures s.m.live[x] == 0 && x.c !in s.m.free
  {
    assert Local(s.m, t, s.ts[t]);
    assert BooksOk(s.m.size, s.m.chunks[x.c], s.m.use[x.c], s.m.held[x.c]);
  }

  /** No two live allocations share a slot. */
  ghost predicate Exclusive(s: State)
  {
    && (forall x :: s.m.live[x] <= 1)
    && (forall x :: s.m.live[x] > 0 ==> x.c in s.m.chunks && 0 <= x.i < s.m.chunks[x.c].alloc && x.c !in s.m.free)
    && (forall t, x :: 0 <= t < |s.ts| && Holds(s.ts[t], x) ==> s.m.live[x] == 0)
    && (forall t, u, x :: 0 <= t < u < |s.ts| && Holds(s.ts[t], x) ==> !Holds(s.ts[u], x))
  }

  lemma LiveSlot(m: Mem, x: Slot)
    requires Shape(m) && m.live[x] > 0
    ensures x.c in m.chunks && 0 <= x.i < m.chunks[x.c].alloc && x.c !in m.free && m.held[x.c] != map[]
  {
    assert BooksOk(m.size, m.chunks[x.c], m.use[x.c], m.held[x.c]);
  }

  lemma InvExclusive(s: State)
    requires Inv(s)
    ensures Exclusive(s)
  {
    forall x | s.m.live[x] > 0
      ensures x.c in s.m.chunks && 0 <= x.i < s.m.chunks[x.c].alloc && x.c !in s.m.free
    {
      LiveSlot(s.m, x);
    }
    forall t, x | 0 <= t < |s.ts| && Holds(s.ts[t], x)
      ensures s.m.live[x] == 0
    {
      HeldOnce(s, t, x);
    }
    forall t, u, x | 0 <= t < u < |s.ts| && Holds(s.ts[t], x)
      ensures !Holds(s.ts[u], x)
    {
      HeldOnce(s, t, x);
      if Holds(s.ts[u], x) { HeldOnce(s, u, x); }
    }
  }

  /** In every run, over all chunk generations: GetData never returns null, a slot is in
      clients' hands at most once, never while a thread is still returning or freeing
      it, never beyond what its chunk handed out, and never in a chunk that is free. */
  lemma LiveAllocationsNeverShare(size: int, threads: nat, sched: Schedule)
    requires size >= 1
    ensures var s := Run(Init(size, threads), sched); !s.m.nullReturned && Exclusive(s)
  {
    RunInv(Init(size, threads), sched);
    InvExclusive(Run(Init(size, threads), sched));
  }

  /** A free that answers "all freed" finds that all `size` slots of this generation
      were handed out, that no slot but its own is held by anyone, and that no thread
      has the chunk as its current one. */
  lemma LastFreeIsLast(s: State, t: nat)
    requires Inv(s) && t < |s.ts| && s.ts[t].pc.CountFree?
    requires s.ts[t].pc.s.c in s.m.chunks && s.m.chunks[s.ts[t].pc.s.c].freed == s.m.size - 1
    ensures var c := s.ts[t].pc.s.c;
      && s.m.chunks[c].alloc == s.m.size
      && (forall x: Slot :: x.c == c && x != s.ts[t].pc.s ==>
            s.m.live[x] == 0 && forall u :: 0 <= u < |s.ts| ==> !Holds(s.ts[u], x))
      && (forall u :: 0 <= u < |s.ts| ==> s.ts[u].cur != Some(c))
  {
    var x0 := s.ts[t].pc.s;
    assert Local(s.m, t, s.ts[t]);
    CountFreeBooks(s.m.size, s.m.chunks[x0.c], s.m.use[x0.c], s.m.held[x0.c], x0.i, t);
    forall x: Slot, u | x.c == x0.c && x != x0 && 0 <= u < |s.ts|
      ensures !Holds(s.ts[u], x)
    {
      if Holds(s.ts[u], x) { HeldOnce(s, u, x); }
    }
    forall u | 0 <= u < |s.ts|
      ensures s.ts[u].cur != Some(x0.c)
    {
      assert Local(s.m, u, s.ts[u]);
    }
  }

  /** While a chunk is being reset and given back, nobody has a slot of it and nobody
      has it as the current chunk; a chunk in the pool has zero counters. */
  lemma ResetIsUndisturbed(s: State, t: nat, c: nat)
    requires Inv(s) && t < |s.ts|
    requires s.ts[t].pc == ResetAlloc(c) || s.ts[t].pc == ResetFree(c) || s.ts[t].pc == GiveBack(c)
    ensures forall x: Slot :: x.c == c ==> s.m.live[x] == 0 && forall u :: 0 <= u < |s.ts| ==> !Holds(s.ts[u], x)
    ensures forall u :: 0 <= u < |s.ts| ==> s.ts[u].cur != Some(c)
    ensures forall f :: f in s.m.free ==> f in s.m.chunks && s.m.chunks[f] == Chunk(0, 0)
  {
    assert Local(s.m, t, s.ts[t]);
    assert BooksOk(s.m.size, s.m.chunks[c], s.m.use[c], s.m.held[c]);
    forall x: Slot, u | x.c == c && 0 <= u < |s.ts|
      ensures !Holds(s.ts[u], x)
    {
      if Holds(s.ts[u], x) { HeldOnce(s, u, x); }
    }
    forall u | 0 <= u < |s.ts|
      ensures s.ts[u].cur != Some(c)
    {
      assert Local(s.m, u, s.ts[u]);
    }
    forall f | f in s.m.free
      ensures f in s.m.chunks && s.m.chunks[f] == Chunk(0, 0)
    {
      assert BooksOk(s.m.size, s.m.chunks[f], s.m.use[f], s.m.held[f]);
    }
  }
}
