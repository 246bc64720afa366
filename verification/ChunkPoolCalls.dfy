/** What becomes of the chunks and slots of module ChunkPool: none is lost, and a call that
    no other thread disturbs comes to its end. */
module ChunkPoolCalls {
  import opened Common
  import Runs
  import opened Threads
  import opened ChunkPool

  // ---------------------------------------------------------------- nothing is lost

  /** The thread is resetting chunk `c` or giving it back. */
  predicate Retires(th: Thread, c: nat)
  {
    th.pc == ResetAlloc(c) || th.pc == ResetFree(c) || th.pc == GiveBack(c)
  }

  /** What a chunk's use says of a thread is so. */
  predicate UseHolds(u: Use, c: nat, t: nat, th: Thread)
  {
    (u == Current(t) ==> th.cur == Some(c)) && (u == Retired(t) ==> Retires(th, c))
  }

  /** What a slot's holder says of a thread is so. */
  predicate HolderHolds(h: Holder, x: Slot, t: nat, th: Thread)
  {
    h == Hand(t) || h == Last(t) ==> Holds(th, x)
  }

  ghost predicate UsesHeld(use: map<nat, Use>, t: nat, th: Thread)
  {
    forall c :: c in use ==> UseHolds(use[c], c, t, th)
  }

  ghost predicate SlotsHeld(held: map<nat, map<int, Holder>>, t: nat, th: Thread)
  {
    forall c, i :: c in held && i in held[c] ==> HolderHolds(held[c][i], Slot(c, i), t, th)
  }

  /** No use names a thread that does not exist. */
  ghost predicate UsersExist(use: map<nat, Use>, threads: nat)
  {
    forall c :: c in use ==> (use[c].Current? || use[c].Retired? ==> use[c].t < threads)
  }

  ghost predicate HoldersExist(held: map<nat, map<int, Holder>>, threads: nat)
  {
    forall c, i :: c in held && i in held[c] ==> (!held[c][i].Client? ==> held[c][i].t < threads)
  }

  /** Whatever is in a thread's name, that thread is at work on. */
  ghost predicate Claimed(s: State)
  {
    && UsersExist(s.m.use, |s.ts|) && HoldersExist(s.m.held, |s.ts|)
    && (forall t :: 0 <= t < |s.ts| ==> UsesHeld(s.m.use, t, s.ts[t]) && SlotsHeld(s.m.held, t, s.ts[t]))
  }

  /** A step puts nothing into another thread's name. */
  ghost predicate NoNewUses(use: map<nat, Use>, use': map<nat, Use>, t: nat)
  {
    forall c :: c in use' && OfOther(use'[c], t) ==> c in use && use[c] == use'[c]
  }

  ghost predicate NoNewHolders(held: map<nat, map<int, Holder>>, held': map<nat, map<int, Holder>>, t: nat)
  {
    forall c, i :: c in held' && i in held'[c] && InOtherHand(held'[c][i], t) ==>
      c in held && i in held[c] && held[c][i] == held'[c][i]
  }

  ghost predicate KeepsClaims(m: Mem, t: nat, m': Mem, th': Thread)
  {
    && NoNewUses(m.use, m'.use, t) && NoNewHolders(m.held, m'.held, t)
    && UsesHeld(m'.use, t, th') && SlotsHeld(m'.held, t, th')
  }

  /** One slot changes hands. */
  lemma SlotClaims(held: map<nat, map<int, Holder>>, x: Slot, h: Holder, t: nat, th: Thread, th': Thread)
    requires SlotsHeld(held, t, th) && x.c in held && !InOtherHand(h, t)
    requires HolderHolds(h, x, t, th') && forall y :: y != x && Holds(th, y) ==> Holds(th', y)
    ensures var held' := held[x.c := held[x.c][x.i := h]];
      NoNewHolders(held, held', t) && SlotsHeld(held', t, th')
  {
    var held' := held[x.c := held[x.c][x.i := h]];
    forall c, i | c in held' && i in held'[c]
      ensures HolderHolds(held'[c][i], Slot(c, i), t, th')
    {
      if Slot(c, i) != x { assert HolderHolds(held[c][i], Slot(c, i), t, th); }
    }
  }

  /** One slot is counted as freed. */
  lemma DropClaims(held: map<nat, map<int, Holder>>, x: Slot, t: nat, th: Thread, th': Thread)
    requires SlotsHeld(held, t, th) && x.c in held
    requires forall y :: y != x && Holds(th, y) ==> Holds(th', y)
    ensures var held' := held[x.c := held[x.c] - {x.i}];
      NoNewHolders(held, held', t) && SlotsHeld(held', t, th')
  {
    var held' := held[x.c := held[x.c] - {x.i}];
    forall c, i | c in held' && i in held'[c]
      ensures HolderHolds(held'[c][i], Slot(c, i), t, th')
    {
      assert HolderHolds(held[c][i], Slot(c, i), t, th);
    }
  }

  /** A chunk that comes new or empty brings no slots. */
  lemma EmptyClaims(held: map<nat, map<int, Holder>>, c: nat, t: nat, th: Thread, th': Thread)
    requires SlotsHeld(held, t, th) && forall y :: Holds(th, y) ==> Holds(th', y)
    ensures var held' := held[c := map[]]; NoNewHolders(held, held', t) && SlotsHeld(held', t, th')
    ensures SlotsHeld(held, t, th')
  {
    forall c, i | c in held && i in held[c]
      ensures HolderHolds(held[c][i], Slot(c, i), t, th')
    {
      assert HolderHolds(held[c][i], Slot(c, i), t, th);
    }
  }

  /** One chunk changes its use. */
  lemma UseClaims(use: map<nat, Use>, c: nat, u: Use, t: nat, th: Thread, th': Thread)
    requires UsesHeld(use, t, th) && !OfOther(u, t) && UseHolds(u, c, t, th')
    requires th.cur == th'.cur
          || (th.cur.Some? ==> th.cur.value == c || (th.cur.value in use && use[th.cur.value] != Current(t)))
    requires forall b :: b != c && Retires(th, b) ==> Retires(th', b)
    ensures NoNewUses(use, use[c := u], t) && UsesHeld(use[c := u], t, th')
  {
    var use' := use[c := u];
    forall b | b in use'
      ensures UseHolds(use'[b], b, t, th')
    {
      if b != c { assert UseHolds(use[b], b, t, th); }
    }
  }

  /** No chunk changes its use. */
  lemma SameUses(use: map<nat, Use>, t: nat, th: Thread, th': Thread)
    requires UsesHeld(use, t, th) && th.cur == th'.cur
    requires forall b :: Retires(th, b) ==> Retires(th', b)
    ensures NoNewUses(use, use, t) && UsesHeld(use, t, th')
  {
    forall b | b in use
      ensures UseHolds(use[b], b, t, th')
    {
      assert UseHolds(use[b], b, t, th);
    }
  }

  lemma GetDataClaims(m: Mem, t: nat, th: Thread, ch: Choice, m': Mem, th': Thread)
    requires th.pc.GetData? && Shape(m) && Local(m, t, th) && (m', th') == ExecAlloc(m, t, th, ch)
    requires UsesHeld(m.use, t, th) && SlotsHeld(m.held, t, th)
    ensures KeepsClaims(m, t, m', th')
  {
    BumpClaims(m, t, th, th.cur.value, th');
  }

  lemma BumpClaims(m: Mem, t: nat, th: Thread, c: nat, th': Thread)
    requires c in m.chunks && c in m.use && c in m.held && th.cur == th'.cur && th.pc.GetData?
    requires th'.pc == CheckEmpty(Slot(c, m.chunks[c].alloc))
    requires UsesHeld(m.use, t, th) && SlotsHeld(m.held, t, th)
    ensures KeepsClaims(m, t, Bump(m, t, c), th')
  {
    var i := m.chunks[c].alloc;
    SlotClaims(m.held, Slot(c, i), if i == m.size - 1 then Last(t) else Hand(t), t, th, th');
    SameUses(m.use, t, th, th');
    assert Bump(m, t, c).use == m.use;
  }

  /** The steps of Alloc that leave the chunks alone. */
  lemma StayClaims(m: Mem, t: nat, th: Thread, th': Thread)
    requires UsesHeld(m.use, t, th) && SlotsHeld(m.held, t, th) && th.cur == th'.cur
    requires forall x :: Holds(th, x) ==> Holds(th', x)
    requires forall b :: Retires(th, b) ==> Retires(th', b)
    ensures KeepsClaims(m, t, m, th')
  {
    SameUses(m.use, t, th, th');
    EmptyClaims(m.held, 0, t, th, th');
  }

  lemma ReturnClaims(m: Mem, t: nat, th: Thread, ch: Choice, m': Mem, th': Thread)
    requires th.pc.Return? && Shape(m) && Local(m, t, th) && (m', th') == ExecAlloc(m, t, th, ch)
    requires UsesHeld(m.use, t, th) && SlotsHeld(m.held, t, th)
    ensures KeepsClaims(m, t, m', th')
  {
    SlotClaims(m.held, th.pc.s, Client, t, th, th');
    SameUses(m.use, t, th, th');
  }

  /** A thread takes a chunk as its current one, having none. */
  lemma TakeClaims(m: Mem, t: nat, th: Thread, c: nat, th': Thread)
    requires Shape(m) && CanTake(m, c) && UsesHeld(m.use, t, th) && SlotsHeld(m.held, t, th)
    requires th'.cur == Some(c) && (th.cur.Some? ==> th.cur.value in m.use && m.use[th.cur.value] != Current(t))
    requires forall x :: Holds(th, x) ==> Holds(th', x)
    requires forall b :: Retires(th, b) ==> Retires(th', b)
    ensures KeepsClaims(m, t, Take(m, t, c), th')
  {
    CanTakeIdle(m, c);
    EmptyClaims(m.held, c, t, th, th');
    UseClaims(m.use, c, Current(t), t, th, th');
    TakeShape(m, t, c);
  }

  lemma EnterClaims(m: Mem, t: nat, th: Thread, ch: Choice, m': Mem, th': Thread)
    requires th.pc.Enter? && Shape(m) && (m', th') == ExecAlloc(m, t, th, ch)
    requires UsesHeld(m.use, t, th) && SlotsHeld(m.held, t, th)
    ensures KeepsClaims(m, t, m', th')
  {
    if th.cur.None? && CanTake(m, ch.chunk) {
      TakeClaims(m, t, th, ch.chunk, th');
    } else {
      StayClaims(m, t, th, th');
    }
  }

  /** The chunk whose last slot is taken is nobody's current one; the slot stays in hand. */
  lemma FillClaims(m: Mem, t: nat, th: Thread, x: Slot)
    requires x.c in m.held && x.c in m.use && th.pc == NextChunk(x)
    requires UsesHeld(m.use, t, th) && SlotsHeld(m.held, t, th)
    ensures KeepsClaims(m, t, Fill(m, t, x), th)
  {
    SlotClaims(m.held, x, Hand(t), t, th, th);
    UseClaims(m.use, x.c, Full, t, th, th);
  }

  lemma ClaimsTrans(m: Mem, t: nat, m1: Mem, m2: Mem, th2: Thread)
    requires NoNewUses(m.use, m1.use, t) && NoNewHolders(m.held, m1.held, t) && KeepsClaims(m1, t, m2, th2)
    ensures KeepsClaims(m, t, m2, th2)
  {
  }

  lemma NextChunkClaims(m: Mem, t: nat, th: Thread, ch: Choice, m': Mem, th': Thread)
    requires th.pc.NextChunk? && Shape(m) && Local(m, t, th) && (m', th') == ExecAlloc(m, t, th, ch)
    requires UsesHeld(m.use, t, th) && SlotsHeld(m.held, t, th)
    ensures KeepsClaims(m, t, m', th')
  {
    if CanTake(m, ch.chunk) {
      var m1 := Fill(m, t, th.pc.s);
      FillShape(m, t, th.pc.s);
      FillClaims(m, t, th, th.pc.s);
      TakeClaims(m1, t, th, ch.chunk, th');
      ClaimsTrans(m, t, m1, m', th');
    } else {
      StayClaims(m, t, th, th');
    }
  }

  lemma CountFreeClaims(m: Mem, t: nat, th: Thread, m': Mem, th': Thread)
    requires th.pc.CountFree? && Shape(m) && Local(m, t, th) && (m', th') == ExecFree(m, t, th)
    requires UsesHeld(m.use, t, th) && SlotsHeld(m.held, t, th)
    ensures KeepsClaims(m, t, m', th')
  {
    var x := th.pc.s;
    DropClaims(m.held, x, t, th, th');
    DropUses(m.use, x.c, if m.chunks[x.c].freed == m.size - 1 then Retired(t) else m.use[x.c], t, th, th');
  }

  lemma DropUses(use: map<nat, Use>, c: nat, u: Use, t: nat, th: Thread, th': Thread)
    requires UsesHeld(use, t, th) && c in use && th.cur == th'.cur && forall b :: !Retires(th, b)
    requires u == use[c] || (u == Retired(t) && Retires(th', c))
    ensures NoNewUses(use, use[c := u], t) && UsesHeld(use[c := u], t, th')
  {
    if u == use[c] {
      SameUses(use, t, th, th');
      assert use[c := u] == use;
    } else {
      UseClaims(use, c, u, t, th, th');
    }
  }

  lemma ResetClaims(m: Mem, t: nat, th: Thread, m': Mem, th': Thread)
    requires th.pc.ResetAlloc? || th.pc.ResetFree?
    requires (m', th') == ExecFree(m, t, th) && UsesHeld(m.use, t, th) && SlotsHeld(m.held, t, th)
    ensures KeepsClaims(m, t, m', th')
  {
    StayClaims(m, t, th, th');
  }

  lemma GiveBackClaims(m: Mem, t: nat, th: Thread, m': Mem, th': Thread)
    requires th.pc.GiveBack? && (m', th') == ExecFree(m, t, th)
    requires UsesHeld(m.use, t, th) && SlotsHeld(m.held, t, th)
    ensures KeepsClaims(m, t, m', th')
  {
    EmptyClaims(m.held, 0, t, th, th');
    UseClaims(m.use, th.pc.c, Free, t, th, th');
  }

  lemma IdleClaims(m: Mem, t: nat, th: Thread, ch: Choice, m': Mem, th': Thread)
    requires th.pc.Idle? && Shape(m) && (m', th') == Exec(m, t, th, ch)
    requires UsesHeld(m.use, t, th) && SlotsHeld(m.held, t, th)
    ensures KeepsClaims(m, t, m', th')
  {
    if !ch.allocate && m.live[ch.slot] > 0 {
      SlotClaims(m.held, ch.slot, Hand(t), t, th, th');
      SameUses(m.use, t, th, th');
    } else {
      StayClaims(m, t, th, th');
    }
  }

  lemma ExecClaims(m: Mem, t: nat, th: Thread, ch: Choice, m': Mem, th': Thread)
    requires Shape(m) && Local(m, t, th) && (m', th') == Exec(m, t, th, ch)
    requires UsesHeld(m.use, t, th) && SlotsHeld(m.held, t, th)
    ensures KeepsClaims(m, t, m', th')
  {
    if th.pc.Idle? { IdleClaims(m, t, th, ch, m', th'); }
    else if th.pc.Enter? { EnterClaims(m, t, th, ch, m', th'); }
    else if th.pc.GetData? { GetDataClaims(m, t, th, ch, m', th'); }
    else if th.pc.CheckEmpty? { StayClaims(m, t, th, th'); }
    else if th.pc.NextChunk? { NextChunkClaims(m, t, th, ch, m', th'); }
    else if th.pc.Return? { ReturnClaims(m, t, th, ch, m', th'); }
    else if th.pc.CountFree? { CountFreeClaims(m, t, th, m', th'); }
    else if th.pc.GiveBack? { GiveBackClaims(m, t, th, m', th'); }
    else { ResetClaims(m, t, th, m', th'); }
  }

  /** The claims of a thread that did not move stand as they were. */
  lemma OthersClaims(m: Mem, m': Mem, t: nat, u: nat, th: Thread)
    requires NoNewUses(m.use, m'.use, t) && NoNewHolders(m.held, m'.held, t) && u != t
    requires UsesHeld(m.use, u, th) && SlotsHeld(m.held, u, th)
    ensures UsesHeld(m'.use, u, th) && SlotsHeld(m'.held, u, th)
  {
  }

  lemma StepClaimed(s: State, t: nat, ch: Choice)
    requires Inv(s) && Claimed(s) && t < |s.ts|
    ensures Claimed(Step(s, t, ch))
  {
    var s' := Step(s, t, ch);
    assert Local(s.m, t, s.ts[t]);
    assert UsesHeld(s.m.use, t, s.ts[t]) && SlotsHeld(s.m.held, t, s.ts[t]);
    ExecClaims(s.m, t, s.ts[t], ch, s'.m, s'.ts[t]);
    forall u | 0 <= u < |s'.ts|
      ensures UsesHeld(s'.m.use, u, s'.ts[u]) && SlotsHeld(s'.m.held, u, s'.ts[u])
    {
      if u != t { OthersClaims(s.m, s'.m, t, u, s.ts[u]); }
    }
  }

  ghost predicate InvClaimed(s: State)
  {
    Inv(s) && Claimed(s)
  }

  lemma RunClaimed(size: int, threads: nat, sched: Schedule)
    requires size >= 1
    ensures InvClaimed(Run(Init(size, threads), sched))
  {
    forall x: State, t: nat, ch: Choice | InvClaimed(x)
      ensures InvClaimed(MoveThread(x, t, ch))
    {
      if t < |x.ts| {
        StepInv(x, t, ch);
        StepClaimed(x, t, ch);
      }
    }
    Runs.RunKeeps(MoveThread, InvClaimed, Init(size, threads), sched);
  }

  /** A slot of the chunk is in a client's hands, or inside a thread's Alloc or Free. */
  ghost predicate SlotOut(s: State, c: nat)
  {
    exists i: int :: s.m.live[Slot(c, i)] == 1 || SlotAtWork(s, Slot(c, i))
  }

  ghost predicate SlotAtWork(s: State, x: Slot)
  {
    exists t :: 0 <= t < |s.ts| && Holds(s.ts[t], x)
  }

  lemma FullIsOut(s: State, c: nat)
    requires InvClaimed(s) && Uses(s.m, c, Full)
    ensures SlotOut(s, c)
  {
    assert BooksOk(s.m.size, s.m.chunks[c], Full, s.m.held[c]);
    var i := AnyOf(s.m.held[c].Keys);
    var x := Slot(c, i);
    var h := s.m.held[c][i];
    if h == Client {
      assert s.m.live[x] == 1;
    } else {
      assert h.t < |s.ts| && SlotsHeld(s.m.held, h.t, s.ts[h.t]);
      assert HolderHolds(h, x, h.t, s.ts[h.t]);
      assert SlotAtWork(s, x);
    }
  }

  /** No chunk is lost: in every run each chunk ever made is in the pool, or is some
      thread's current one, or has a slot out, or is being given back by a thread. */
  lemma NoChunkIsLost(size: int, threads: nat, sched: Schedule, c: nat)
    requires size >= 1 && c in Run(Init(size, threads), sched).m.chunks
    ensures var s := Run(Init(size, threads), sched);
      || c in s.m.free
      || (exists t :: 0 <= t < |s.ts| && s.ts[t].cur == Some(c))
      || SlotOut(s, c)
      || (exists t :: 0 <= t < |s.ts| && Retires(s.ts[t], c))
  {
    RunClaimed(size, threads, sched);
    var s := Run(Init(size, threads), sched);
    var u := s.m.use[c];
    if u == Full {
      FullIsOut(s, c);
    } else if u != Free {
      assert u.t < |s.ts| && UsesHeld(s.m.use, u.t, s.ts[u.t]);
      assert UseHolds(u, c, u.t, s.ts[u.t]);
    }
  }

  /** Hence with all threads idle and nothing live, every chunk that is nobody's current one
      is in the pool, ready to be used again. */
  lemma AtRestChunksAreFree(size: int, threads: nat, sched: Schedule, c: nat)
    requires size >= 1 && c in Run(Init(size, threads), sched).m.chunks
    requires var s := Run(Init(size, threads), sched);
      && s.m.live == multiset{}
      && forall t :: 0 <= t < |s.ts| ==> s.ts[t].pc == Idle && s.ts[t].cur != Some(c)
    ensures c in Run(Init(size, threads), sched).m.free
  {
    NoChunkIsLost(size, threads, sched, c);
  }

  /** A slot handed out and not freed is in exactly one place: with a client, or inside one
      thread's Alloc or Free; and the chunk counts how many were freed. */
  lemma NoSlotIsLost(size: int, threads: nat, sched: Schedule, c: nat, i: int)
    requires size >= 1
    requires var m := Run(Init(size, threads), sched).m; c in m.held && i in m.held[c]
    ensures var s := Run(Init(size, threads), sched);
      s.m.live[Slot(c, i)] == 1 || SlotAtWork(s, Slot(c, i))
  {
    RunClaimed(size, threads, sched);
    var s := Run(Init(size, threads), sched);
    var h := s.m.held[c][i];
    if h != Client {
      assert SlotsHeld(s.m.held, h.t, s.ts[h.t]);
      assert HolderHolds(h, Slot(c, i), h.t, s.ts[h.t]);
    }
  }

  // ---------------------------------------------------------------- calls made alone

  ghost predicate Reaches(s: State, s': State)
  {
    Runs.Reaches(MoveThread, s, s')
  }

  lemma Go(s0: State, s: State, t: nat, ch: Choice) returns (s': State)
    requires Reaches(s0, s) && t < |s.ts|
    ensures s' == Step(s, t, ch) && Reaches(s0, s')
  {
    s' := Runs.Go(MoveThread, s0, s, t, ch);
  }

  lemma ReachesInv(s0: State, s: State)
    requires Inv(s0) && Reaches(s0, s)
    ensures Inv(s)
  {
    var sched: Schedule :| Runs.Run(MoveThread, s0, sched) == s;
    RunInv(s0, sched);
  }

  /** The current chunk is there with room in it. */
  ghost predicate Ready(m: Mem, th: Thread)
  {
    th.cur.Some? && th.cur.value in m.chunks && m.chunks[th.cur.value].alloc < m.size
  }

  /** An idle thread's Alloc, alone up to GetData: it has a chunk with room. */
  lemma EnterAlone(s0: State, s: State, t: nat) returns (s': State)
    requires Reaches(s0, s) && t < |s.ts| && s.ts[t].pc == Idle && HasRoom(s.m, s.ts[t]) && s.m.size >= 1
    ensures Reaches(s0, s') && |s'.ts| == |s.ts| && s'.ts == s.ts[t := s'.ts[t]]
    ensures s'.ts[t].pc == GetData && Ready(s'.m, s'.ts[t]) && s'.m.live == s.m.live
  {
    var c := Unused(s.m.chunks.Keys);
    var ch := Choice(true, Slot(0, 0), c);
    s' := Go(s0, s, t, ch);
    s' := Go(s0, s', t, ch);
  }

  /** Then to its end. */
  lemma GetAlone(s0: State, s: State, t: nat) returns (s': State, x: Slot)
    requires Reaches(s0, s) && t < |s.ts| && s.ts[t].pc == GetData && Ready(s.m, s.ts[t])
    ensures Reaches(s0, s') && |s'.ts| == |s.ts| && s'.ts == s.ts[t := s'.ts[t]] && s'.ts[t].pc == Idle
    ensures x == Slot(s.ts[t].cur.value, s.m.chunks[s.ts[t].cur.value].alloc)
    ensures s'.m.live == s.m.live + multiset{x}
  {
    x := Slot(s.ts[t].cur.value, s.m.chunks[s.ts[t].cur.value].alloc);
    var c := Unused(s.m.chunks.Keys);
    var ch := Choice(true, x, c);
    s' := Go(s0, s, t, ch);
    assert s'.m.live == s.m.live && s'.ts[t].pc == CheckEmpty(x) && c !in s'.m.chunks;
    s' := Go(s0, s', t, ch);
    if s'.ts[t].pc.NextChunk? {
      s' := Go(s0, s', t, ch);
    }
    assert s'.m.live == s.m.live && s'.ts[t].pc == Return(x);
    s' := Go(s0, s', t, ch);
  }

  /** An Alloc that no other thread disturbs ends, and hands out one slot that nobody had. */
  lemma AllocCallAlone(s: State, t: nat) returns (s': State, x: Slot)
    requires Inv(s) && t < |s.ts| && s.ts[t].pc == Idle
    ensures Reaches(s, s') && |s'.ts| == |s.ts| && s'.ts == s.ts[t := s'.ts[t]] && s'.ts[t].pc == Idle
    ensures s.m.live[x] == 0 && s'.m.live == s.m.live + multiset{x}
  {
    Runs.ReachesSelf(MoveThread, s);
    assert Local(s.m, t, s.ts[t]);
    s' := EnterAlone(s, s, t);
    s', x := GetAlone(s, s', t);
    ReachesInv(s, s');
    assert LiveOk(s'.m.live, s'.m.held);
    assert s'.m.live[x] <= 1;
  }

  /** The last free of a chunk, alone from the reset to its end. */
  lemma GiveBackAlone(s0: State, s: State, t: nat, c: nat) returns (s': State)
    requires Reaches(s0, s) && t < |s.ts| && s.ts[t].pc == ResetAlloc(c) && c in s.m.chunks
    ensures Reaches(s0, s') && s'.ts == s.ts[t := s.ts[t].(pc := Idle)]
    ensures s'.m.live == s.m.live && s'.m.free == s.m.free + {c}
    ensures s'.m.chunks == s.m.chunks[c := Chunk(0, 0)]
  {
    var ch := Choice(false, Slot(0, 0), 0);
    s' := Go(s0, s, t, ch);
    s' := Go(s0, s', t, ch);
    s' := Go(s0, s', t, ch);
  }

  /** An idle thread's Free, alone up to the count. */
  lemma CountAlone(s0: State, s: State, t: nat, x: Slot) returns (s': State)
    requires Reaches(s0, s) && t < |s.ts| && s.ts[t].pc == Idle && s.m.live[x] > 0 && x.c in s.m.chunks
    ensures Reaches(s0, s') && s'.m.live == s.m.live - multiset{x} && s'.m.free == s.m.free && s'.m.size == s.m.size
    ensures var k := s.m.chunks[x.c];
      && s'.m.chunks == s.m.chunks[x.c := k.(freed := k.freed + 1)]
      && s'.ts == s.ts[t := s.ts[t].(pc := if k.freed == s.m.size - 1 then ResetAlloc(x.c) else Idle)]
  {
    var ch := Choice(false, x, 0);
    s' := Go(s0, s, t, ch);
    s' := Go(s0, s', t, ch);
  }

  /** A Free that no other thread disturbs ends, and takes its slot back; the one that
      completes the chunk leaves it in the pool with zero counters, any other one counts
      one more free and leaves the pool alone. */
  lemma FreeCallAlone(s: State, t: nat, x: Slot) returns (s': State)
    requires Inv(s) && t < |s.ts| && s.ts[t].pc == Idle && s.m.live[x] > 0
    ensures Reaches(s, s') && s'.ts == s.ts && s'.m.live == s.m.live - multiset{x} && x.c in s.m.chunks
    ensures var k := s.m.chunks[x.c];
      if k.freed == s.m.size - 1
      then s'.m.free == s.m.free + {x.c} && s'.m.chunks == s.m.chunks[x.c := Chunk(0, 0)]
      else s'.m.free == s.m.free && s'.m.chunks == s.m.chunks[x.c := k.(freed := k.freed + 1)]
  {
    LiveSlot(s.m, x);
    s' := FreeAlone(s, t, x);
  }

  lemma FreeAlone(s: State, t: nat, x: Slot) returns (s': State)
    requires t < |s.ts| && s.ts[t].pc == Idle && s.m.live[x] > 0 && x.c in s.m.chunks
    ensures Reaches(s, s') && s'.ts == s.ts && s'.m.live == s.m.live - multiset{x}
    ensures var k := s.m.chunks[x.c];
      if k.freed == s.m.size - 1
      then s'.m.free == s.m.free + {x.c} && s'.m.chunks == s.m.chunks[x.c := Chunk(0, 0)]
      else s'.m.free == s.m.free && s'.m.chunks == s.m.chunks[x.c := k.(freed := k.freed + 1)]
  {
    Runs.ReachesSelf(MoveThread, s);
    s' := CountAlone(s, s, t, x);
    if s.m.chunks[x.c].freed == s.m.size - 1 {
      s' := GiveBackAlone(s, s', t, x.c);
    }
    assert s'.ts == s.ts;
  }
}
