/** What the three-level timing wheel of CppNetEngine/TimingWheel.cpp computes, and the
    trivial timer it must agree with: a list of deadlines.

    Ticks are natural numbers; `&` with a level mask and `>>` by a level's bits are
    written as `%` and `/` (lemmas MaskAndShift and MasksOfTicks).  A callback is an opaque id. */
module TimingWheelSpec {

  const LEVEL0_SIZE := 256
  const LEVEL1_SIZE := 256
  const LEVEL2_SIZE := 128
  const SPAN1 := 65536    // ticks covered by levels 0 and 1
  const SPAN2 := 8388608  // ticks covered by all three levels, the largest delay

  /** The masks and shifts of the source on 64-bit ticks, as arithmetic on 64-bit words;
      and bitwise `&` is digit by digit, which is how And below carries it to numbers. */
  lemma MaskAndShift(x: bv64, y: bv64)
    ensures x & 0xFF == x % 256 && (x >> 8) & 0xFF == (x / 256) % 256 && (x >> 16) & 0x7F == (x / 65536) % 128
    ensures x & y == (x % 2) * (y % 2) + 2 * ((x / 2) & (y / 2))
  {
  }

  function Pow2(k: nat): (p: nat)
    ensures p >= 1
  {
    if k == 0 then 1 else 2 * Pow2(k - 1)
  }

  /** Bitwise `&` of two natural numbers, from the lowest digit up. */
  function And(x: nat, y: nat): nat
  {
    if x == 0 || y == 0 then 0 else (x % 2) * (y % 2) + 2 * And(x / 2, y / 2)
  }

  /** `>>` by `k` digits, one at a time. */
  function ShiftRight(x: nat, k: nat): nat
    decreases k
  {
    if k == 0 then x else ShiftRight(x / 2, k - 1)
  }

  lemma {:induction false} MaskIsRemainder(x: nat, k: nat)
    ensures And(x, Pow2(k) - 1) == x % Pow2(k)
    decreases k
  {
    if k == 0 {
    } else {
      var p := Pow2(k - 1);
      MaskIsRemainder(x / 2, k - 1);
      OddMask(x, p);
      RemainderByDigit(x, p);
    }
  }

  lemma OddMask(x: nat, p: nat)
    requires p >= 1
    ensures And(x, 2 * p - 1) == x % 2 + 2 * And(x / 2, p - 1)
  {
    assert (2 * p - 1) / 2 == p - 1 && (2 * p - 1) % 2 == 1;
  }

  lemma RemainderByDigit(x: nat, p: nat)
    requires p >= 1
    ensures x % (2 * p) == x % 2 + 2 * (x / 2 % p) && x / (2 * p) == x / 2 / p
  {
    var q, r := x / 2 / p, x % 2 + 2 * (x / 2 % p);
    assert x / 2 == q * p + x / 2 % p;
    assert x == q * (2 * p) + r && 0 <= r < 2 * p;
    DivUnique(x, 2 * p, q, r);
  }

  lemma DivUnique(a: int, unit: int, q: int, r: int)
    requires unit > 0 && a == q * unit + r && 0 <= r < unit
    ensures a / unit == q
  {
    var q' := a / unit;
    assert 0 <= a - q' * unit < unit;
    assert (q' - q) * unit == r - (a - q' * unit);
    if q' - q >= 1 { Times(q' - q, unit); }
    if q - q' >= 1 { Times(q - q', unit); }
  }

  lemma Times(k: int, unit: int)
    requires k >= 1 && unit > 0
    ensures k * unit >= unit
  {
  }

  lemma {:induction false} ShiftIsQuotient(x: nat, k: nat)
    ensures ShiftRight(x, k) == x / Pow2(k)
    decreases k
  {
    if k == 0 {
    } else {
      ShiftIsQuotient(x / 2, k - 1);
      RemainderByDigit(x, Pow2(k - 1));
    }
  }

  /** The three masks of the wheel, on ticks as numbers: the bucket indices of the model. */
  lemma MasksOfTicks(tick: nat)
    ensures And(tick, 0xFF) == tick % LEVEL0_SIZE
    ensures And(ShiftRight(tick, 8), 0xFF) == Slot1(tick)
    ensures And(ShiftRight(tick, 16), 0x7F) == Slot2(tick)
  {
    assert Pow2(7) == 128 && Pow2(8) == 256;
    assert Pow2(16) == 65536 by { assert Pow2(12) == 4096; }
    MaskIsRemainder(tick, 8);
    MaskIsRemainder(ShiftRight(tick, 8), 8);
    MaskIsRemainder(ShiftRight(tick, 16), 7);
    ShiftIsQuotient(tick, 8);
    ShiftIsQuotient(tick, 16);
  }

  /** A TimingNode: when it expires and which callback it carries. */
  datatype Node = Node(expire: nat, id: int)

  type Bucket = seq<Node>

  /** mCurrentTick and the three levels. */
  datatype Wheel = Wheel(now: nat, w0: seq<Bucket>, w1: seq<Bucket>, w2: seq<Bucket>)

  // ------------------------------------------------------------------ the wheel

  ghost predicate Sized(w: Wheel)
  {
    |w.w0| == LEVEL0_SIZE && |w.w1| == LEVEL1_SIZE && |w.w2| == LEVEL2_SIZE
  }

  function PushBack(level: seq<Bucket>, i: nat, n: Node): (r: seq<Bucket>)
    requires i < |level|
    ensures |r| == |level|
  {
    level[i := level[i] + [n]]
  }

  function Slot1(expire: nat): nat { (expire / LEVEL0_SIZE) % LEVEL1_SIZE }

  function Slot2(expire: nat): nat { (expire / SPAN1) % LEVEL2_SIZE }

  function AddNode(w: Wheel, n: Node): (w': Wheel)
    requires Sized(w)
    ensures Sized(w') && w'.now == w.now
  {
    var delay := n.expire - w.now;
    if delay < LEVEL0_SIZE then w.(w0 := PushBack(w.w0, n.expire % LEVEL0_SIZE, n))
    else if delay < SPAN1 then w.(w1 := PushBack(w.w1, Slot1(n.expire), n))
    else w.(w2 := PushBack(w.w2, Slot2(n.expire), n))
  }

  /** Re-adding the nodes of a spliced-off bucket, front to back. */
  function AddAll(w: Wheel, bucket: Bucket): (w': Wheel)
    requires Sized(w)
    ensures Sized(w') && w'.now == w.now
    decreases |bucket|
  {
    if bucket == [] then w else AddAll(AddNode(w, bucket[0]), bucket[1..])
  }

  function Cascade1(w: Wheel, i: nat): (w': Wheel)
    requires Sized(w) && i < LEVEL1_SIZE
    ensures Sized(w') && w'.now == w.now
  {
    AddAll(w.(w1 := w.w1[i := []]), w.w1[i])
  }

  function Cascade2(w: Wheel, i: nat): (w': Wheel)
    requires Sized(w) && i < LEVEL2_SIZE
    ensures Sized(w') && w'.now == w.now
  {
    AddAll(w.(w2 := w.w2[i := []]), w.w2[i])
  }

  /** The cascades at the head of processTick. */
  function Cascades(w: Wheel): (w': Wheel)
    requires Sized(w)
    ensures Sized(w') && w'.now == w.now
  {
    if w.now % LEVEL0_SIZE == 0 && w.now > 0 then
      var w' := Cascade1(w, Slot1(w.now));
      if Slot1(w.now) == 0 then Cascade2(w', Slot2(w.now)) else w'
    else w
  }

  /** processTick, then the increment of the current tick: the wheel afterwards and the
      nodes appended to the execute list. */
  function ProcessTick(w: Wheel): (r: (Wheel, seq<Node>))
    requires Sized(w)
    ensures Sized(r.0) && r.0.now == w.now + 1
  {
    var c := Cascades(w);
    var i := w.now % LEVEL0_SIZE;
    (c.(w0 := c.w0[i := []], now := w.now + 1), c.w0[i])
  }

  // ------------------------------------------------------------- what is pending

  ghost function Flat(level: seq<Bucket>): multiset<Node>
  {
    if level == [] then multiset{} else multiset(level[0]) + Flat(level[1..])
  }

  ghost function Pending(w: Wheel): multiset<Node>
  {
    Flat(w.w0) + Flat(w.w1) + Flat(w.w2)
  }

  lemma {:induction false} FlatClear(level: seq<Bucket>, i: nat)
    requires i < |level|
    ensures Flat(level) == Flat(level[i := []]) + multiset(level[i])
  {
    if i == 0 {
      assert level[0 := []][1..] == level[1..];
    } else {
      assert level[i := []][1..] == level[1..][i - 1 := []];
      FlatClear(level[1..], i - 1);
    }
  }

  lemma {:induction false} FlatPush(level: seq<Bucket>, i: nat, n: Node)
    requires i < |level|
    ensures Flat(PushBack(level, i, n)) == Flat(level) + multiset{n}
  {
    if i == 0 {
      assert PushBack(level, 0, n)[1..] == level[1..];
    } else {
      assert PushBack(level, i, n)[1..] == PushBack(level[1..], i - 1, n);
      FlatPush(level[1..], i - 1, n);
    }
  }

  lemma {:induction false} FlatMember(level: seq<Bucket>, n: Node)
    ensures n in Flat(level) <==> exists i :: 0 <= i < |level| && n in level[i]
  {
    if level == [] {
    } else {
      FlatMember(level[1..], n);
      if n in Flat(level) && n !in level[0] {
        var i :| 0 <= i < |level[1..]| && n in level[1..][i];
        assert n in level[i + 1];
      }
      if i :| 0 <= i < |level| && n in level[i] {
        if i > 0 { assert level[1..][i - 1] == level[i]; }
      }
    }
  }

  // ---------------------------------------------------------------- the invariant

  /** Where a pending node stands: in the bucket its expire tick selects, and still
      ahead of the next cascade of that bucket.  A level-2 node may be a full turn
      away: the largest delay, added exactly on a 65536-tick boundary. */
  ghost predicate Placed0(now: nat, i: int, n: Node)
  {
    n.expire % LEVEL0_SIZE == i && now <= n.expire < now + LEVEL0_SIZE
  }

  ghost predicate Placed1(now: nat, i: int, n: Node)
  {
    && Slot1(n.expire) == i && LEVEL0_SIZE <= n.expire
    && now <= n.expire / LEVEL0_SIZE * LEVEL0_SIZE && n.expire < now + SPAN1
  }

  ghost predicate Placed2(now: nat, i: int, n: Node)
  {
    Slot2(n.expire) == i && SPAN1 <= n.expire && now <= n.expire / SPAN1 * SPAN1 && n.expire <= now + SPAN2
  }

  ghost predicate Level0Ok(now: nat, w0: seq<Bucket>)
  {
    |w0| == LEVEL0_SIZE && forall i, n :: 0 <= i < |w0| && n in w0[i] ==> Placed0(now, i, n)
  }

  ghost predicate Level1Ok(now: nat, w1: seq<Bucket>)
  {
    |w1| == LEVEL1_SIZE && forall i, n :: 0 <= i < |w1| && n in w1[i] ==> Placed1(now, i, n)
  }

  ghost predicate Level2Ok(now: nat, w2: seq<Bucket>)
  {
    |w2| == LEVEL2_SIZE && forall i, n :: 0 <= i < |w2| && n in w2[i] ==> Placed2(now, i, n)
  }

  ghost predicate Inv(w: Wheel)
  {
    Level0Ok(w.now, w.w0) && Level1Ok(w.now, w.w1) && Level2Ok(w.now, w.w2)
  }

  /** Levels 1 and 2 may already be past the cascade of this tick (`t1`, `t2`). */
  ghost predicate InvAt(w: Wheel, t1: nat, t2: nat)
  {
    Level0Ok(w.now, w.w0) && Level1Ok(t1, w.w1) && Level2Ok(t2, w.w2)
  }

  // --------------------------------------------------------------- adding a node

  lemma AddNodePending(w: Wheel, n: Node)
    requires Sized(w)
    ensures Pending(AddNode(w, n)) == Pending(w) + multiset{n}
  {
    var delay := n.expire - w.now;
    if delay < LEVEL0_SIZE {
      FlatPush(w.w0, n.expire % LEVEL0_SIZE, n);
    } else if delay < SPAN1 {
      FlatPush(w.w1, Slot1(n.expire), n);
    } else {
      FlatPush(w.w2, Slot2(n.expire), n);
    }
  }

  lemma AddNodeInv(w: Wheel, n: Node, t1: nat, t2: nat)
    requires InvAt(w, t1, t2) && w.now <= t1 <= w.now + 1 && w.now <= t2 <= w.now + 1
    requires w.now <= n.expire <= w.now + SPAN2
    ensures InvAt(AddNode(w, n), t1, t2)
  {
    var delay := n.expire - w.now;
    if delay < LEVEL0_SIZE {
      assert Placed0(w.now, n.expire % LEVEL0_SIZE, n);
    } else if delay < SPAN1 {
      assert Placed1(t1, Slot1(n.expire), n);
    } else {
      assert Placed2(t2, Slot2(n.expire), n);
    }
  }

  lemma {:induction false} AddAllInv(w: Wheel, bucket: Bucket, t1: nat, t2: nat)
    requires InvAt(w, t1, t2) && w.now <= t1 <= w.now + 1 && w.now <= t2 <= w.now + 1
    requires forall n :: n in bucket ==> w.now <= n.expire <= w.now + SPAN2
    ensures InvAt(AddAll(w, bucket), t1, t2)
    ensures Pending(AddAll(w, bucket)) == Pending(w) + multiset(bucket)
    decreases |bucket|
  {
    if bucket == [] {
    } else {
      AddNodeInv(w, bucket[0], t1, t2);
      AddNodePending(w, bucket[0]);
      AddAllInv(AddNode(w, bucket[0]), bucket[1..], t1, t2);
      assert bucket == [bucket[0]] + bucket[1..];
    }
  }

  // -------------------------------------------------------------------- cascades

  /** The block that level 1 cascades at a 256-tick boundary is the block that starts
      there: another block with the same slot would be a whole turn away. */
  lemma SameSlot1(now: nat, e: nat)
    requires now % LEVEL0_SIZE == 0 && now <= e / LEVEL0_SIZE * LEVEL0_SIZE && e < now + SPAN1
    ensures Slot1(e) == Slot1(now) <==> e / LEVEL0_SIZE * LEVEL0_SIZE == now
  {
    var b, c := e / LEVEL0_SIZE, now / LEVEL0_SIZE;
    assert c <= b < c + LEVEL1_SIZE;
  }

  /** At a 65536-tick boundary level 2 holds, in the slot of that boundary, the block
      that starts there and possibly the very last tick of a full turn. */
  lemma SameSlot2(now: nat, e: nat)
    requires now % SPAN1 == 0 && now <= e / SPAN1 * SPAN1 && e <= now + SPAN2
    ensures Slot2(e) == Slot2(now) <==> (e / SPAN1 * SPAN1 == now || e == now + SPAN2)
  {
    var b, c := e / SPAN1, now / SPAN1;
    assert c <= b <= c + LEVEL2_SIZE;
  }

  lemma Cascade1Inv(w: Wheel)
    requires Inv(w) && w.now > 0 && w.now % LEVEL0_SIZE == 0
    ensures var w' := Cascade1(w, Slot1(w.now)); InvAt(w', w.now + 1, w.now) && Pending(w') == Pending(w)
  {
    var i := Slot1(w.now);
    var bucket := w.w1[i];
    var w1 := w.(w1 := w.w1[i := []]);
    forall j, n | 0 <= j < |w1.w1| && n in w1.w1[j]
      ensures Placed1(w.now + 1, j, n)
    {
      assert n in w.w1[j] && Placed1(w.now, j, n);
      SameSlot1(w.now, n.expire);
    }
    forall n | n in bucket
      ensures w.now <= n.expire <= w.now + SPAN2
    {
      assert Placed1(w.now, i, n);
    }
    FlatClear(w.w1, i);
    AddAllInv(w1, bucket, w.now + 1, w.now);
    assert Pending(w1) + multiset(bucket) == Pending(w);
  }

  lemma Cascade2Inv(w: Wheel)
    requires InvAt(w, w.now + 1, w.now) && w.now > 0 && w.now % SPAN1 == 0
    ensures var w' := Cascade2(w, Slot2(w.now)); InvAt(w', w.now + 1, w.now + 1) && Pending(w') == Pending(w)
  {
    var i := Slot2(w.now);
    var bucket := w.w2[i];
    var w2 := w.(w2 := w.w2[i := []]);
    forall j, n | 0 <= j < |w2.w2| && n in w2.w2[j]
      ensures Placed2(w.now + 1, j, n)
    {
      assert n in w.w2[j] && Placed2(w.now, j, n);
      SameSlot2(w.now, n.expire);
    }
    forall n | n in bucket
      ensures w.now <= n.expire <= w.now + SPAN2
    {
      assert Placed2(w.now, i, n);
    }
    FlatClear(w.w2, i);
    AddAllInv(w2, bucket, w.now + 1, w.now + 1);
    assert Pending(w2) + multiset(bucket) == Pending(w);
  }

  /** Away from a level's boundary its nodes are already past this tick. */
  lemma NoCascade(w: Wheel)
    requires Level1Ok(w.now, w.w1) || Level1Ok(w.now + 1, w.w1)
    requires Level2Ok(w.now, w.w2)
    ensures w.now % LEVEL0_SIZE != 0 || w.now == 0 ==> Level1Ok(w.now + 1, w.w1)
    ensures w.now % SPAN1 != 0 || w.now == 0 ==> Level2Ok(w.now + 1, w.w2)
  {
    if w.now % LEVEL0_SIZE != 0 || w.now == 0 {
      forall j, n | 0 <= j < |w.w1| && n in w.w1[j]
        ensures Placed1(w.now + 1, j, n)
      {
        assert Placed1(w.now, j, n) || Placed1(w.now + 1, j, n);
      }
    }
    if w.now % SPAN1 != 0 || w.now == 0 {
      forall j, n | 0 <= j < |w.w2| && n in w.w2[j]
        ensures Placed2(w.now + 1, j, n)
      {
        assert Placed2(w.now, j, n);
      }
    }
  }

  lemma CascadesInv(w: Wheel)
    requires Inv(w)
    ensures InvAt(Cascades(w), w.now + 1, w.now + 1) && Pending(Cascades(w)) == Pending(w)
  {
    assert w.now % SPAN1 == 0 <==> w.now % LEVEL0_SIZE == 0 && Slot1(w.now) == 0;
    if w.now % LEVEL0_SIZE == 0 && w.now > 0 {
      var w' := Cascade1(w, Slot1(w.now));
      Cascade1Inv(w);
      if Slot1(w.now) == 0 { Cascade2Inv(w'); } else { NoCascade(w'); }
    } else {
      NoCascade(w);
    }
  }

  /** One tick of the wheel: what it releases expires now, everything else stays
      pending and expires later, and the invariant holds for the next tick. */
  lemma ProcessTickInv(w: Wheel)
    requires Inv(w)
    ensures var (w', released) := ProcessTick(w);
      && Inv(w')
      && (forall n :: n in released ==> n.expire == w.now)
      && Pending(w) == Pending(w') + multiset(released)
  {
    var c := Cascades(w);
    var i := w.now % LEVEL0_SIZE;
    CascadesInv(w);
    FlatClear(c.w0, i);
    var w0 := c.w0[i := []];
    forall j, n | 0 <= j < |w0| && n in w0[j]
      ensures Placed0(w.now + 1, j, n)
    {
      assert n in c.w0[j] && Placed0(w.now, j, n);
    }
    forall n | n in c.w0[i]
      ensures n.expire == w.now
    {
      assert Placed0(w.now, i, n);
    }
  }

  /** Nothing pending is overdue. */
  lemma PendingIsAhead(w: Wheel, n: Node)
    requires Inv(w) && n in Pending(w)
    ensures w.now <= n.expire <= w.now + SPAN2
  {
    FlatMember(w.w0, n);
    FlatMember(w.w1, n);
    FlatMember(w.w2, n);
    if i :| 0 <= i < |w.w0| && n in w.w0[i] {
      assert Placed0(w.now, i, n);
    } else if i :| 0 <= i < |w.w1| && n in w.w1[i] {
      assert Placed1(w.now, i, n);
    } else {
      var i :| 0 <= i < |w.w2| && n in w.w2[i];
      assert Placed2(w.now, i, n);
    }
  }

  // ------------------------------------------------------------------ whole runs

  /** One operation on the timer: a call of AddTiming, or one processed tick.  Each takes
      the timer's lock, so a run is a sequence of them in any order. */
  datatype Op = Add(id: int, delayMs: nat) | Process

  /** The expire tick that AddTiming computes, with the delay clamped to the largest. */
  function ExpireTick(now: nat, interval: nat, delayMs: nat): (e: nat)
    requires interval > 0
    ensures now <= e <= now + SPAN2
  {
    var safe := if delayMs <= interval * SPAN2 then delayMs else interval * SPAN2;
    ClampedTicks(interval, safe);
    now + safe / interval
  }

  lemma ClampedTicks(interval: nat, safe: nat)
    requires interval > 0 && safe <= interval * SPAN2
    ensures safe / interval <= SPAN2
  {
  }

  /** What one operation does to the wheel, and the nodes whose callbacks it releases:
      AddTiming with delay 0 runs its callback at once. */
  function Apply(w: Wheel, interval: nat, op: Op): (r: (Wheel, seq<Node>))
    requires Sized(w) && interval > 0
    ensures Sized(r.0)
  {
    match op
    case Process => ProcessTick(w)
    case Add(id, 0) => (w, [Node(w.now, id)])
    case Add(id, delayMs) => (AddNode(w, Node(ExpireTick(w.now, interval, delayMs), id)), [])
  }

  /** The trivial timer: the current tick and the deadlines not yet reached. */
  datatype Simple = Simple(now: nat, pending: seq<Node>)

  function Due(pending: seq<Node>, now: nat): seq<Node>
  {
    if pending == [] then []
    else (if pending[0].expire == now then [pending[0]] else []) + Due(pending[1..], now)
  }

  function Later(pending: seq<Node>, now: nat): seq<Node>
  {
    if pending == [] then []
    else (if pending[0].expire != now then [pending[0]] else []) + Later(pending[1..], now)
  }

  function ApplySimple(s: Simple, interval: nat, op: Op): (Simple, seq<Node>)
    requires interval > 0
  {
    match op
    case Process => (Simple(s.now + 1, Later(s.pending, s.now)), Due(s.pending, s.now))
    case Add(id, 0) => (s, [Node(s.now, id)])
    case Add(id, delayMs) => (s.(pending := s.pending + [Node(ExpireTick(s.now, interval, delayMs), id)]), [])
  }

  /** The nodes released by each operation of a run, in order. */
  ghost function Released(w: Wheel, interval: nat, ops: seq<Op>): (r: seq<seq<Node>>)
    requires Sized(w) && interval > 0
    ensures |r| == |ops|
    decreases |ops|
  {
    if ops == [] then []
    else
      var (w', out) := Apply(w, interval, ops[0]);
      [out] + Released(w', interval, ops[1..])
  }

  ghost function ReleasedSimple(s: Simple, interval: nat, ops: seq<Op>): (r: seq<seq<Node>>)
    requires interval > 0
    ensures |r| == |ops|
    decreases |ops|
  {
    if ops == [] then []
    else
      var (s', out) := ApplySimple(s, interval, ops[0]);
      [out] + ReleasedSimple(s', interval, ops[1..])
  }

  /** The wheel after a run. */
  ghost function Final(w: Wheel, interval: nat, ops: seq<Op>): (w': Wheel)
    requires Sized(w) && interval > 0
    ensures Sized(w')
    decreases |ops|
  {
    if ops == [] then w else Final(Apply(w, interval, ops[0]).0, interval, ops[1..])
  }

  lemma {:induction false} DueLater(pending: seq<Node>, now: nat)
    ensures multiset(pending) == multiset(Due(pending, now)) + multiset(Later(pending, now))
    ensures forall n :: n in Due(pending, now) ==> n.expire == now
    ensures forall n :: n in Later(pending, now) ==> n.expire != now
  {
    if pending == [] {
    } else {
      var first, rest := pending[0], pending[1..];
      DueLater(rest, now);
      assert pending == [first] + rest;
      assert multiset(pending) == multiset{first} + multiset(rest);
      if first.expire == now {
        assert Due(pending, now) == [first] + Due(rest, now) && Later(pending, now) == [] + Later(rest, now);
      } else {
        assert Due(pending, now) == [] + Due(rest, now) && Later(pending, now) == [first] + Later(rest, now);
      }
    }
  }

  /** Splitting a multiset by whether the deadline is now can be done in one way only. */
  lemma SplitUnique(a: multiset<Node>, b: multiset<Node>, c: multiset<Node>, d: multiset<Node>, now: nat)
    requires a + b == c + d
    requires forall n :: n in a || n in c ==> n.expire == now
    requires forall n :: n in b || n in d ==> n.expire != now
    ensures a == c && b == d
  {
    forall n
      ensures a[n] == c[n] && b[n] == d[n]
    {
      assert (a + b)[n] == (c + d)[n];
    }
  }

  lemma ApplyInv(w: Wheel, interval: nat, op: Op)
    requires Inv(w) && interval > 0
    ensures var (w', out) := Apply(w, interval, op); Inv(w') && w'.now == w.now + (if op.Process? then 1 else 0)
  {
    if op.Process? {
      ProcessTickInv(w);
    } else if op.delayMs > 0 {
      AddNodeInv(w, Node(ExpireTick(w.now, interval, op.delayMs), op.id), w.now, w.now);
    }
  }

  /** The wheel and the simple timer hold the same deadlines. */
  ghost predicate Agree(w: Wheel, s: Simple)
  {
    Inv(w) && s.now == w.now && multiset(s.pending) == Pending(w)
  }

  lemma ApplyAgree(w: Wheel, s: Simple, interval: nat, op: Op)
    requires Agree(w, s) && interval > 0
    ensures var (w', out) := Apply(w, interval, op);
      var (s', out') := ApplySimple(s, interval, op);
      Agree(w', s') && multiset(out) == multiset(out')
  {
    ApplyInv(w, interval, op);
    if op.Process? {
      var (w', out) := ProcessTick(w);
      ProcessTickInv(w);
      DueLater(s.pending, s.now);
      forall n | n in Pending(w')
        ensures n.expire != w.now
      {
        PendingIsAhead(w', n);
      }
      SplitUnique(multiset(out), Pending(w'), multiset(Due(s.pending, s.now)), multiset(Later(s.pending, s.now)),
                  w.now);
    } else if op.delayMs > 0 {
      var n := Node(ExpireTick(w.now, interval, op.delayMs), op.id);
      AddNodePending(w, n);
      assert multiset(s.pending + [n]) == multiset(s.pending) + multiset{n};
    }
  }

  /** The wheel refines the simple timer: over any interleaving of AddTiming calls and
      processed ticks, every operation releases the same multiset of nodes. */
  lemma {:induction false} WheelRefinesSimpleTimer(w: Wheel, s: Simple, interval: nat, ops: seq<Op>)
    requires Agree(w, s) && interval > 0
    ensures forall k :: 0 <= k < |ops| ==>
      multiset(Released(w, interval, ops)[k]) == multiset(ReleasedSimple(s, interval, ops)[k])
    decreases |ops|
  {
    if ops == [] {
    } else {
      ApplyAgree(w, s, interval, ops[0]);
      var (w', out) := Apply(w, interval, ops[0]);
      var (s', out') := ApplySimple(s, interval, ops[0]);
      WheelRefinesSimpleTimer(w', s', interval, ops[1..]);
      assert Released(w, interval, ops) == [out] + Released(w', interval, ops[1..]);
      assert ReleasedSimple(s, interval, ops) == [out'] + ReleasedSimple(s', interval, ops[1..]);
    }
  }

  ghost function Ticks(ops: seq<Op>): nat
  {
    if ops == [] then 0 else (if ops[0].Process? then 1 else 0) + Ticks(ops[1..])
  }

  /** One tick releases all pending nodes due now, and keeps the rest. */
  lemma ReleasedNow(w: Wheel, n: Node)
    requires Inv(w)
    ensures multiset(ProcessTick(w).1)[n] == if n.expire == w.now then Pending(w)[n] else 0
  {
    ProcessTickInv(w);
    var w' := ProcessTick(w).0;
    if Pending(w')[n] > 0 { PendingIsAhead(w', n); }
  }

  /** A node not due at this operation keeps its multiplicity, or gains some. */
  lemma StaysPending(w: Wheel, interval: nat, op: Op, n: Node)
    requires Inv(w) && interval > 0 && (op.Process? ==> n.expire != w.now)
    ensures Pending(Apply(w, interval, op).0)[n] >= Pending(w)[n]
  {
    if op.Process? {
      ProcessTickInv(w);
      ReleasedNow(w, n);
    } else if op.delayMs > 0 {
      AddNodePending(w, Node(ExpireTick(w.now, interval, op.delayMs), op.id));
    }
  }

  /** On time, and at no other time: a pending node is released, with its full
      multiplicity, by the operation that processes its expire tick; and whatever a
      processed tick releases expires at that tick. */
  lemma {:induction false} FiresExactlyOnTime(w: Wheel, interval: nat, ops: seq<Op>, k: nat, n: Node)
    requires Inv(w) && interval > 0 && k < |ops| && ops[k].Process?
    ensures multiset(Released(w, interval, ops)[k])[n] > 0 ==> n.expire == w.now + Ticks(ops[..k])
    ensures n.expire == w.now + Ticks(ops[..k]) ==> multiset(Released(w, interval, ops)[k])[n] >= Pending(w)[n]
    decreases k
  {
    var (w', out) := Apply(w, interval, ops[0]);
    assert Released(w, interval, ops) == [out] + Released(w', interval, ops[1..]);
    if k == 0 {
      ReleasedNow(w, n);
    } else {
      ApplyInv(w, interval, ops[0]);
      FiresExactlyOnTime(w', interval, ops[1..], k - 1, n);
      assert ops[..k][0] == ops[0] && ops[..k][1..] == ops[1..][..k - 1];
      if n.expire == w.now + Ticks(ops[..k]) { StaysPending(w, interval, ops[0], n); }
    }
  }

  ghost function AddedByOp(now: nat, interval: nat, op: Op): multiset<Node>
    requires interval > 0
  {
    if op.Add? && op.delayMs > 0 then multiset{Node(ExpireTick(now, interval, op.delayMs), op.id)} else multiset{}
  }

  ghost function FiredByOp(out: seq<Node>, op: Op): multiset<Node>
  {
    if op.Process? then multiset(out) else multiset{}
  }

  ghost function AddedBy(now: nat, interval: nat, ops: seq<Op>): multiset<Node>
    requires interval > 0
    decreases |ops|
  {
    if ops == [] then multiset{}
    else AddedByOp(now, interval, ops[0]) + AddedBy(now + (if ops[0].Process? then 1 else 0), interval, ops[1..])
  }

  ghost function FiredBy(released: seq<seq<Node>>, ops: seq<Op>): multiset<Node>
    requires |released| == |ops|
    decreases |ops|
  {
    if ops == [] then multiset{}
    else FiredByOp(released[0], ops[0]) + FiredBy(released[1..], ops[1..])
  }

  lemma ApplyConserves(w: Wheel, interval: nat, op: Op, w': Wheel, out: seq<Node>)
    requires Inv(w) && interval > 0 && (w', out) == Apply(w, interval, op)
    ensures Inv(w') && w'.now == w.now + (if op.Process? then 1 else 0)
    ensures Pending(w) + AddedByOp(w.now, interval, op) == Pending(w') + FiredByOp(out, op)
  {
    ApplyInv(w, interval, op);
    if op.Process? {
      ProcessTickInv(w);
    } else if op.delayMs > 0 {
      AddNodePending(w, Node(ExpireTick(w.now, interval, op.delayMs), op.id));
    }
  }

  lemma Chain(p: multiset<Node>, a: multiset<Node>, p': multiset<Node>, f: multiset<Node>,
              x: multiset<Node>, q: multiset<Node>, y: multiset<Node>)
    requires p + a == p' + f && p' + x == q + y
    ensures p + (a + x) == q + (f + y)
  {
    assert p + (a + x) == (p + a) + x;
    assert q + (f + y) == f + (q + y);
  }

  /** Conservation by a first operation, from pending `p` to `p'`, and by the rest of the
      run, from `p'` to `q`, add up. */
  lemma ConserveSums(p: multiset<Node>, now: nat, interval: nat, ops: seq<Op>, p': multiset<Node>, out: seq<Node>,
                     rest: seq<seq<Node>>, released: seq<seq<Node>>, q: multiset<Node>)
    requires interval > 0 && ops != [] && |rest| == |ops| - 1 && released == [out] + rest
    requires p + AddedByOp(now, interval, ops[0]) == p' + FiredByOp(out, ops[0])
    requires p' + AddedBy(now + (if ops[0].Process? then 1 else 0), interval, ops[1..]) == q + FiredBy(rest, ops[1..])
    ensures p + AddedBy(now, interval, ops) == q + FiredBy(released, ops)
  {
    assert released[1..] == rest;
    Chain(p, AddedByOp(now, interval, ops[0]), p', FiredByOp(out, ops[0]),
          AddedBy(now + (if ops[0].Process? then 1 else 0), interval, ops[1..]), q, FiredBy(rest, ops[1..]));
  }

  lemma ConserveStep(w: Wheel, interval: nat, ops: seq<Op>, w': Wheel, out: seq<Node>,
                     rest: seq<seq<Node>>, released: seq<seq<Node>>, end: Wheel)
    requires interval > 0 && ops != [] && |rest| == |ops| - 1 && released == [out] + rest
    requires w'.now == w.now + (if ops[0].Process? then 1 else 0)
    requires Pending(w) + AddedByOp(w.now, interval, ops[0]) == Pending(w') + FiredByOp(out, ops[0])
    requires Pending(w') + AddedBy(w'.now, interval, ops[1..]) == Pending(end) + FiredBy(rest, ops[1..])
    ensures Pending(w) + AddedBy(w.now, interval, ops) == Pending(end) + FiredBy(released, ops)
  {
    ConserveSums(Pending(w), w.now, interval, ops, Pending(w'), out, rest, released, Pending(end));
  }

  lemma RunHead(w: Wheel, interval: nat, ops: seq<Op>, w': Wheel, out: seq<Node>)
    requires Sized(w) && interval > 0 && ops != [] && (w', out) == Apply(w, interval, ops[0])
    ensures Released(w, interval, ops) == [out] + Released(w', interval, ops[1..])
    ensures Final(w, interval, ops) == Final(w', interval, ops[1..])
  {
  }

  /** Conservation: over any run, the nodes pending before plus the nodes added are the
      nodes still pending plus the nodes released by ticks; none is lost or duplicated. */
  lemma {:induction false} NoTimerLostOrDuplicated(w: Wheel, interval: nat, ops: seq<Op>)
    requires Inv(w) && interval > 0
    ensures Pending(w) + AddedBy(w.now, interval, ops)
      == Pending(Final(w, interval, ops)) + FiredBy(Released(w, interval, ops), ops)
    decreases |ops|
  {
    if ops == [] {
    } else {
      var (w', out) := Apply(w, interval, ops[0]);
      ApplyConserves(w, interval, ops[0], w', out);
      NoTimerLostOrDuplicated(w', interval, ops[1..]);
      RunHead(w, interval, ops, w', out);
      ConserveStep(w, interval, ops, w', out, Released(w', interval, ops[1..]), Released(w, interval, ops),
                   Final(w, interval, ops));
    }
  }

  /** Re-adding nodes takes none out of a level-2 bucket, and puts every node that is more
      than a turn of level 1 ahead into the bucket its expire tick selects. */
  lemma {:induction false} AddAllInto2(w: Wheel, bucket: Bucket, i: nat, n: Node)
    requires Sized(w) && i < LEVEL2_SIZE
    requires n in w.w2[i] || (n in bucket && n.expire - w.now >= SPAN1 && i == Slot2(n.expire))
    ensures n in AddAll(w, bucket).w2[i]
    decreases |bucket|
  {
    if bucket == [] {
    } else {
      AddAllInto2(AddNode(w, bucket[0]), bucket[1..], i, n);
    }
  }

  lemma FullTurn(now: nat)
    ensures Slot2(now + SPAN2) == Slot2(now)
  {
    assert (now + SPAN2) / SPAN1 == now / SPAN1 + LEVEL2_SIZE;
  }

  /** The boundary case: of the largest delay, added to any wheel, a node stands in the
      level-2 bucket of the current tick itself. */
  lemma LargestDelayIsFiledInOwnBucket(w: Wheel, id: int)
    requires Inv(w)
    ensures var n := Node(w.now + SPAN2, id); var i := Slot2(w.now);
      AddNode(w, n).w2[i] == w.w2[i] + [n] && Slot2(n.expire) == i
  {
    FullTurn(w.now);
  }

  /** And whatever the wheel holds besides, the cascades of that tick, which empty the very
      bucket on a 65536-tick boundary, put it back there, and the tick does not release it. */
  lemma LargestDelayReturnsToItsBucket(w: Wheel, n: Node)
    requires Inv(w) && n.expire == w.now + SPAN2 && n in w.w2[Slot2(w.now)]
    ensures n in Cascades(w).w2[Slot2(w.now)] && n in ProcessTick(w).0.w2[Slot2(w.now)]
    ensures n !in ProcessTick(w).1
  {
    var i := Slot2(w.now);
    FullTurn(w.now);
    ReleasedNow(w, n);
    if w.now % LEVEL0_SIZE == 0 && w.now > 0 {
      var j := Slot1(w.now);
      AddAllInto2(w.(w1 := w.w1[j := []]), w.w1[j], i, n);
      var w' := Cascade1(w, j);
      if j == 0 {
        AddAllInto2(w'.(w2 := w'.w2[i := []]), w'.w2[i], i, n);
      }
    }
  }

  // ------------------------------------------------------- what running a list means

  /** TimingNode::Execute on a list: the callbacks not cancelled. */
  function Executed(nodes: seq<Node>, cancelled: set<int>): seq<int>
  {
    if nodes == [] then []
    else
      var last := nodes[|nodes| - 1];
      Executed(nodes[..|nodes| - 1], cancelled) + (if last.id in cancelled then [] else [last.id])
  }

  /** `ran` reads ids off `nodes` at strictly increasing positions. */
  ghost predicate Embeds(nodes: seq<Node>, ran: seq<int>, ix: seq<nat>)
  {
    && |ix| == |ran|
    && (forall j :: 0 <= j < |ix| ==> ix[j] < |nodes| && ran[j] == nodes[ix[j]].id)
    && (forall i, j :: 0 <= i < j < |ix| ==> ix[i] < ix[j])
  }

  ghost predicate InOrder(nodes: seq<Node>, ran: seq<int>)
  {
    exists ix: seq<nat> :: Embeds(nodes, ran, ix)
  }

  function Ids(nodes: seq<Node>): (ids: seq<int>)
    ensures |ids| == |nodes| && forall i :: 0 <= i < |ids| ==> ids[i] == nodes[i].id
  {
    seq(|nodes|, i requires 0 <= i < |nodes| => nodes[i].id)
  }

  /** No cancelled callback ran, and every other one ran as often as it is in the list. */
  ghost predicate RanTimes(nodes: seq<Node>, cancelled: set<int>, ran: seq<int>)
  {
    forall id :: multiset(ran)[id] == if id in cancelled then 0 else multiset(Ids(nodes))[id]
  }

  /** And all ran in the order of the list. */
  ghost predicate RanLive(nodes: seq<Node>, cancelled: set<int>, ran: seq<int>)
  {
    RanTimes(nodes, cancelled, ran) && InOrder(nodes, ran)
  }

  lemma TimesNext(nodes: seq<Node>, cancelled: set<int>, ran: seq<int>, n: Node)
    requires RanTimes(nodes, cancelled, ran)
    ensures RanTimes(nodes + [n], cancelled, if n.id in cancelled then ran else ran + [n.id])
  {
    assert Ids(nodes + [n]) == Ids(nodes) + [n.id];
  }

  lemma OrderSkip(nodes: seq<Node>, ran: seq<int>, n: Node)
    requires InOrder(nodes, ran)
    ensures InOrder(nodes + [n], ran)
  {
    var ix: seq<nat> :| Embeds(nodes, ran, ix);
    assert Embeds(nodes + [n], ran, ix);
  }

  lemma OrderNext(nodes: seq<Node>, ran: seq<int>, n: Node)
    requires InOrder(nodes, ran)
    ensures InOrder(nodes + [n], ran + [n.id])
  {
    var ix: seq<nat> :| Embeds(nodes, ran, ix);
    var ix': seq<nat> := ix + [|nodes|];
    assert Embeds(nodes + [n], ran + [n.id], ix');
  }

  lemma NothingRan(cancelled: set<int>)
    ensures RanLive([], cancelled, [])
  {
    var none: seq<Node> := [];
    assert Ids(none) == [];
    assert Embeds(none, [], []);
  }

  lemma {:induction false} ExecutedIsLive(nodes: seq<Node>, cancelled: set<int>)
    ensures RanLive(nodes, cancelled, Executed(nodes, cancelled))
  {
    if nodes == [] {
      NothingRan(cancelled);
    } else {
      var front, last := nodes[..|nodes| - 1], nodes[|nodes| - 1];
      var ran := Executed(front, cancelled);
      ExecutedIsLive(front, cancelled);
      assert nodes == front + [last];
      TimesNext(front, cancelled, ran, last);
      if last.id in cancelled {
        OrderSkip(front, ran, last);
        assert ran + [] == ran;
      } else {
        OrderNext(front, ran, last);
      }
    }
  }
}
