/** The class TimingWheel of CppNetEngine/TimingWheel.cpp, its fields updated in place,
    proved against module TimingWheelSpec; and the real-time bounds of Tick.

    The clock is a parameter, in nanoseconds and never running backwards.  Calls of
    AddTiming by other threads that take the lock between two ticks of one Tick are a
    parameter too, and so are the callbacks cancelled by the time they would run. */
module TimingWheel {
  import opened TimingWheelSpec
  import opened TimingWheelRuns

  const DEFAULT_TICK_INTERVAL := 16
  const NS_PER_MS := 1000000

  class TimingWheel {
    var mbTicking: bool
    const mTickIntervalMs: nat
    var mCurrentTick: nat
    var mLastTickTime: int
    var mWheel0: seq<Bucket>
    var mWheel1: seq<Bucket>
    var mWheel2: seq<Bucket>
    ghost const start: int

    ghost function View(): Wheel
      reads this
    {
      Wheel(mCurrentTick, mWheel0, mWheel1, mWheel2)
    }

    /** What the lock protects: the wheel's invariant. */
    ghost predicate WheelOk()
      reads this
    {
      mTickIntervalMs >= DEFAULT_TICK_INTERVAL && Inv(View())
    }

    /** Outside a Tick also the last tick time is exactly the start plus one interval per
        processed tick. */
    ghost predicate Valid()
      reads this
    {
      && WheelOk()
      && mLastTickTime == TimeOf(mCurrentTick)
    }

    constructor (tickInterval: nat, now: int)
      ensures Valid() && !mbTicking && mCurrentTick == 0 && start == now
      ensures mTickIntervalMs == if tickInterval < DEFAULT_TICK_INTERVAL then DEFAULT_TICK_INTERVAL else tickInterval
      ensures Pending(View()) == multiset{}
    {
      mbTicking := false;
      mTickIntervalMs := if tickInterval < DEFAULT_TICK_INTERVAL then DEFAULT_TICK_INTERVAL else tickInterval;
      mCurrentTick := 0;
      mLastTickTime := now;
      start := now;
      mWheel0 := seq(LEVEL0_SIZE, _ => []);
      mWheel1 := seq(LEVEL1_SIZE, _ => []);
      mWheel2 := seq(LEVEL2_SIZE, _ => []);
      new;
      FlatEmpty(mWheel0);
      FlatEmpty(mWheel1);
      FlatEmpty(mWheel2);
    }

    method AddNode(n: Node)
      requires Sized(View())
      modifies this`mWheel0, this`mWheel1, this`mWheel2
      ensures View() == TimingWheelSpec.AddNode(old(View()), n)
    {
      var delay := n.expire - mCurrentTick;
      if delay < LEVEL0_SIZE {
        mWheel0 := PushBack(mWheel0, n.expire % LEVEL0_SIZE, n);
      } else if delay < SPAN1 {
        mWheel1 := PushBack(mWheel1, Slot1(n.expire), n);
      } else {
        mWheel2 := PushBack(mWheel2, Slot2(n.expire), n);
      }
    }

    /** Splices bucket `i` of level 1 or 2 into a temporary list, then re-adds it. */
    method Cascade(level: nat, i: nat)
      requires Sized(View()) && (level == 1 || level == 2)
      requires i < if level == 1 then LEVEL1_SIZE else LEVEL2_SIZE
      modifies this`mWheel0, this`mWheel1, this`mWheel2
      ensures View() == if level == 1 then Cascade1(old(View()), i) else Cascade2(old(View()), i)
    {
      var temp;
      if level == 1 {
        temp := mWheel1[i];
        mWheel1 := mWheel1[i := []];
      } else {
        temp := mWheel2[i];
        mWheel2 := mWheel2[i := []];
      }
      ghost var cleared := View();
      var k := 0;
      while k < |temp|
        invariant 0 <= k <= |temp| && Sized(View())
        invariant AddAll(View(), temp[k..]) == AddAll(cleared, temp)
        invariant mCurrentTick == old(mCurrentTick)
      {
        assert temp[k..][0] == temp[k] && temp[k..][1..] == temp[k + 1..];
        AddNode(temp[k]);
        k := k + 1;
      }
      assert temp[k..] == [];
    }

    method ProcessTick(executeList: seq<Node>) returns (r: seq<Node>)
      requires Sized(View())
      modifies this`mWheel0, this`mWheel1, this`mWheel2
      ensures View().(now := mCurrentTick + 1) == TimingWheelSpec.ProcessTick(old(View())).0
      ensures r == executeList + TimingWheelSpec.ProcessTick(old(View())).1
    {
      var depth0 := mCurrentTick % LEVEL0_SIZE;
      if depth0 == 0 && mCurrentTick > 0 {
        var depth1 := Slot1(mCurrentTick);
        Cascade(1, depth1);
        if depth1 == 0 {
          var depth2 := Slot2(mCurrentTick);
          Cascade(2, depth2);
        }
      }
      r := executeList + mWheel0[depth0];
      mWheel0 := mWheel0[depth0 := []];
    }

    /** Files a callback under its expire tick; with delay 0 it runs at once. */
    method AddTiming(id: int, delayMs: nat) returns (ranNow: bool)
      requires WheelOk()
      modifies this`mWheel0, this`mWheel1, this`mWheel2
      ensures WheelOk() && (old(Valid()) ==> Valid())
      ensures View() == Apply(old(View()), mTickIntervalMs, Add(id, delayMs)).0
      ensures ranNow <==> delayMs == 0
    {
      ApplyInv(View(), mTickIntervalMs, Add(id, delayMs));
      if delayMs == 0 {
        return true;
      }
      var maxDelayMs := mTickIntervalMs * LEVEL0_SIZE * LEVEL1_SIZE * LEVEL2_SIZE;
      var safeDelayMs := if delayMs <= maxDelayMs then delayMs else maxDelayMs;
      assert maxDelayMs == mTickIntervalMs * SPAN2;
      AddNode(Node(mCurrentTick + safeDelayMs / mTickIntervalMs, id));
      return false;
    }

    /** Other threads' calls that get in before the next tick is processed. */
    method Interleave(arrivals: seq<Arrival>, ghost w: Wheel, ghost ops: seq<Op>)
      requires WheelOk() && Sized(w) && View() == Final(w, mTickIntervalMs, ops)
      modifies this`mWheel0, this`mWheel1, this`mWheel2
      ensures WheelOk() && View() == Final(w, mTickIntervalMs, ops + Calls(arrivals))
      ensures Fired(Released(w, mTickIntervalMs, ops + Calls(arrivals)), ops + Calls(arrivals))
           == Fired(Released(w, mTickIntervalMs, ops), ops)
    {
      var k := 0;
      assert arrivals[..0] == [] && ops + Calls([]) == ops;
      while k < |arrivals|
        invariant 0 <= k <= |arrivals|
        invariant WheelOk() && mCurrentTick == old(mCurrentTick)
        invariant View() == Final(w, mTickIntervalMs, ops + Calls(arrivals[..k]))
        invariant Fired(Released(w, mTickIntervalMs, ops + Calls(arrivals[..k])), ops + Calls(arrivals[..k]))
               == Fired(Released(w, mTickIntervalMs, ops), ops)
      {
        ghost var before := ops + Calls(arrivals[..k]);
        ghost var op := Add(arrivals[k].id, arrivals[k].delayMs);
        assert arrivals[..k + 1][..k] == arrivals[..k];
        assert ops + Calls(arrivals[..k + 1]) == before + [op];
        RunSnoc(w, mTickIntervalMs, before, op);
        FiredSnoc(Released(w, mTickIntervalMs, before), before, Apply(View(), mTickIntervalMs, op).1, op);
        var _ := AddTiming(arrivals[k].id, arrivals[k].delayMs);
        k := k + 1;
      }
      assert arrivals[..k] == arrivals;
    }

    /** One processed tick, under the lock. */
    method OneTick(executeList: seq<Node>, ghost w: Wheel, ghost ops: seq<Op>) returns (r: seq<Node>)
      requires WheelOk() && Sized(w) && View() == Final(w, mTickIntervalMs, ops)
      requires executeList == Fired(Released(w, mTickIntervalMs, ops), ops)
      modifies this`mWheel0, this`mWheel1, this`mWheel2, this`mCurrentTick
      ensures WheelOk() && mCurrentTick == old(mCurrentTick) + 1
      ensures View() == Final(w, mTickIntervalMs, ops + [Process])
      ensures r == Fired(Released(w, mTickIntervalMs, ops + [Process]), ops + [Process])
    {
      ghost var v := View();
      ProcessTickInv(v);
      RunSnoc(w, mTickIntervalMs, ops, Process);
      FiredSnoc(Released(w, mTickIntervalMs, ops), ops, TimingWheelSpec.ProcessTick(v).1, Process);
      r := ProcessTick(executeList);
      mCurrentTick := mCurrentTick + 1;
    }

    /** After the operations `ops` from wheel `w`, with the nodes they released. */
    ghost predicate Reached(w: Wheel, ops: seq<Op>, executeList: seq<Node>)
      requires Sized(w) && mTickIntervalMs > 0
      reads this
    {
      View() == Final(w, mTickIntervalMs, ops) && executeList == Fired(Released(w, mTickIntervalMs, ops), ops)
    }

    /** One turn of Tick's loop, with the calls that take the lock before it. */
    method Turn(i: nat, arrivals: seq<seq<Arrival>>, executeList: seq<Node>, ghost w: Wheel) returns (r: seq<Node>)
      requires WheelOk() && Sized(w) && Reached(w, TickOps(arrivals, i), executeList)
      modifies this`mWheel0, this`mWheel1, this`mWheel2, this`mCurrentTick
      ensures WheelOk() && mCurrentTick == old(mCurrentTick) + 1 && Reached(w, TickOps(arrivals, i + 1), r)
    {
      ghost var ops := TickOps(arrivals, i);
      if i < |arrivals| {
        Interleave(arrivals[i], w, ops);
        ops := ops + Calls(arrivals[i]);
      } else {
        assert ops + [] == ops;
      }
      r := OneTick(executeList, w, ops);
      assert TickOps(arrivals, i + 1) == ops + [Process];
    }

    /** Runs what was released, in order, except what was cancelled. */
    method Execute(executeList: seq<Node>, cancelled: set<int>) returns (ran: seq<int>)
      ensures ran == Executed(executeList, cancelled)
      ensures RanLive(executeList, cancelled, ran)
    {
      ran := [];
      var k := 0;
      while k < |executeList|
        invariant 0 <= k <= |executeList| && ran == Executed(executeList[..k], cancelled)
      {
        assert executeList[..k + 1][..k] == executeList[..k];
        if executeList[k].id !in cancelled {
          ran := ran + [executeList[k].id];
        }
        k := k + 1;
      }
      assert executeList[..k] == executeList;
      ExecutedIsLive(executeList, cancelled);
    }

    method ProcessTicks(tickCount: nat, arrivals: seq<seq<Arrival>>) returns (executeList: seq<Node>)
      requires WheelOk()
      modifies this`mWheel0, this`mWheel1, this`mWheel2, this`mCurrentTick
      ensures WheelOk() && mCurrentTick == old(mCurrentTick) + tickCount
      ensures Processed(old(View()), mTickIntervalMs, arrivals, tickCount, View(), executeList)
    {
      ghost var w := View();
      executeList := [];
      var i := 0;
      while i < tickCount
        invariant 0 <= i <= tickCount
        invariant WheelOk() && mCurrentTick == old(mCurrentTick) + i
        invariant Reached(w, TickOps(arrivals, i), executeList)
      {
        executeList := Turn(i, arrivals, executeList, w);
        i := i + 1;
      }
    }

    /** The last tick time when the current tick is `tick`. */
    ghost function TimeOf(tick: nat): int
    {
      start + tick * (mTickIntervalMs * NS_PER_MS)
    }

    method MoveTime(tickCount: nat)
      requires Valid()
      modifies this`mLastTickTime
      ensures mLastTickTime == TimeOf(mCurrentTick + tickCount)
    {
      MoreIntervals(mCurrentTick, tickCount, mTickIntervalMs, NS_PER_MS);
      mLastTickTime := mLastTickTime + tickCount * mTickIntervalMs * NS_PER_MS;
    }

    /** The part of Tick up to the flag: the last tick time moves on by whole intervals, and
        the ticks are processed. */
    method MoveOn(tickCount: nat, arrivals: seq<seq<Arrival>>) returns (executeList: seq<Node>)
      requires Valid()
      modifies this
      ensures Valid() && !mbTicking && mCurrentTick == old(mCurrentTick) + tickCount
      ensures Processed(old(View()), mTickIntervalMs, arrivals, tickCount, View(), executeList)
    {
      ghost var w := View();
      MoveTime(tickCount);
      assert View() == w;
      executeList := ProcessTicks(tickCount, arrivals);
      ghost var w' := View();
      mbTicking := false;
      assert View() == w';
    }

    /** Processes every whole interval since the last tick, then runs what was released.
        A Tick that finds another one under way does nothing.  However late it comes, it
        leaves the current tick at the number of whole intervals since the start. */
    method Tick(now: int, arrivals: seq<seq<Arrival>>, cancelled: set<int>) returns (ran: seq<int>)
      requires Valid() && now >= mLastTickTime
      modifies this
      ensures old(mbTicking) ==> View() == old(View()) && mLastTickTime == old(mLastTickTime) && mbTicking && ran == []
      ensures Valid()
      ensures !old(mbTicking) ==>
        && !mbTicking
        && mCurrentTick == (now - start) / (mTickIntervalMs * NS_PER_MS)
        && mCurrentTick >= old(mCurrentTick)
        && Ticked(old(View()), mTickIntervalMs, arrivals, mCurrentTick - old(mCurrentTick), cancelled, View(), ran)
    {
      if mbTicking {
        return [];
      }
      mbTicking := true;
      var elapsedMs := (now - mLastTickTime) / NS_PER_MS;
      WholeIntervals(start, mLastTickTime, mCurrentTick, mTickIntervalMs, now);
      if elapsedMs < mTickIntervalMs {
        NothingTicked(View(), mTickIntervalMs, arrivals, cancelled);
        mbTicking := false;
        return [];
      }
      var tickCount := elapsedMs / mTickIntervalMs;
      ghost var w := View();
      var executeList := MoveOn(tickCount, arrivals);
      ran := Execute(executeList, cancelled);
      ListTicked(w, mTickIntervalMs, arrivals, tickCount, cancelled, View(), executeList, ran);
    }
  }

  lemma MoreIntervals(tick: int, k: int, interval: int, ns: int)
    ensures tick * (interval * ns) + k * interval * ns == (tick + k) * (interval * ns)
  {
  }

  lemma {:induction false} FlatEmpty(level: seq<Bucket>)
    requires forall i :: 0 <= i < |level| ==> level[i] == []
    ensures Flat(level) == multiset{}
  {
    if level == [] {
    } else {
      FlatEmpty(level[1..]);
    }
  }

  /** Truncating the elapsed time twice, to milliseconds and to intervals, loses nothing:
      the tick after this Tick is the number of whole intervals since the start. */
  lemma WholeIntervals(start: int, last: int, tick: nat, interval: nat, now: int)
    requires interval > 0 && now >= last && last == start + tick * (interval * NS_PER_MS)
    ensures (now - last) / NS_PER_MS / interval + tick == (now - start) / (interval * NS_PER_MS)
  {
    var d := now - last;
    var unit := interval * NS_PER_MS;
    var q := d / NS_PER_MS / interval;
    var ms := d / NS_PER_MS;
    assert d == ms * NS_PER_MS + d % NS_PER_MS && ms == q * interval + ms % interval;
    assert (now - start) == (q + tick) * unit + (ms % interval) * NS_PER_MS + d % NS_PER_MS;
    var r := (ms % interval) * NS_PER_MS + d % NS_PER_MS;
    assert 0 <= r < unit;
    DivUnique(now - start, unit, q + tick, r);
  }

  // ----------------------------------------------------------- real-time bounds

  /** AddTiming's clamp on a delay. */
  function SafeDelay(interval: nat, delayMs: nat): (d: nat)
    ensures d <= delayMs && d <= interval * SPAN2 && (d == delayMs || d == interval * SPAN2)
  {
    if delayMs <= interval * SPAN2 then delayMs else interval * SPAN2
  }

  /** The time of the earliest Tick that can run a timer: one interval per whole interval
      of its clamped delay, plus one, after the last tick time when it was added. */
  function FireTime(last: int, interval: nat, delayMs: nat): int
    requires interval > 0
  {
    last + (SafeDelay(interval, delayMs) / interval + 1) * (interval * NS_PER_MS)
  }

  /** When a timer can fire.  It is added when the current tick is `tick` and the last
      tick time `last`.  A Tick at `now` leaves the current tick at the whole intervals
      since the start, and so has processed the timer's expire tick, if and only if
      `now` has reached the fire time. */
  lemma FiringTime(start: int, last: int, tick: nat, interval: nat, delayMs: nat, now: int)
    requires interval > 0 && now >= last && last == start + tick * (interval * NS_PER_MS)
    ensures ExpireTick(tick, interval, delayMs) < (now - start) / (interval * NS_PER_MS)
      <==> now >= FireTime(last, interval, delayMs)
  {
    var unit := interval * NS_PER_MS;
    var k := SafeDelay(interval, delayMs) / interval + 1;
    FloorAtLeast(now - start, unit, tick + k);
    assert (tick + k) * unit == tick * unit + k * unit;
  }

  /** The fire time is strictly later than `last` plus the delay exactly when the delay
      is less than one interval past the largest one; and it is never more than one
      interval later than that. */
  lemma FireTimeBounds(last: int, interval: nat, delayMs: nat)
    requires interval > 0
    ensures FireTime(last, interval, delayMs) > last + delayMs * NS_PER_MS <==> delayMs < interval * (SPAN2 + 1)
    ensures FireTime(last, interval, delayMs) <= last + (delayMs + interval) * NS_PER_MS
  {
    var safe := SafeDelay(interval, delayMs);
    var k := safe / interval;
    assert safe == k * interval + safe % interval;
    assert (k + 1) * (interval * NS_PER_MS) == (k * interval + interval) * NS_PER_MS;
    if safe != delayMs { FloorAtLeast(safe, interval, SPAN2); Quotient(safe, interval, SPAN2); }
  }

  lemma Quotient(a: nat, unit: nat, k: nat)
    requires unit > 0 && a == unit * k
    ensures a / unit == k && a % unit == 0
  {
    DivUnique(a, unit, k, 0);
  }

  lemma FloorAtLeast(a: int, unit: int, k: int)
    requires unit > 0
    ensures a / unit >= k <==> a >= k * unit
  {
    var q := a / unit;
    assert 0 <= a - q * unit < unit;
    if q >= k {
      assert (q - k) * unit >= 0;
      assert q * unit == (q - k) * unit + k * unit;
    } else {
      Times(k - q, unit);
      assert k * unit == (k - q) * unit + q * unit;
    }
  }

  /** A pending node stays pending until a tick releases it. */
  lemma {:induction false} PendingOrFired(w: Wheel, interval: nat, ops: seq<Op>, n: Node)
    requires Inv(w) && interval > 0 && Pending(w)[n] > 0
    ensures Pending(Final(w, interval, ops))[n] > 0 || n in Fired(Released(w, interval, ops), ops)
    decreases |ops|
  {
    if ops == [] {
    } else {
      var before, op := ops[..|ops| - 1], ops[|ops| - 1];
      assert ops == before + [op];
      PendingOrFired(w, interval, before, n);
      FiredOrdered(w, interval, before);
      RunSnoc(w, interval, before, op);
      var w1 := Final(w, interval, before);
      FiredSnoc(Released(w, interval, before), before, Apply(w1, interval, op).1, op);
      if op.Process? {
        ProcessTickInv(w1);
      } else if op.delayMs > 0 {
        AddNodePending(w1, Node(ExpireTick(w1.now, interval, op.delayMs), op.id));
      }
    }
  }

  /** From AddTiming to the callback, in real time.  A timer is added when the last tick
      time is `last`; then come any further calls and Ticks, the last effective Tick at
      `now`, so that the current tick is the number of whole intervals since the start.
      The timer has been released by then if and only if `now` has reached its fire
      time: never by an earlier Tick, and by the first one at or after it. */
  lemma TimerFiresExactlyWhen(w: Wheel, start: int, last: int, interval: nat, id: int, delayMs: nat,
                              ops: seq<Op>, now: int)
    requires Inv(w) && interval > 0 && delayMs > 0 && now >= last
    requires last == start + w.now * (interval * NS_PER_MS)
    requires w.now + Ticks(ops) == (now - start) / (interval * NS_PER_MS)
    ensures var w1 := Apply(w, interval, Add(id, delayMs)).0;
      Node(ExpireTick(w.now, interval, delayMs), id) in Fired(Released(w1, interval, ops), ops)
      <==> now >= FireTime(last, interval, delayMs)
  {
    var n := Node(ExpireTick(w.now, interval, delayMs), id);
    var w1 := Apply(w, interval, Add(id, delayMs)).0;
    ApplyInv(w, interval, Add(id, delayMs));
    AddNodePending(w, n);
    FiringTime(start, last, w.now, interval, delayMs, now);
    FiredOrdered(w1, interval, ops);
    PendingOrFired(w1, interval, ops, n);
    var end := Final(w1, interval, ops);
    if Pending(end)[n] > 0 { PendingIsAhead(end, n); }
  }

  /** A timer may fire before its delay has passed since it was added, because the delay
      is counted from the last tick: not so after a call `late` nanoseconds past it. */
  predicate OnTime(last: int, late: nat, interval: nat, delayMs: nat)
    requires interval > 0
  {
    FireTime(last, interval, delayMs) >= last + late + delayMs * NS_PER_MS
  }

  /** The milliseconds from the delay to the fire time. */
  function Slack(interval: nat, delayMs: nat): int
    requires interval > 0
  {
    var safe := SafeDelay(interval, delayMs);
    safe - safe % interval + interval - delayMs
  }

  lemma OnTimeIsSlack(last: int, late: nat, interval: nat, delayMs: nat)
    requires interval > 0
    ensures OnTime(last, late, interval, delayMs) <==> late <= Slack(interval, delayMs) * NS_PER_MS
  {
    var safe := SafeDelay(interval, delayMs);
    var k := safe / interval;
    assert safe == k * interval + safe % interval;
    assert (k + 1) * (interval * NS_PER_MS) == (k * interval + interval) * NS_PER_MS;
  }

  lemma SlackIsWholeInterval(interval: nat, delayMs: nat)
    requires interval > 0
    ensures Slack(interval, delayMs) >= interval <==> delayMs % interval == 0 && delayMs <= interval * SPAN2
  {
    if SafeDelay(interval, delayMs) != delayMs {
      Quotient(interval * SPAN2, interval, SPAN2);
    }
  }

  /** Which timers are never early: of the calls that come less than one interval after
      the last tick, as all do while Tick keeps pace, none fires its timer early if and
      only if the delay is a whole number of intervals and no more than the largest. */
  lemma NeverEarlyExactlyWhen(last: int, interval: nat, delayMs: nat)
    requires interval > 0
    ensures (forall late: nat :: late < interval * NS_PER_MS ==> OnTime(last, late, interval, delayMs))
      <==> delayMs % interval == 0 && delayMs <= interval * SPAN2
  {
    SlackIsWholeInterval(interval, delayMs);
    var slack := Slack(interval, delayMs);
    if slack >= interval {
      forall late: nat | late < interval * NS_PER_MS
        ensures OnTime(last, late, interval, delayMs)
      {
        OnTimeIsSlack(last, late, interval, delayMs);
      }
    } else {
      OnTimeIsSlack(last, interval * NS_PER_MS - 1, interval, delayMs);
      assert !OnTime(last, interval * NS_PER_MS - 1, interval, delayMs);
    }
  }

  /** A run that fires early: in an empty wheel of the default interval, started at time
      0, a call at 15 ms sets a timer of 31 ms, due at 46 ms; the Tick at 32 ms processes
      two ticks, and the second of them releases it. */
  lemma EarlyExample(id: int)
    ensures var empty := Wheel(0, seq(LEVEL0_SIZE, _ => []), seq(LEVEL1_SIZE, _ => []), seq(LEVEL2_SIZE, _ => []));
      var w := Apply(empty, DEFAULT_TICK_INTERVAL, Add(id, 31)).0;
      && TickOps([], (32 * NS_PER_MS) / (DEFAULT_TICK_INTERVAL * NS_PER_MS)) == [Process, Process]
      && Released(w, DEFAULT_TICK_INTERVAL, [Process, Process]) == [[], [Node(1, id)]]
      && Executed(Fired([[], [Node(1, id)]], [Process, Process]), {}) == [id]
      && !OnTime(0, 15 * NS_PER_MS, DEFAULT_TICK_INTERVAL, 31)
  {
    var empty := Wheel(0, seq(LEVEL0_SIZE, _ => []), seq(LEVEL1_SIZE, _ => []), seq(LEVEL2_SIZE, _ => []));
    var w := Apply(empty, DEFAULT_TICK_INTERVAL, Add(id, 31)).0;
    assert w.w0[1] == [Node(1, id)] && w.w0[0] == [];
    var (w1, out1) := ProcessTick(w);
    assert out1 == [] && w1.now == 1 && w1.w0[1] == [Node(1, id)];
    var (w2, out2) := ProcessTick(w1);
    assert out2 == [Node(1, id)];
    TwoTicks(w, DEFAULT_TICK_INTERVAL);
    FiredTwo([], [Node(1, id)]);
    assert [Node(1, id)][..0] == [];
    assert TickOps([], 1) == [Process];
  }

  lemma FiredTwo(out1: seq<Node>, out2: seq<Node>)
    ensures Fired([out1, out2], [Process, Process]) == out1 + out2
  {
    var none: seq<seq<Node>> := [];
    FiredSnoc(none, [], out1, Process);
    FiredSnoc([out1], [Process], out2, Process);
    assert none + [out1] == [out1] && [out1] + [out2] == [out1, out2];
    assert [] + [Process] == [Process] && [Process] + [Process] == [Process, Process];
  }

  lemma TwoTicks(w: Wheel, interval: nat)
    requires Sized(w) && interval > 0
    ensures Released(w, interval, [Process, Process]) == [ProcessTick(w).1, ProcessTick(ProcessTick(w).0).1]
  {
    RunSnoc(w, interval, [], Process);
    RunSnoc(w, interval, [Process], Process);
    assert [] + [Process] == [Process] && [Process] + [Process] == [Process, Process];
  }
}
