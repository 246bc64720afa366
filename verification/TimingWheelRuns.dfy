/** Runs of the wheel of module TimingWheelSpec, as Tick makes them: the ticks it
    processes, the calls that other threads make in between, and the callbacks it runs. */
module TimingWheelRuns {
  import opened TimingWheelSpec

  // --------------------------------------------------------- runs, one step longer

  lemma {:induction false} RunSnoc(w: Wheel, interval: nat, ops: seq<Op>, op: Op)
    requires Sized(w) && interval > 0
    ensures Final(w, interval, ops + [op]) == Apply(Final(w, interval, ops), interval, op).0
    ensures Released(w, interval, ops + [op])
         == Released(w, interval, ops) + [Apply(Final(w, interval, ops), interval, op).1]
    decreases |ops|
  {
    if ops == [] {
      assert ops + [op] == [op] && [op][1..] == [];
    } else {
      assert (ops + [op])[0] == ops[0] && (ops + [op])[1..] == ops[1..] + [op];
      RunSnoc(Apply(w, interval, ops[0]).0, interval, ops[1..], op);
    }
  }

  /** The nodes that the processed ticks of a run release, in order. */
  ghost function Fired(released: seq<seq<Node>>, ops: seq<Op>): seq<Node>
    requires |released| == |ops|
  {
    if ops == [] then []
    else
      Fired(released[..|ops| - 1], ops[..|ops| - 1])
      + (if ops[|ops| - 1].Process? then released[|ops| - 1] else [])
  }

  lemma FiredSnoc(released: seq<seq<Node>>, ops: seq<Op>, out: seq<Node>, op: Op)
    requires |released| == |ops|
    ensures Fired(released + [out], ops + [op]) == Fired(released, ops) + (if op.Process? then out else [])
  {
    assert (ops + [op])[..|ops|] == ops && (released + [out])[..|ops|] == released;
  }

  lemma {:induction false} TicksSnoc(ops: seq<Op>, op: Op)
    ensures Ticks(ops + [op]) == Ticks(ops) + (if op.Process? then 1 else 0)
  {
    if ops == [] {
      assert ops + [op] == [op] && [op][1..] == [];
    } else {
      assert (ops + [op])[1..] == ops[1..] + [op];
      TicksSnoc(ops[1..], op);
    }
  }

  ghost predicate Ordered(nodes: seq<Node>)
  {
    forall i, j :: 0 <= i <= j < |nodes| ==> nodes[i].expire <= nodes[j].expire
  }

  /** The callbacks released by a run's ticks come in the order of their expire ticks. */
  lemma {:induction false} FiredOrdered(w: Wheel, interval: nat, ops: seq<Op>)
    requires Inv(w) && interval > 0
    ensures Inv(Final(w, interval, ops)) && Final(w, interval, ops).now == w.now + Ticks(ops)
    ensures var f := Fired(Released(w, interval, ops), ops);
      Ordered(f) && forall n :: n in f ==> w.now <= n.expire < w.now + Ticks(ops)
    decreases |ops|
  {
    if ops == [] {
    } else {
      var k := |ops| - 1;
      var before, op := ops[..k], ops[k];
      assert ops == before + [op];
      FiredOrdered(w, interval, before);
      RunSnoc(w, interval, before, op);
      TicksSnoc(before, op);
      var w1 := Final(w, interval, before);
      FiredSnoc(Released(w, interval, before), before, Apply(w1, interval, op).1, op);
      ApplyInv(w1, interval, op);
      if op.Process? { ProcessTickInv(w1); }
    }
  }

  /** Another thread's call of AddTiming. */
  datatype Arrival = Arrival(id: int, delayMs: nat)

  function Calls(arrivals: seq<Arrival>): seq<Op>
  {
    if arrivals == [] then []
    else Calls(arrivals[..|arrivals| - 1]) + [Add(arrivals[|arrivals| - 1].id, arrivals[|arrivals| - 1].delayMs)]
  }

  /** The operations of one Tick: before each processed tick, the calls that take the
      lock first. */
  function TickOps(arrivals: seq<seq<Arrival>>, ticks: nat): seq<Op>
  {
    if ticks == 0 then []
    else TickOps(arrivals, ticks - 1) + (if ticks <= |arrivals| then Calls(arrivals[ticks - 1]) else []) + [Process]
  }

  /** The position in the run of Tick where call `j` before tick `i` stands, and that of
      the tick itself. */
  function TickStart(arrivals: seq<seq<Arrival>>, i: nat): (p: nat)
  {
    if i == 0 then 0 else TickStart(arrivals, i - 1) + (if i <= |arrivals| then |arrivals[i - 1]| else 0) + 1
  }

  lemma {:induction false} CallsAt(arrivals: seq<Arrival>, j: nat)
    requires j < |arrivals|
    ensures |Calls(arrivals)| == |arrivals| && Calls(arrivals)[j] == Add(arrivals[j].id, arrivals[j].delayMs)
  {
    CallsLength(arrivals);
    CallsLength(arrivals[..|arrivals| - 1]);
    if j == |arrivals| - 1 {
    } else {
      CallsAt(arrivals[..|arrivals| - 1], j);
    }
  }

  lemma {:induction false} CallsLength(arrivals: seq<Arrival>)
    ensures |Calls(arrivals)| == |arrivals|
  {
    if arrivals == [] {
    } else {
      CallsLength(arrivals[..|arrivals| - 1]);
    }
  }

  lemma {:induction false} TickStartOrder(arrivals: seq<seq<Arrival>>, i: nat, ticks: nat)
    requires i <= ticks
    ensures TickStart(arrivals, i) + (ticks - i) <= TickStart(arrivals, ticks)
    decreases ticks - i
  {
    if i == ticks {
    } else {
      TickStartOrder(arrivals, i + 1, ticks);
    }
  }

  lemma {:induction false} TickOpsLength(arrivals: seq<seq<Arrival>>, ticks: nat)
    ensures |TickOps(arrivals, ticks)| == TickStart(arrivals, ticks)
  {
    if ticks == 0 {
    } else {
      TickOpsLength(arrivals, ticks - 1);
      if ticks <= |arrivals| { CallsLength(arrivals[ticks - 1]); }
    }
  }

  /** The runs of fewer ticks are prefixes. */
  lemma {:induction false} TickOpsPrefix(arrivals: seq<seq<Arrival>>, i: nat, ticks: nat)
    requires i <= ticks
    ensures TickOps(arrivals, i) <= TickOps(arrivals, ticks)
    decreases ticks - i
  {
    if i == ticks {
    } else {
      TickOpsPrefix(arrivals, i, ticks - 1);
    }
  }

  /** The last tick of a run, and the calls before it. */
  lemma TickOpsLast(arrivals: seq<seq<Arrival>>, i: nat, calls: seq<Op>)
    requires calls == if i < |arrivals| then Calls(arrivals[i]) else []
    ensures TickOps(arrivals, i + 1) == TickOps(arrivals, i) + calls + [Process]
    ensures |TickOps(arrivals, i)| == TickStart(arrivals, i)
    ensures TickStart(arrivals, i + 1) == TickStart(arrivals, i) + |calls| + 1
  {
    TickOpsLength(arrivals, i);
    if i < |arrivals| { CallsLength(arrivals[i]); }
  }

  lemma AtPrefix(all: seq<Op>, front: seq<Op>, calls: seq<Op>, j: nat)
    requires front + calls + [Process] <= all && j <= |calls|
    ensures all[|front| + j] == if j == |calls| then Process else calls[j]
  {
    assert (front + calls + [Process])[|front| + j] == if j == |calls| then Process else calls[j];
  }

  /** The run of Tick is, tick for tick, exactly the calls that came before the tick, in
      order and as they were made, and the tick: position `j` from where tick `i` starts. */
  lemma TickOpsAt(arrivals: seq<seq<Arrival>>, ticks: nat, i: nat, j: nat)
    requires i < ticks && j <= if i < |arrivals| then |arrivals[i]| else 0
    ensures |TickOps(arrivals, ticks)| == TickStart(arrivals, ticks)
    ensures TickStart(arrivals, i + 1) == TickStart(arrivals, i) + (if i < |arrivals| then |arrivals[i]| else 0) + 1
    ensures TickStart(arrivals, i) + j < TickStart(arrivals, ticks)
    ensures TickOps(arrivals, ticks)[TickStart(arrivals, i) + j] ==
      if i < |arrivals| && j < |arrivals[i]| then Add(arrivals[i][j].id, arrivals[i][j].delayMs) else Process
  {
    var calls := if i < |arrivals| then Calls(arrivals[i]) else [];
    if i < |arrivals| {
      CallsLength(arrivals[i]);
      if j < |arrivals[i]| { CallsAt(arrivals[i], j); }
    }
    TickOpsLast(arrivals, i, calls);
    TickOpsLength(arrivals, ticks);
    TickStartOrder(arrivals, i + 1, ticks);
    TickOpsPrefix(arrivals, i + 1, ticks);
    AtPrefix(TickOps(arrivals, ticks), TickOps(arrivals, i), calls, j);
  }

  /** What one Tick of `k` ticks does to wheel `w`: the run of these ticks, with the calls
      that came in between, leads to `w'`; and of the callbacks it released, in order,
      exactly those that were not cancelled ran, as often as they were released. */
  ghost predicate Ticked(w: Wheel, interval: nat, arrivals: seq<seq<Arrival>>, k: nat, cancelled: set<int>,
                         w': Wheel, ran: seq<int>)
    requires Sized(w) && interval > 0
  {
    var ops := TickOps(arrivals, k);
    var list := Fired(Released(w, interval, ops), ops);
    && w' == Final(w, interval, ops)
    && ran == Executed(list, cancelled)
    && RanLive(list, cancelled, ran)
  }

  /** The ticks of one Tick: they lead to `w'` and release `list`. */
  ghost predicate Processed(w: Wheel, interval: nat, arrivals: seq<seq<Arrival>>, k: nat, w': Wheel, list: seq<Node>)
    requires Sized(w) && interval > 0
  {
    var ops := TickOps(arrivals, k);
    w' == Final(w, interval, ops) && list == Fired(Released(w, interval, ops), ops)
  }

  lemma ListTicked(w: Wheel, interval: nat, arrivals: seq<seq<Arrival>>, k: nat, cancelled: set<int>,
                   w': Wheel, list: seq<Node>, ran: seq<int>)
    requires Sized(w) && interval > 0 && Processed(w, interval, arrivals, k, w', list)
    requires ran == Executed(list, cancelled)
    ensures Ticked(w, interval, arrivals, k, cancelled, w', ran)
  {
    ExecutedIsLive(list, cancelled);
  }

  lemma NothingTicked(w: Wheel, interval: nat, arrivals: seq<seq<Arrival>>, cancelled: set<int>)
    requires Sized(w) && interval > 0
    ensures Ticked(w, interval, arrivals, 0, cancelled, w, [])
  {
    NothingRan(cancelled);
  }
}
