/** Counting the threads of a machine.

    Each machine of this project keeps its threads as a sequence of program
    counters, one per thread.  Its gate arguments count the threads that stand in
    a given region of the code; a step moves one thread and so changes such a count
    by at most one. */
module Threads {
  import opened Common

  function Bit(b: bool): (n: nat)
  {
    if b then 1 else 0
  }

  /** The number of threads whose program counter satisfies `f`. */
  ghost function Count<P>(ts: seq<P>, f: P -> bool): (n: nat)
  {
    if ts == [] then 0 else Bit(f(ts[0])) + Count(ts[1..], f)
  }

  lemma {:induction false} CountUpdate<P>(ts: seq<P>, t: nat, p: P, f: P -> bool)
    requires t < |ts|
    ensures Count(ts[t := p], f) == Count(ts, f) - Bit(f(ts[t])) + Bit(f(p))
  {
    if t == 0 {
      assert ts[0 := p][1..] == ts[1..];
    } else {
      assert ts[t := p][1..] == ts[1..][t - 1 := p];
      CountUpdate(ts[1..], t - 1, p, f);
    }
  }

  /** A thread inside a region is counted. */
  lemma {:induction false} CountMember<P>(ts: seq<P>, t: nat, f: P -> bool)
    requires t < |ts| && f(ts[t])
    ensures Count(ts, f) >= 1
  {
    if t == 0 {
    } else {
      CountMember(ts[1..], t - 1, f);
    }
  }

  /** Two different threads inside a region are both counted. */
  lemma {:induction false} CountTwo<P>(ts: seq<P>, t: nat, u: nat, f: P -> bool)
    requires t < u < |ts| && f(ts[t]) && f(ts[u])
    ensures Count(ts, f) >= 2
  {
    if t == 0 {
      CountMember(ts[1..], u - 1, f);
    } else {
      CountTwo(ts[1..], t - 1, u - 1, f);
    }
  }

  /** No thread inside a region, no count. */
  lemma {:induction false} CountNone<P>(ts: seq<P>, f: P -> bool)
    requires forall t :: 0 <= t < |ts| ==> !f(ts[t])
    ensures Count(ts, f) == 0
  {
    if ts == [] {
    } else {
      CountNone(ts[1..], f);
    }
  }

  /** Regions that exclude each other hold at most all the threads together. */
  lemma {:induction false} CountDisjoint<P>(ts: seq<P>, f: P -> bool, g: P -> bool, h: P -> bool)
    requires forall t :: 0 <= t < |ts| ==> Bit(f(ts[t])) + Bit(g(ts[t])) + Bit(h(ts[t])) <= 1
    ensures Count(ts, f) + Count(ts, g) + Count(ts, h) <= |ts|
  {
    if ts == [] {
    } else {
      CountDisjoint(ts[1..], f, g, h);
    }
  }

  function Single<V>(o: Option<V>): multiset<V>
  {
    if o.Some? then multiset{o.value} else multiset{}
  }

  /** The values that the threads carry, as `f` reads them off their program counters. */
  ghost function Gather<P, V>(ts: seq<P>, f: P -> Option<V>): multiset<V>
  {
    if ts == [] then multiset{} else Single(f(ts[0])) + Gather(ts[1..], f)
  }

  lemma {:induction false} GatherUpdate<P, V>(ts: seq<P>, t: nat, p: P, f: P -> Option<V>)
    requires t < |ts|
    ensures Gather(ts[t := p], f) + Single(f(ts[t])) == Gather(ts, f) + Single(f(p))
  {
    if t == 0 {
      assert ts[0 := p][1..] == ts[1..];
      AddEnds(Single(f(ts[0])), Gather(ts[1..], f), Single(f(p)));
    } else {
      assert ts[t := p][1..] == ts[1..][t - 1 := p];
      GatherUpdate(ts[1..], t - 1, p, f);
      AddBoth(Single(f(ts[0])), Gather(ts[1..][t - 1 := p], f), Single(f(ts[t])), Gather(ts[1..], f), Single(f(p)));
    }
  }

  lemma AddEnds<V>(a: multiset<V>, b: multiset<V>, c: multiset<V>)
    ensures (c + b) + a == (a + b) + c
  {
  }

  lemma AddBoth<V>(a: multiset<V>, b: multiset<V>, x: multiset<V>, c: multiset<V>, y: multiset<V>)
    requires b + x == c + y
    ensures (a + b) + x == (a + c) + y
  {
    assert (a + b) + x == a + (b + x);
  }

  lemma {:induction false} GatherNone<P, V>(ts: seq<P>, f: P -> Option<V>)
    requires forall t :: 0 <= t < |ts| ==> f(ts[t]).None?
    ensures Gather(ts, f) == multiset{}
  {
    if ts == [] {
    } else {
      GatherNone(ts[1..], f);
    }
  }
}
