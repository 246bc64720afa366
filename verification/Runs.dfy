/** Runs of a machine: a schedule names, for each step, the thread that moves and the
    choices it meets; `move` says what a thread's step does to the state. */
module Runs {

  ghost function Run<S, C>(move: (S, nat, C) -> S, s: S, sched: seq<(nat, C)>): S
    decreases |sched|
  {
    if sched == [] then s else Run(move, move(s, sched[0].0, sched[0].1), sched[1..])
  }

  /** What every step keeps, every run keeps. */
  lemma {:induction false} RunKeeps<S, C>(move: (S, nat, C) -> S, keeps: S -> bool, s: S, sched: seq<(nat, C)>)
    requires forall x, t, ch :: keeps(x) ==> keeps(move(x, t, ch))
    requires keeps(s)
    ensures keeps(Run(move, s, sched))
    decreases |sched|
  {
    if sched == [] {
    } else {
      RunKeeps(move, keeps, move(s, sched[0].0, sched[0].1), sched[1..]);
    }
  }

  lemma {:induction false} RunSnoc<S, C>(move: (S, nat, C) -> S, s: S, sched: seq<(nat, C)>, t: nat, ch: C)
    ensures Run(move, s, sched + [(t, ch)]) == move(Run(move, s, sched), t, ch)
    decreases |sched|
  {
    if sched == [] {
      assert [(t, ch)][1..] == [];
    } else {
      assert (sched + [(t, ch)])[1..] == sched[1..] + [(t, ch)];
      RunSnoc(move, move(s, sched[0].0, sched[0].1), sched[1..], t, ch);
    }
  }

  ghost predicate Reaches<S, C(!new)>(move: (S, nat, C) -> S, s: S, s': S)
  {
    exists sched: seq<(nat, C)> :: Run(move, s, sched) == s'
  }

  lemma ReachesSelf<S, C(!new)>(move: (S, nat, C) -> S, s: S)
    ensures Reaches(move, s, s)
  {
    assert Run(move, s, []) == s;
  }

  /** One step further. */
  lemma Go<S, C(!new)>(move: (S, nat, C) -> S, s0: S, s: S, t: nat, ch: C) returns (s': S)
    requires Reaches(move, s0, s)
    ensures s' == move(s, t, ch) && Reaches(move, s0, s')
  {
    s' := move(s, t, ch);
    var sched: seq<(nat, C)> :| Run(move, s0, sched) == s;
    RunSnoc(move, s0, sched, t, ch);
  }

  /** A log kept beside a run: `note` writes each step down as it is made, and the machine
      does not see it. */
  ghost function Log<S, C, L>(move: (S, nat, C) -> S, note: (S, nat, C, L) -> L, s: S, log: L, sched: seq<(nat, C)>): L
    decreases |sched|
  {
    if sched == [] then log
    else
      var (t, ch) := sched[0];
      Log(move, note, move(s, t, ch), note(s, t, ch, log), sched[1..])
  }

  /** What every step keeps of a state and its log, every run keeps. */
  lemma {:induction false} LogKeeps<S, C, L>(move: (S, nat, C) -> S, note: (S, nat, C, L) -> L, keeps: (S, L) -> bool,
    s: S, log: L, sched: seq<(nat, C)>)
    requires forall x, l, t, ch :: keeps(x, l) ==> keeps(move(x, t, ch), note(x, t, ch, l))
    requires keeps(s, log)
    ensures keeps(Run(move, s, sched), Log(move, note, s, log, sched))
    decreases |sched|
  {
    if sched == [] {
    } else {
      var (t, ch) := sched[0];
      LogKeeps(move, note, keeps, move(s, t, ch), note(s, t, ch, log), sched[1..]);
    }
  }
}
