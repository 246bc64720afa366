/** The calls made on a container, kept beside its runs: what each call was given and
    what it answered, against what the container took in and gave out. */
module Calls {
  import opened Common
  import opened Threads

  /** The argument of each thread's latest giving call, the arguments of all giving calls
      and of those answered `false`, and how many taking calls were made and how many were
      answered `false`. */
  datatype Log<V> = Log(
    args: map<nat, V>, started: multiset<V>, rejected: multiset<V>, asked: nat, refused: nat)

  function NoCalls<V>(): Log<V>
  {
    Log(map[], multiset{}, multiset{}, 0, 0)
  }

  /** What a step is to the calls: it starts one, carries one on, puts its value into the
      container or takes one out, or answers `false`. */
  datatype Event<V> = StartGive(v: V) | StartTake | Carry | Give(v: V) | Take | Reject(v: V) | Refuse

  function Add<V>(t: nat, e: Event<V>, log: Log<V>): Log<V>
  {
    match e
    case StartGive(v) => log.(args := log.args[t := v], started := log.started + multiset{v})
    case StartTake => log.(asked := log.asked + 1)
    case Reject(v) => log.(rejected := log.rejected + multiset{v})
    case Refuse => log.(refused := log.refused + 1)
    case _ => log
  }

  /** What the container has taken in and how many it has given out. */
  datatype Books<V> = Books(given: multiset<V>, taken: nat)

  /** The value that a thread carries before and after a step, whether it is asking for
      one, and the container's books, all as event `e` has it. */
  ghost predicate Effect<V>(e: Event<V>, before: Option<V>, after: Option<V>, asks: bool, asks': bool,
    b: Books<V>, b': Books<V>)
  {
    match e
    case StartGive(v) => before.None? && after == Some(v) && !asks && !asks' && b' == b
    case StartTake => before.None? && after.None? && !asks && asks' && b' == b
    case Carry => before == after && asks == asks' && b' == b
    case Give(v) => before == Some(v) && after.None? && asks == asks' && b' == b.(given := b.given + multiset{v})
    case Take => before == after && asks && !asks' && b' == b.(taken := b.taken + 1)
    case Reject(v) => before == Some(v) && after.None? && asks == asks' && b' == b
    case Refuse => before == after && asks && !asks' && b' == b
  }

  /** What a thread carries is the argument of its own call. */
  ghost predicate HaveArgs<P, V>(ts: seq<P>, carried: P -> Option<V>, args: map<nat, V>)
  {
    forall t :: 0 <= t < |ts| && carried(ts[t]).Some? ==> t in args && args[t] == carried(ts[t]).value
  }

  /** Each giving call was answered `false`, or is still carrying its argument, or has put
      it into the container, once; each taking call was answered `false`, or is still
      asking, or has taken one, once. */
  ghost predicate Law<P, V>(ts: seq<P>, carried: P -> Option<V>, asking: P -> bool, b: Books<V>, log: Log<V>)
  {
    && log.started == log.rejected + Gather(ts, carried) + b.given
    && log.asked == log.refused + Count(ts, asking) + b.taken
    && HaveArgs(ts, carried, log.args)
  }

  lemma StartLaw<P, V>(ts: seq<P>, carried: P -> Option<V>, asking: P -> bool, b: Books<V>)
    requires forall t :: 0 <= t < |ts| ==> carried(ts[t]).None? && !asking(ts[t])
    requires b == Books(multiset{}, 0)
    ensures Law(ts, carried, asking, b, NoCalls())
  {
    GatherNone(ts, carried);
    CountNone(ts, asking);
  }

  lemma Balance<V>(log: Log<V>, e: Event<V>, t: nat, before: Option<V>, after: Option<V>, asks: bool, asks': bool,
                   b: Books<V>, b': Books<V>, g: multiset<V>, g': multiset<V>)
    requires log.started == log.rejected + g + b.given
    requires g' + Single(before) == g + Single(after)
    requires Effect(e, before, after, asks, asks', b, b')
    ensures Add(t, e, log).started == Add(t, e, log).rejected + g' + b'.given
  {
    var log' := Add(t, e, log);
    forall v
      ensures log'.started[v] == (log'.rejected + g' + b'.given)[v]
    {
      assert (g' + Single(before))[v] == (g + Single(after))[v];
    }
  }

  lemma ArgsKept<P, V>(ts: seq<P>, t: nat, p: P, carried: P -> Option<V>, args: map<nat, V>, args': map<nat, V>)
    requires t < |ts| && HaveArgs(ts, carried, args)
    requires args' == args || (t in args' && args' == args[t := args'[t]])
    requires carried(p).Some? ==> t in args' && args'[t] == carried(p).value
    ensures HaveArgs(ts[t := p], carried, args')
  {
  }

  lemma ArgsLaw<P, V>(ts: seq<P>, t: nat, p: P, carried: P -> Option<V>, before: Option<V>, after: Option<V>,
                      asks: bool, asks': bool, b: Books<V>, b': Books<V>, e: Event<V>, log: Log<V>)
    requires t < |ts| && HaveArgs(ts, carried, log.args)
    requires before == carried(ts[t]) && after == carried(p) && Effect(e, before, after, asks, asks', b, b')
    ensures HaveArgs(ts[t := p], carried, Add(t, e, log).args)
  {
    assert before.Some? ==> t in log.args && log.args[t] == before.value;
    ArgsKept(ts, t, p, carried, log.args, Add(t, e, log).args);
  }

  /** Whatever a step is, the law holds on. */
  lemma StepLaw<P, V>(ts: seq<P>, t: nat, p: P, carried: P -> Option<V>, asking: P -> bool, b: Books<V>, b': Books<V>,
                      e: Event<V>, log: Log<V>)
    requires t < |ts| && Law(ts, carried, asking, b, log)
    requires Effect(e, carried(ts[t]), carried(p), asking(ts[t]), asking(p), b, b')
    ensures Law(ts[t := p], carried, asking, b', Add(t, e, log))
  {
    var before, after, asks, asks' := carried(ts[t]), carried(p), asking(ts[t]), asking(p);
    ArgsLaw(ts, t, p, carried, before, after, asks, asks', b, b', e, log);
    GatherUpdate(ts, t, p, carried);
    Balance(log, e, t, before, after, asks, asks', b, b', Gather(ts, carried), Gather(ts[t := p], carried));
    CountUpdate(ts, t, p, asking);
    AskedLaw(log, e, t, before, after, asks, asks', b, b', Count(ts, asking), Count(ts[t := p], asking));
  }

  lemma AskedLaw<V>(log: Log<V>, e: Event<V>, t: nat, before: Option<V>, after: Option<V>, asks: bool, asks': bool,
                    b: Books<V>, b': Books<V>, c: nat, c': nat)
    requires log.asked == log.refused + c + b.taken && c' == c - Bit(asks) + Bit(asks')
    requires Effect(e, before, after, asks, asks', b, b')
    ensures Add(t, e, log).asked == Add(t, e, log).refused + c' + b'.taken
  {
  }
}
