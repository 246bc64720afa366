/** The seat accounting of CppNetEngine/SessionManager.cpp: the set of sessions and the
    count of seats taken, which a leaving session may leave taken for a waiting one. */
module SessionManager {
  import opened Common

  /** mMaxSessionCount, mCurrentSessionCount and mSessions. */
  datatype Seats = Seats(max: int, count: int, sessions: set<Session>)

  /** AddSession: takes a seat, unless all are taken or the session is already in. */
  function Add(m: Seats, s: Session): (Seats, bool)
  {
    if m.count >= m.max || s in m.sessions then (m, false)
    else (m.(count := m.count + 1, sessions := m.sessions + {s}), true)
  }

  /** AddWaitingSession: sits down on a seat that is already counted. */
  function AddWaiting(m: Seats, s: Session): (Seats, bool)
  {
    (m.(sessions := m.sessions + {s}), s !in m.sessions)
  }

  /** RemoveSession, keeping the seat counted for a waiting session or not. */
  function Remove(m: Seats, s: Session, keep: bool): Seats
  {
    if s !in m.sessions then m
    else m.(sessions := m.sessions - {s}, count := if keep then m.count else m.count - 1)
  }

  /** ReleaseKeepTicket: a kept seat nobody took. */
  function Release(m: Seats): Seats
  {
    m.(count := m.count - 1)
  }

  /** The seats counted as taken on which no session sits: kept for a waiting one. */
  function Kept(m: Seats): int
  {
    m.count - |m.sessions|
  }

  class SessionManager {
    const mMaxSessionCount: int
    var mCurrentSessionCount: int
    var mSessions: set<Session>

    function View(): Seats
      reads this
    {
      Seats(mMaxSessionCount, mCurrentSessionCount, mSessions)
    }

    constructor (maxSessionCount: int)
      ensures View() == Seats(maxSessionCount, 0, {}) && Kept(View()) == 0
    {
      mMaxSessionCount := maxSessionCount;
      mCurrentSessionCount := 0;
      mSessions := {};
    }

    /** Lets a session in that is not in yet while a seat is free, kept seats counting as
        taken; no seat is kept or given up for it. */
    method AddSession(s: Session) returns (ok: bool)
      modifies this
      ensures ok <==> s !in old(mSessions) && |old(mSessions)| + old(Kept(View())) < mMaxSessionCount
      ensures mSessions == if ok then old(mSessions) + {s} else old(mSessions)
      ensures Kept(View()) == old(Kept(View()))
      ensures mCurrentSessionCount <= Max(old(mCurrentSessionCount), mMaxSessionCount)
      ensures (View(), ok) == Add(old(View()), s)
    {
      if mCurrentSessionCount >= mMaxSessionCount {
        return false;
      }
      if s !in mSessions {
        mSessions := mSessions + {s};
        mCurrentSessionCount := mCurrentSessionCount + 1;
        return true;
      }
      return false;
    }

    /** Seats a session that is not in yet, whatever the maximum; it uses up one kept
        seat, so the seats taken are as many as before. */
    method AddWaitingSession(s: Session) returns (ok: bool)
      modifies this
      ensures ok <==> s !in old(mSessions)
      ensures mSessions == old(mSessions) + {s}
      ensures Kept(View()) == old(Kept(View())) - (if ok then 1 else 0)
      ensures (View(), ok) == AddWaiting(old(View()), s)
    {
      ok := s !in mSessions;
      if ok {
        mSessions := mSessions + {s};
      }
    }

    /** A member leaves; its seat is kept exactly when asked for.  One that is not in
        leaves nothing behind. */
    method RemoveSession(s: Session, bKeepWaitingSession: bool)
      modifies this
      ensures mSessions == old(mSessions) - {s}
      ensures Kept(View()) == old(Kept(View())) + (if s in old(mSessions) && bKeepWaitingSession then 1 else 0)
      ensures View() == Remove(old(View()), s, bKeepWaitingSession)
    {
      if s in mSessions {
        mSessions := mSessions - {s};
        if !bKeepWaitingSession {
          mCurrentSessionCount := mCurrentSessionCount - 1;
        }
      }
    }

    /** One kept seat fewer, with the sessions untouched. */
    method ReleaseKeepTicket()
      modifies this
      ensures mSessions == old(mSessions)
      ensures Kept(View()) == old(Kept(View())) - 1
      ensures View() == Release(old(View()))
    {
      mCurrentSessionCount := mCurrentSessionCount - 1;
    }
  }

  // --------------------------------------------------------- what calls do together

  /** Taking in a session and letting it go with its seat undoes itself. */
  lemma RemoveUndoesAdd(m: Seats, s: Session)
    requires Add(m, s).1
    ensures Remove(Add(m, s).0, s, false) == m
  {
    assert m.sessions + {s} - {s} == m.sessions;
  }

  /** A member leaves and keeps its seat for another: seated there, the other is where
      it would be had the member given up its seat and the other been added, if the
      maximum was respected; and if the kept seat is released instead, the member might
      as well have given it up. */
  lemma KeptSeatIsHandedOver(m: Seats, s: Session, w: Session)
    requires s in m.sessions && w !in m.sessions && m.count <= m.max
    ensures AddWaiting(Remove(m, s, true), w) == Add(Remove(m, s, false), w)
    ensures AddWaiting(Remove(m, s, true), w).1
    ensures Release(Remove(m, s, true)) == Remove(m, s, false)
  {
  }

  datatype Op = AddOp(s: Session) | WaitingOp(s: Session) | RemoveOp(s: Session, keep: bool) | ReleaseOp

  /** What one call does, and how many kept seats it makes (or uses up). */
  function Apply(m: Seats, op: Op): (Seats, int)
  {
    match op
    case AddOp(s) => (Add(m, s).0, 0)
    case WaitingOp(s) => (AddWaiting(m, s).0, if AddWaiting(m, s).1 then -1 else 0)
    case RemoveOp(s, keep) => (Remove(m, s, keep), if keep && s in m.sessions then 1 else 0)
    case ReleaseOp => (Release(m), -1)
  }

  /** The seats after a run of calls, and the kept seats it made on balance. */
  ghost function Run(max: int, ops: seq<Op>): (Seats, int)
  {
    if ops == [] then (Seats(max, 0, {}), 0)
    else
      var (m, kept) := Run(max, ops[..|ops| - 1]);
      var (m', d) := Apply(m, ops[|ops| - 1]);
      (m', kept + d)
  }

  /** Over every run of calls, in any order, the count is the sessions that are in and
      the seats kept on balance, and it never passes the maximum. */
  lemma {:induction false} CountIsSessionsAndKept(max: int, ops: seq<Op>)
    ensures var (m, kept) := Run(max, ops);
      m.count == |m.sessions| + kept && m.count <= Max(0, max) && m.max == max
  {
    if ops == [] {
    } else {
      CountIsSessionsAndKept(max, ops[..|ops| - 1]);
    }
  }
}
