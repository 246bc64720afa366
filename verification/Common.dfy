/** What several modules share. */
module Common {

  datatype Option<T> = None | Some(value: T)

  function Max(a: int, b: int): int
  {
    if a < b then b else a
  }

  /** A session's identity. */
  type Session = nat

  /** The payload of a lock-free container, opaque to it. */
  type Data = int

  datatype Ptr = Null | At(n: nat)

  /** The double word that a counted compare-and-swap compares and replaces. */
  datatype Node16 = Node16(node: Ptr, count: int)

  lemma AnyOf<T>(s: set<T>) returns (x: T)
    requires |s| > 0
    ensures x in s
  {
    x :| x in s;
  }

  /** There is always a number not taken yet. */
  lemma {:induction false} Unused(taken: set<nat>) returns (n: nat)
    ensures forall k :: k in taken ==> k < n
    decreases taken
  {
    if taken == {} {
      n := 0;
    } else {
      var x :| x in taken;
      assert taken == (taken - {x}) + {x};
      n := Unused(taken - {x});
      n := if n <= x then x + 1 else n;
    }
  }
}
