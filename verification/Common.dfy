/** Small datatypes and facts the other modules share. */
module Common {
  datatype Option<+T> = None | Some(value: T)

  /** Result of running a schedule of atomic steps.
      `Fault` is an access to memory that is not live (or not initialised);
      `Stuck` means that the schedule asked for a step that is not enabled. */
  datatype Outcome<+S> = Running(state: S) | Fault | Stuck

  /** Moving the front item of one sequence to the back of the one before it. */
  lemma FrontMoves<T>(done: seq<T>, rest: seq<T>)
    requires rest != []
    ensures (done + [rest[0]]) + rest[1..] == done + rest
  {
  }

  lemma Associative<T>(a: seq<T>, b: seq<T>, c: seq<T>)
    ensures (a + b) + c == a + (b + c)
  {
  }

  /** The numbers below `n`. */
  ghost function UpTo(n: nat): (r: set<nat>)
    ensures |r| == n && forall t: nat :: t in r <==> t < n
  {
    if n == 0 then {} else UpTo(n - 1) + {n - 1}
  }

  lemma SameSize<T>(a: set<T>, b: set<T>)
    requires a <= b && |a| == |b|
    ensures a == b
  {
    assert |b - a| == |b| - |a|;
  }
}
