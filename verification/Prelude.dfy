/** Small types shared by every module. */
module Prelude {
  datatype Option<+T> = None | Some(value: T)

  /** The last element of a non-empty sequence, and everything before it. */
  function Last<T>(xs: seq<T>): T
    requires |xs| > 0
  {
    xs[|xs| - 1]
  }

  function Front<T>(xs: seq<T>): seq<T>
    requires |xs| > 0
  {
    xs[..|xs| - 1]
  }

  /**
  If a property holds at the start and each step keeps it exactly when it is not
  bad, the property holds throughout exactly the runs without a bad step.
   */
  lemma {:induction false} AlwaysIffNever(good: nat -> bool, bad: nat -> bool, n: nat)
    requires good(0) && forall m: nat {:trigger bad(m)} | m < n && good(m) :: good(m + 1) <==> !bad(m)
    ensures (forall k: nat | k <= n :: good(k)) <==> (forall k: nat | k < n :: !bad(k))
  {
    if n > 0 {
      AlwaysIffNever(good, bad, n - 1);
      if good(n - 1) {
        assert good(n - 1 + 1) <==> !bad(n - 1);
      }
    }
  }
}
