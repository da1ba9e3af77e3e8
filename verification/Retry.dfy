/** `retry.Do`: up to four attempts, as long as the error is retriable and the context outlives the waits. */
module Retry {
  import opened Wrappers

  /**
   Attempts from number `i` on, in state `s`: the last state and error, and how many attempts were made in all.
   `waits(i)` says whether the wait after attempt `i` ends before the context does.
   */
  function Attempts<S, E>(s: S, i: nat, fn: (S, nat) -> (S, Option<E>), retriable: E -> bool, waits: nat -> bool)
      : (r: (S, Option<E>, nat))
    requires i <= 3
    decreases 3 - i
  {
    var (t, err) := fn(s, i);
    if err.None? || i == 3 || !retriable(err.value) || !waits(i) then (t, err, i + 1)
    else Attempts(t, i + 1, fn, retriable, waits)
  }

  /** The state after the first `n` attempts, whatever their errors. */
  function StateAfter<S, E>(s: S, n: nat, fn: (S, nat) -> (S, Option<E>)): S {
    if n == 0 then s else fn(StateAfter(s, n - 1, fn), n - 1).0
  }

  function ErrorOf<S, E>(s: S, i: nat, fn: (S, nat) -> (S, Option<E>)): Option<E> {
    fn(StateAfter(s, i, fn), i).1
  }

  /** `n` is the number of attempts `Do` makes: every earlier one failed retriably, and the last was the end. */
  ghost predicate Stops<S, E>(s: S, n: nat, fn: (S, nat) -> (S, Option<E>), retriable: E -> bool, waits: nat -> bool) {
    && 1 <= n <= 4
    && (forall i :: 0 <= i < n - 1 ==>
          ErrorOf(s, i, fn).Some? && retriable(ErrorOf(s, i, fn).value) && waits(i))
    && (n == 4 || ErrorOf(s, n - 1, fn).None? || !retriable(ErrorOf(s, n - 1, fn).value) || !waits(n - 1))
  }

  method Do<S, E>(s0: S, fn: (S, nat) -> (S, Option<E>), retriable: E -> bool, waits: nat -> bool)
      returns (s: S, err: Option<E>, n: nat)
    ensures Stops(s0, n, fn, retriable, waits)
    ensures s == StateAfter(s0, n, fn) && err == ErrorOf(s0, n - 1, fn)
    ensures (s, err, n) == Attempts(s0, 0, fn, retriable, waits)
  {
    var first := fn(s0, 0);
    s, err, n := first.0, first.1, 1;
    assert StateAfter(s0, 0, fn) == s0;
    assert s == StateAfter(s0, 1, fn);
    if err.None? { return; }
    for i := 0 to 3
      invariant n == i + 1 && err.Some?
      invariant s == StateAfter(s0, n, fn) && err == ErrorOf(s0, n - 1, fn)
      invariant forall j :: 0 <= j < i ==>
        ErrorOf(s0, j, fn).Some? && retriable(ErrorOf(s0, j, fn).value) && waits(j)
      invariant i < 3 && retriable(err.value) && waits(i) ==>
        Attempts(s, n, fn, retriable, waits) == Attempts(s0, 0, fn, retriable, waits)
      invariant i < 3 && !(retriable(err.value) && waits(i)) ==>
        (s, err, n) == Attempts(s0, 0, fn, retriable, waits)
      invariant i == 3 ==> (s, err, n) == Attempts(s0, 0, fn, retriable, waits)
    {
      if !retriable(err.value) { return; }
      if !waits(i) { return; }
      var next := fn(s, i + 1);
      s, err, n := next.0, next.1, n + 1;
      if err.None? { return; }
    }
  }

  /** `Attempts` is what the rule for stopping says. */
  lemma {:induction false} AttemptsStop<S, E>(s: S, i: nat, fn: (S, nat) -> (S, Option<E>), retriable: E -> bool,
      waits: nat -> bool)
    requires i <= 3
    requires forall j :: 0 <= j < i ==>
      ErrorOf(s, j, fn).Some? && retriable(ErrorOf(s, j, fn).value) && waits(j)
    ensures var (t, err, n) := Attempts(StateAfter(s, i, fn), i, fn, retriable, waits);
      i < n && Stops(s, n, fn, retriable, waits) && t == StateAfter(s, n, fn) && err == ErrorOf(s, n - 1, fn)
    decreases 3 - i
  {
  }

  lemma {:induction false} AttemptsSame<S, E>(s: S, i: nat, fn: (S, nat) -> (S, Option<E>),
      gn: (S, nat) -> (S, Option<E>),
      retriable: E -> bool, waits: nat -> bool)
    requires i <= 3
    requires forall t, j :: fn(t, j) == gn(t, j)
    ensures Attempts(s, i, fn, retriable, waits) == Attempts(s, i, gn, retriable, waits)
    decreases 3 - i
  {
    var (t, err) := fn(s, i);
    if !(err.None? || i == 3 || !retriable(err.value) || !waits(i)) {
      AttemptsSame(t, i + 1, fn, gn, retriable, waits);
    }
  }
}
