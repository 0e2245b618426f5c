/** Finite runs of a step relation. */
module Runs {

  /** The steps lead from `a` to `b`; `next(s, x, t)` says that step `x` takes `s` to `t`. */
  ghost predicate Executes<S(!new), X(!new)>(next: (S, X, S) -> bool, a: S, steps: seq<X>, b: S)
    decreases |steps|
  {
    if steps == [] then a == b
    else exists m :: next(a, steps[0], m) && Executes(next, m, steps[1..], b)
  }

  lemma {:induction false} Snoc<S(!new), X(!new)>(next: (S, X, S) -> bool, a: S, steps: seq<X>, b: S, x: X, c: S)
    requires Executes(next, a, steps, b) && next(b, x, c)
    ensures Executes(next, a, steps + [x], c)
    decreases |steps|
  {
    if steps == [] {
      assert [] + [x] == [x] && [x][1..] == [];
      assert Executes(next, c, [x][1..], c);
    } else {
      assert (steps + [x])[1..] == steps[1..] + [x];
      var m :| next(a, steps[0], m) && Executes(next, m, steps[1..], b);
      Snoc(next, m, steps[1..], b, x, c);
    }
  }

  /** What every step keeps, every run keeps. */
  lemma {:induction false} Keeps<S(!new), X(!new)>(next: (S, X, S) -> bool, inv: S -> bool,
                                                   a: S, steps: seq<X>, b: S)
    requires forall s, x, t :: inv(s) && next(s, x, t) ==> inv(t)
    requires inv(a) && Executes(next, a, steps, b)
    ensures inv(b)
    decreases |steps|
  {
    if steps != [] {
      var m :| next(a, steps[0], m) && Executes(next, m, steps[1..], b);
      Keeps(next, inv, m, steps[1..], b);
    }
  }

  /** The same for what also speaks of the steps taken so far. */
  lemma KeepsTrace<S(!new), X(!new)>(next: (S, X, S) -> bool, inv: (seq<X>, S) -> bool, a: S, steps: seq<X>, b: S)
    requires forall past, s, x, t :: inv(past, s) && next(s, x, t) ==> inv(past + [x], t)
    requires inv([], a) && Executes(next, a, steps, b)
    ensures inv(steps, b)
  {
    KeepsTraceFrom(next, inv, [], a, steps, b);
    assert [] + steps == steps;
  }

  lemma {:induction false} KeepsTraceFrom<S(!new), X(!new)>(next: (S, X, S) -> bool, inv: (seq<X>, S) -> bool,
                                                           past: seq<X>, a: S, steps: seq<X>, b: S)
    requires forall past, s, x, t :: inv(past, s) && next(s, x, t) ==> inv(past + [x], t)
    requires inv(past, a) && Executes(next, a, steps, b)
    ensures inv(past + steps, b)
    decreases |steps|
  {
    if steps == [] {
      assert past + steps == past;
    } else {
      var m :| next(a, steps[0], m) && Executes(next, m, steps[1..], b);
      KeepsTraceFrom(next, inv, past + [steps[0]], m, steps[1..], b);
      assert past + [steps[0]] + steps[1..] == past + steps;
    }
  }
}
