/**
  Iterating a step that also reports what it emits, and splitting such an
  iteration in two. The step is an arbitrary function here, so the
  splitting argument never looks inside the step it is later applied to.
 */
module Iteration {

  /** n applications of f from w: the final state and everything emitted, in order. */
  ghost function Iter<S, F>(f: S -> (S, seq<F>), w: S, n: nat): (S, seq<F>)
    decreases n
  {
    if n == 0 then (w, [])
    else
      var s := f(w);
      var r := Iter(f, s.0, n - 1);
      (r.0, s.1 + r.1)
  }

  /** a + b applications are a applications and then b more; the emissions concatenate. */
  lemma {:induction false} IterSplit<S, F>(f: S -> (S, seq<F>), w: S, a: nat, b: nat)
    ensures Iter(f, w, a + b).0 == Iter(f, Iter(f, w, a).0, b).0
    ensures Iter(f, w, a + b).1 == Iter(f, w, a).1 + Iter(f, Iter(f, w, a).0, b).1
    decreases a
  {
    if a > 0 {
      var s := f(w);
      IterSplit(f, s.0, a - 1, b);
      assert Iter(f, w, a + b) == Iter(f, w, (a - 1 + b) + 1);
      var x, y, z := s.1, Iter(f, s.0, a - 1).1, Iter(f, Iter(f, s.0, a - 1).0, b).1;
      assert x + (y + z) == (x + y) + z;
    } else {
      assert [] + Iter(f, w, b).1 == Iter(f, w, b).1;
    }
  }
}
