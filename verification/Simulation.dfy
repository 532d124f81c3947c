/** Forward simulation between two deterministic step systems, carried over whole runs. */
module Simulation {

  // At most k steps, stopping early at a stopped state.
  function Iter<T(!new)>(step: T -> T, stop: T -> bool, x: T, k: nat): T
    decreases k
  {
    if k == 0 || stop(x) then x else Iter(step, stop, step(x), k - 1)
  }

  lemma {:induction false} IterCompose<T(!new)>(step: T -> T, stop: T -> bool, x: T, j: nat, k: nat)
    ensures Iter(step, stop, Iter(step, stop, x, j), k) == Iter(step, stop, x, j + k)
    decreases j
  {
    if j == 0 || stop(x) {
    } else {
      IterCompose(step, stop, step(x), j - 1, k);
    }
  }

  lemma IterStopped<T(!new)>(step: T -> T, stop: T -> bool, x: T, j: nat, k: nat)
    requires j <= k && stop(Iter(step, stop, x, j))
    ensures Iter(step, stop, x, k) == Iter(step, stop, x, j)
  {
    IterCompose(step, stop, x, j, k - j);
  }

  datatype System<!T(!new)> = System(step: T -> T, stop: T -> bool) {
    function Run(x: T, k: nat): T {
      Iter(step, stop, x, k)
    }

    ghost predicate Halts(x: T) {
      exists k: nat :: stop(Run(x, k))
    }
  }

  // k steps of the lower system match one step of the upper one. A step that takes no lower step, or starts
  // from a stopped lower state, has to move the upper program counter on by one.
  ghost predicate StepMatch<S(!new), M(!new)>(a: System<S>, b: System<M>, pc: S -> nat, rel: (S, M) -> bool, s: S, m: M,
                                              k: nat) {
    && rel(a.step(s), b.Run(m, k))
    && (a.stop(a.step(s)) || pc(a.step(s)) == pc(s) + 1 || (k >= 1 && !b.stop(m)))
  }

  // A stopped upper state: the lower one stops within k steps, and the results agree.
  ghost predicate EndMatch<S(!new), M(!new)>(b: System<M>, same: (S, M) -> bool, s: S, m: M, k: nat) {
    b.stop(b.Run(m, k)) && same(s, b.Run(m, k))
  }

  ghost predicate Simulates<S(!new), M(!new)>(a: System<S>, b: System<M>, pc: S -> nat, len: nat, rel: (S, M) -> bool,
                                              same: (S, M) -> bool) {
    && (forall s :: !a.stop(s) ==> pc(s) < len)
    && (forall s, m :: rel(s, m) && !a.stop(s) ==> exists k: nat :: StepMatch(a, b, pc, rel, s, m, k))
    && (forall s, m :: rel(s, m) && a.stop(s) ==> exists k: nat :: EndMatch(b, same, s, m, k))
  }

  lemma {:induction false} AtLeast(k: nat, n: nat)
    requires k >= 1
    ensures k * n >= n
  {
    if k > 1 {
      AtLeast(k - 1, n);
      assert k * n == (k - 1) * n + n;
    }
  }

  lemma CountSteps(n: nat, pc: nat, pc1: nat, j: nat, k1: nat, len: nat, last: nat)
    requires n > 0 && pc < len && n - 1 + pc1 <= j * (len + 1) + last && (pc1 == pc + 1 || k1 >= 1)
    ensures n + pc <= (k1 + j) * (len + 1) + last
  {
    assert (k1 + j) * (len + 1) == k1 * (len + 1) + j * (len + 1);
    if k1 >= 1 {
      AtLeast(k1, len + 1);
    }
  }

  lemma ManySteps(j: nat, k: nat, len: nat, n: nat, pc: nat)
    requires n == (k + 1) * (len + 1) && n <= j * (len + 1) + pc && pc < len
    ensures j >= k
  {
    assert (k + 1) * (len + 1) - j * (len + 1) == (k + 1 - j) * (len + 1);
    if k + 1 - j >= 1 {
      AtLeast(k + 1 - j, len + 1);
    }
  }

  // n upper steps; between branches the program counter bounds how many pass.
  lemma {:induction false} RunMatch<S(!new), M(!new)>(a: System<S>, b: System<M>, pc: S -> nat, len: nat,
                                                      rel: (S, M) -> bool, same: (S, M) -> bool, s: S, m: M, n: nat)
    returns (k: nat)
    requires Simulates(a, b, pc, len, rel, same) && rel(s, m)
    ensures rel(a.Run(s, n), b.Run(m, k))
    ensures !a.stop(a.Run(s, n)) ==> n + pc(s) <= k * (len + 1) + pc(a.Run(s, n))
    decreases n
  {
    if n == 0 || a.stop(s) {
      k := 0;
    } else {
      var k1: nat :| StepMatch(a, b, pc, rel, s, m, k1);
      var j := RunMatch(a, b, pc, len, rel, same, a.step(s), b.Run(m, k1), n - 1);
      IterCompose(b.step, b.stop, m, k1, j);
      k := k1 + j;
      if !a.stop(a.Run(s, n)) {
        CountSteps(n, pc(s), pc(a.step(s)), j, k1, len, pc(a.Run(s, n)));
      }
    }
  }

  // At these times the lower run stands where the upper run stands after 0, 1, 2, ... steps.
  ghost predicate Follows<S(!new), M(!new)>(a: System<S>, b: System<M>, rel: (S, M) -> bool, s: S, m: M,
                                            times: seq<nat>) {
    && times != [] && times[0] == 0
    && (forall j :: 0 <= j < |times| ==> rel(a.Run(s, j), b.Run(m, times[j])))
    && forall j :: 0 <= j < |times| - 1 ==> times[j] <= times[j + 1]
  }

  lemma OneMore<T(!new)>(a: System<T>, s: T, n: nat)
    ensures a.Run(s, n + 1) == if a.stop(a.Run(s, n)) then a.Run(s, n) else a.step(a.Run(s, n))
  {
    IterCompose(a.step, a.stop, s, n, 1);
    assert Iter(a.step, a.stop, a.Run(s, n), 1) == a.Run(s, n + 1);
  }

  lemma FollowsOn<S(!new), M(!new)>(a: System<S>, b: System<M>, rel: (S, M) -> bool, s: S, m: M, times: seq<nat>,
                                    t: nat)
    requires Follows(a, b, rel, s, m, times) && times[|times| - 1] <= t && rel(a.Run(s, |times|), b.Run(m, t))
    ensures Follows(a, b, rel, s, m, times + [t])
  {
  }

  /** The lower run follows the upper one through any number of steps, whether or not it ever stops. */
  lemma {:induction false} RunFollows<S(!new), M(!new)>(a: System<S>, b: System<M>, pc: S -> nat, len: nat,
                                                        rel: (S, M) -> bool, same: (S, M) -> bool, s: S, m: M, n: nat)
    returns (times: seq<nat>)
    requires Simulates(a, b, pc, len, rel, same) && rel(s, m)
    ensures |times| == n + 1 && Follows(a, b, rel, s, m, times)
    decreases n
  {
    if n == 0 {
      times := [0];
      assert a.Run(s, 0) == s && b.Run(m, 0) == m;
    } else {
      var before := RunFollows(a, b, pc, len, rel, same, s, m, n - 1);
      var s1, t := a.Run(s, n - 1), before[n - 1];
      OneMore(a, s, n - 1);
      if !a.stop(s1) {
        var k: nat :| StepMatch(a, b, pc, rel, s1, b.Run(m, t), k);
        IterCompose(b.step, b.stop, m, t, k);
        t := t + k;
      }
      FollowsOn(a, b, rel, s, m, before, t);
      times := before + [t];
    }
  }

  // After k lower steps at most, an upper state is matched at a later lower state, or both have stopped.
  lemma RunBounds<S(!new), M(!new)>(a: System<S>, b: System<M>, pc: S -> nat, len: nat, rel: (S, M) -> bool,
                                    same: (S, M) -> bool, s: S, m: M, k: nat)
    returns (n: nat, j: nat)
    requires Simulates(a, b, pc, len, rel, same) && rel(s, m)
    ensures rel(a.Run(s, n), b.Run(m, j)) || same(a.Run(s, n), b.Run(m, j))
    ensures k <= j || b.stop(b.Run(m, j))
  {
    n := (k + 1) * (len + 1);
    j := RunMatch(a, b, pc, len, rel, same, s, m, n);
    if a.stop(a.Run(s, n)) {
      j := UpperDone(a, b, pc, len, rel, same, s, m, n);
    } else {
      ManySteps(j, k, len, n, pc(a.Run(s, n)));
    }
  }

  // A stopped lower state only leaves upper steps that move straight on.
  lemma {:induction false} StoppedFinishes<S(!new), M(!new)>(a: System<S>, b: System<M>, pc: S -> nat, len: nat,
                                                             rel: (S, M) -> bool, same: (S, M) -> bool, s: S, m: M)
    returns (n: nat)
    requires Simulates(a, b, pc, len, rel, same) && rel(s, m) && b.stop(m)
    ensures a.stop(a.Run(s, n))
    decreases if a.stop(s) then 0 else 1 + len - pc(s)
  {
    if a.stop(s) {
      n := 0;
    } else {
      var k: nat :| StepMatch(a, b, pc, rel, s, m, k);
      assert b.Run(m, k) == m;
      n := StoppedFinishes(a, b, pc, len, rel, same, a.step(s), m);
      n := n + 1;
    }
  }

  lemma UpperDone<S(!new), M(!new)>(a: System<S>, b: System<M>, pc: S -> nat, len: nat, rel: (S, M) -> bool,
                                    same: (S, M) -> bool, s: S, m: M, n: nat)
    returns (k: nat)
    requires Simulates(a, b, pc, len, rel, same) && rel(s, m) && a.stop(a.Run(s, n))
    ensures b.stop(b.Run(m, k)) && same(a.Run(s, n), b.Run(m, k))
  {
    k := RunMatch(a, b, pc, len, rel, same, s, m, n);
    var j: nat :| EndMatch(b, same, a.Run(s, n), b.Run(m, k), j);
    IterCompose(b.step, b.stop, m, k, j);
    k := k + j;
  }

  lemma LowerDone<S(!new), M(!new)>(a: System<S>, b: System<M>, pc: S -> nat, len: nat, rel: (S, M) -> bool,
                                    same: (S, M) -> bool, s: S, m: M, k: nat)
    requires Simulates(a, b, pc, len, rel, same) && rel(s, m) && b.stop(b.Run(m, k))
    ensures a.Halts(s)
  {
    var n := (k + 1) * (len + 1);
    var j := RunMatch(a, b, pc, len, rel, same, s, m, n);
    var s1 := a.Run(s, n);
    if a.stop(s1) {
      assert a.Halts(s);
    } else {
      ManySteps(j, k, len, n, pc(s1));
      IterStopped(b.step, b.stop, m, k, j);
      var i := StoppedFinishes(a, b, pc, len, rel, same, s1, b.Run(m, j));
      IterCompose(a.step, a.stop, s, n, i);
      assert a.stop(a.Run(s, n + i));
    }
  }

  /** The two systems halt on the same related starts, and finished runs agree. */
  lemma RunsAgree<S(!new), M(!new)>(a: System<S>, b: System<M>, pc: S -> nat, len: nat, rel: (S, M) -> bool,
                                    same: (S, M) -> bool, s: S, m: M)
    requires Simulates(a, b, pc, len, rel, same) && rel(s, m)
    ensures b.Halts(m) <==> a.Halts(s)
    ensures forall n: nat, k: nat :: a.stop(a.Run(s, n)) && b.stop(b.Run(m, k)) ==> same(a.Run(s, n), b.Run(m, k))
  {
    if b.Halts(m) {
      var k: nat :| b.stop(b.Run(m, k));
      LowerDone(a, b, pc, len, rel, same, s, m, k);
    }
    forall n: nat | a.stop(a.Run(s, n)) ensures b.Halts(m) {
      var k := UpperDone(a, b, pc, len, rel, same, s, m, n);
    }
    forall n: nat, k: nat | a.stop(a.Run(s, n)) && b.stop(b.Run(m, k)) ensures same(a.Run(s, n), b.Run(m, k)) {
      var j := UpperDone(a, b, pc, len, rel, same, s, m, n);
      if j <= k {
        IterStopped(b.step, b.stop, m, j, k);
      } else {
        IterStopped(b.step, b.stop, m, k, j);
      }
    }
  }
}
