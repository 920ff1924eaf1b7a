/**
 Runs of a transition system given by its step function, and a way to say exactly which runs lead to
 something bad: those with a step that lets the rest of the system come to it by itself.
 */
module Runs {
  /** Blocked: not enabled. Fault: a NULL dereference, or an access to memory that is gone. */
  datatype Outcome<S> = Blocked | Fault | Next(s: S)

  function Run<S, A>(do: (S, A) -> Outcome<S>, s: S, steps: seq<A>): Outcome<S>
    decreases |steps|
  {
    if steps == [] then Next(s)
    else match do(s, steps[0])
      case Next(t) => Run(do, t, steps[1..])
      case Blocked => Blocked
      case Fault => Fault
  }

  lemma {:induction false} RunAppend<S, A>(do: (S, A) -> Outcome<S>, s: S, a: seq<A>, b: seq<A>)
    ensures Run(do, s, a + b)
         == match Run(do, s, a) case Next(t) => Run(do, t, b) case Blocked => Blocked case Fault => Fault
    decreases |a|
  {
    if a == [] {
      assert a + b == b;
    } else {
      assert (a + b)[1..] == a[1..] + b;
      if do(s, a[0]).Next? {
        RunAppend(do, do(s, a[0]).s, a[1..], b);
      }
    }
  }

  lemma RunOne<S, A>(do: (S, A) -> Outcome<S>, s: S, step: A)
    ensures Run(do, s, [step]) == do(s, step)
  {
    assert [step][1..] == [];
  }

  lemma RunCons<S, A>(do: (S, A) -> Outcome<S>, s: S, step: A, rest: seq<A>)
    requires do(s, step).Next?
    ensures Run(do, s, [step] + rest) == Run(do, do(s, step).s, rest)
  {
    assert ([step] + rest)[1..] == rest;
  }

  /** The last step of a run. */
  lemma RunLast<S, A>(do: (S, A) -> Outcome<S>, s: S, steps: seq<A>)
    requires steps != [] && Run(do, s, steps).Next?
    ensures var n := |steps| - 1;
            Run(do, s, steps[..n]).Next? && do(Run(do, s, steps[..n]).s, steps[n]) == Run(do, s, steps)
  {
    var n := |steps| - 1;
    assert steps == steps[..n] + [steps[n]];
    RunAppend(do, s, steps[..n], [steps[n]]);
    if Run(do, s, steps[..n]).Next? {
      RunOne(do, Run(do, s, steps[..n]).s, steps[n]);
    }
  }

  // -------------------------------------------------------------- reachability

  ghost predicate Reaches<S, A(!new)>(do: (S, A) -> Outcome<S>, s: S, t: S) {
    exists steps :: Run(do, s, steps) == Next(t)
  }

  lemma ReachesSelf<S, A(!new)>(do: (S, A) -> Outcome<S>, s: S)
    ensures Reaches(do, s, s)
  {
    assert Run(do, s, []) == Next(s);
  }

  lemma ReachesRun<S, A(!new)>(do: (S, A) -> Outcome<S>, s: S, t: S, steps: seq<A>)
    requires Reaches(do, s, t) && Run(do, t, steps).Next?
    ensures Reaches(do, s, Run(do, t, steps).s)
  {
    var a :| Run(do, s, a) == Next(t);
    RunAppend(do, s, a, steps);
  }

  lemma ReachesOn<S, A(!new)>(do: (S, A) -> Outcome<S>, s: S, t: S, step: A)
    requires Reaches(do, s, t) && do(t, step).Next?
    ensures Reaches(do, s, do(t, step).s)
  {
    RunOne(do, t, step);
    ReachesRun(do, s, t, [step]);
  }

  lemma ReachesAll<S, A(!new)>(do: (S, A) -> Outcome<S>, s: S, t: S, u: S)
    requires Reaches(do, s, t) && Reaches(do, t, u)
    ensures Reaches(do, s, u)
  {
    var b :| Run(do, t, b) == Next(u);
    ReachesRun(do, s, t, b);
  }

  // ---------------------------------------------------------- which runs lead

  /** A step function, what it keeps, the steps that cut, the steps of the rest of the system, and
      the outcomes that are bad. */
  datatype System<!S, !A> = System(do: (S, A) -> Outcome<S>, inv: S -> bool, cuts: (S, A) -> bool,
                                   quiet: A -> bool, bad: Outcome<S> -> bool)

  /** No step of the run cuts. */
  predicate NeverCuts<S, A>(y: System<S, A>, s: S, steps: seq<A>)
    decreases |steps|
  {
    steps == [] ||
    (!y.cuts(s, steps[0]) && (y.do(s, steps[0]).Next? ==> NeverCuts(y, y.do(s, steps[0]).s, steps[1..])))
  }

  predicate Quiet<S, A>(y: System<S, A>, steps: seq<A>) {
    forall i :: 0 <= i < |steps| ==> y.quiet(steps[i])
  }

  /** After `n` steps of the run, the quiet steps `more` come to something bad. */
  predicate LeadsAfter<S, A>(y: System<S, A>, s: S, steps: seq<A>, n: nat, more: seq<A>) {
    n <= |steps| && Quiet(y, more) && y.bad(Run(y.do, s, steps[..n] + more))
  }

  ghost predicate Leads<S, A(!new)>(y: System<S, A>, s: S, steps: seq<A>) {
    exists n: nat, more :: LeadsAfter(y, s, steps, n, more)
  }

  /** The outcome is a state that keeps the invariant, or is not bad. */
  predicate Sound<S, A>(y: System<S, A>, o: Outcome<S>) {
    match o case Next(t) => y.inv(t) && !y.bad(o) case _ => !y.bad(o)
  }

  ghost predicate ComesToBad<S, A(!new)>(y: System<S, A>, s: S) {
    exists more :: Quiet(y, more) && y.bad(Run(y.do, s, more))
  }

  /** The system is sound as long as nothing cuts, quiet steps do not cut, and after a cut some quiet
      steps come to something bad. */
  ghost predicate Cutting<S(!new), A(!new)>(y: System<S, A>) {
    && (forall s :: y.inv(s) ==> !y.bad(Next(s)))
    && (forall s, a :: y.inv(s) && !y.cuts(s, a) ==> Sound(y, y.do(s, a)))
    && (forall s, a :: y.quiet(a) ==> !y.cuts(s, a))
    && (forall s, a :: y.inv(s) && y.cuts(s, a) && y.do(s, a).Next? ==> ComesToBad(y, y.do(s, a).s))
  }

  lemma {:induction false} NeverCutsSound<S(!new), A(!new)>(y: System<S, A>, s: S, steps: seq<A>)
    requires Cutting(y) && y.inv(s) && NeverCuts(y, s, steps)
    ensures Sound(y, Run(y.do, s, steps))
    decreases |steps|
  {
    if steps != [] {
      assert Sound(y, y.do(s, steps[0]));
      if y.do(s, steps[0]).Next? {
        NeverCutsSound(y, y.do(s, steps[0]).s, steps[1..]);
      }
    }
  }

  lemma {:induction false} QuietNeverCuts<S(!new), A(!new)>(y: System<S, A>, s: S, steps: seq<A>)
    requires Cutting(y) && Quiet(y, steps)
    ensures NeverCuts(y, s, steps)
    decreases |steps|
  {
    if steps != [] {
      assert Quiet(y, steps[1..]);
      if y.do(s, steps[0]).Next? {
        QuietNeverCuts(y, y.do(s, steps[0]).s, steps[1..]);
      }
    }
  }

  lemma LeadsAfterStep<S, A>(y: System<S, A>, s: S, steps: seq<A>, n: nat, more: seq<A>)
    requires steps != [] && y.do(s, steps[0]).Next? && 0 < n <= |steps|
    ensures LeadsAfter(y, s, steps, n, more) <==> LeadsAfter(y, y.do(s, steps[0]).s, steps[1..], n - 1, more)
  {
    var run := steps[..n] + more;
    assert run[0] == steps[0] && run[1..] == steps[1..][..n - 1] + more;
  }

  lemma NotAtOnce<S(!new), A(!new)>(y: System<S, A>, s: S, steps: seq<A>, more: seq<A>)
    requires Cutting(y) && y.inv(s)
    ensures !LeadsAfter(y, s, steps, 0, more)
  {
    assert steps[..0] + more == more;
    if Quiet(y, more) {
      QuietNeverCuts(y, s, more);
      NeverCutsSound(y, s, more);
    }
  }

  /** A run leads to something bad if and only if some step of it cuts. */
  lemma {:induction false} LeadsIff<S(!new), A(!new)>(y: System<S, A>, s: S, steps: seq<A>)
    requires Cutting(y) && y.inv(s) && Run(y.do, s, steps).Next?
    ensures Leads(y, s, steps) <==> !NeverCuts(y, s, steps)
    decreases |steps|
  {
    forall more ensures !LeadsAfter(y, s, steps, 0, more) {
      NotAtOnce(y, s, steps, more);
    }
    if steps != [] {
      var u, rest := y.do(s, steps[0]).s, steps[1..];
      forall n: nat, more | 0 < n <= |steps|
        ensures LeadsAfter(y, s, steps, n, more) <==> LeadsAfter(y, u, rest, n - 1, more)
      {
        LeadsAfterStep(y, s, steps, n, more);
      }
      if y.cuts(s, steps[0]) {
        assert ComesToBad(y, u);
        var more :| Quiet(y, more) && y.bad(Run(y.do, u, more));
        assert rest[..0] + more == more;
        assert LeadsAfter(y, u, rest, 0, more);
        assert LeadsAfter(y, s, steps, 1, more);
      } else {
        assert Sound(y, y.do(s, steps[0]));
        LeadsIff(y, u, rest);
        if n: nat, more :| LeadsAfter(y, u, rest, n, more) {
          assert LeadsAfter(y, s, steps, n + 1, more);
        }
        if n: nat, more :| LeadsAfter(y, s, steps, n, more) {
          assert n == 0 || LeadsAfter(y, u, rest, n - 1, more);
        }
      }
    }
  }
}
