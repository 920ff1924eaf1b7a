/**
 The restart loop of src/bin/install_data/install_data.c: over every run, in which rounds main starts
 the worker once more and in which it ends.
 */
module InstallRestart {
  import opened Runs
  import opened InstallData

  /** The program before step `n` of a run. */
  function At(steps: seq<Step>, n: nat): Outcome<State>
    requires n <= |steps|
  {
    Run(Do, Init(), steps[..n])
  }

  /** Main begins a round of the loop with step `i`. */
  predicate BeginsRound(steps: seq<Step>, i: nat) {
    i < |steps| && steps[i].Main? && At(steps, i).Next? && At(steps, i).s.main.Top?
  }

  /** clear_and_restart has begun in the round the run has come to. */
  predicate CalledBack(steps: seq<Step>) {
    exists j: nat :: j < |steps| && steps[j].CallBack? && forall i: nat :: j < i < |steps| ==> !BeginsRound(steps, i)
  }

  lemma BeginsRoundBefore(steps: seq<Step>, more: seq<Step>, i: nat)
    requires i < |steps|
    ensures BeginsRound(steps + more, i) <==> BeginsRound(steps, i)
  {
    assert (steps + more)[..i] == steps[..i];
  }

  lemma CalledBackOn(steps: seq<Step>, step: Step)
    ensures CalledBack(steps + [step]) <==>
            step.CallBack? || (CalledBack(steps) && !BeginsRound(steps + [step], |steps|))
  {
    var all := steps + [step];
    forall i: nat | i < |steps| ensures BeginsRound(all, i) <==> BeginsRound(steps, i) {
      BeginsRoundBefore(steps, [step], i);
    }
    if step.CallBack? {
      assert all[|steps|].CallBack?;
    }
    if j: nat :| j < |all| && all[j].CallBack? && forall i: nat :: j < i < |all| ==> !BeginsRound(all, i) {
      assert j < |steps| ==> steps[j].CallBack?;
    }
    if CalledBack(steps) && !BeginsRound(all, |steps|) {
      var j: nat :| j < |steps| && steps[j].CallBack? && forall i: nat :: j < i < |steps| ==> !BeginsRound(steps, i);
      assert all[j].CallBack?;
    }
  }

  lemma FlagSteps(s: State, step: Step)
    requires Do(s, step).Next?
    ensures Do(s, step).s.reinstall <==> step.CallBack? || (s.reinstall && !(step.Main? && s.main.Top?))
  {
  }

  /** The flag is main's knowledge of that, in every run. */
  lemma {:induction false} FlagIsCalledBack(steps: seq<Step>)
    requires Run(Do, Init(), steps).Next?
    ensures Run(Do, Init(), steps).s.reinstall <==> CalledBack(steps)
    decreases |steps|
  {
    if steps != [] {
      var n := |steps| - 1;
      RunLast(Do, Init(), steps);
      FlagIsCalledBack(steps[..n]);
      assert steps == steps[..n] + [steps[n]];
      CalledBackOn(steps[..n], steps[n]);
      FlagSteps(At(steps, n).s, steps[n]);
    }
  }

  /** At the end of a round main starts the worker once more if and only if clear_and_restart has begun
      in the round, since main's last step out of the top of the loop; otherwise it goes on to
      uninstall SIGHUP and destroy the segment. */
  lemma RestartIff(steps: seq<Step>)
    requires Run(Do, Init(), steps).Next? && Run(Do, Init(), steps).s.main.LoopTest?
    ensures var s := Run(Do, Init(), steps).s;
            && Do(s, Main).Next?
            && (Do(s, Main).s.main.Top? <==> CalledBack(steps))
            && (Do(s, Main).s.main.Uninstalling? <==> !CalledBack(steps))
  {
    FlagIsCalledBack(steps);
  }

  /** Main is past the loop. */
  predicate Leaving(main: MainPc) {
    main.Uninstalling? || main.Destroying? || main.Done?
  }

  /** With step `n` main leaves the loop, no callback having begun in the last round, and begins no
      round after that. */
  predicate LeavesUncalled(steps: seq<Step>, n: nat) {
    && n < |steps| && steps[n].Main? && At(steps, n).Next? && At(steps, n).s.main.LoopTest?
    && !CalledBack(steps[..n])
    && forall i: nat :: n < i < |steps| ==> !BeginsRound(steps, i)
  }

  lemma UncalledOn(steps: seq<Step>, step: Step, n: nat)
    requires LeavesUncalled(steps, n) && Run(Do, Init(), steps).Next? && !Run(Do, Init(), steps).s.main.Top?
    ensures LeavesUncalled(steps + [step], n)
  {
    var all := steps + [step];
    assert all[..n] == steps[..n] && all[..|steps|] == steps;
    forall i: nat | n < i < |all| ensures !BeginsRound(all, i) {
      if i < |steps| {
        BeginsRoundBefore(steps, [step], i);
      }
    }
  }

  lemma LeavesAtTest(s: State, step: Step)
    requires Do(s, step).Next? && !Leaving(s.main) && Leaving(Do(s, step).s.main)
    ensures step.Main? && s.main.LoopTest? && Do(s, step).s.main.Uninstalling?
  {
  }

  lemma LeavesNow(steps: seq<Step>, step: Step)
    requires Run(Do, Init(), steps).Next? && !Leaving(Run(Do, Init(), steps).s.main)
    requires Do(Run(Do, Init(), steps).s, step).Next? && Leaving(Do(Run(Do, Init(), steps).s, step).s.main)
    ensures LeavesUncalled(steps + [step], |steps|)
  {
    var all := steps + [step];
    assert all[..|steps|] == steps;
    LeavesAtTest(Run(Do, Init(), steps).s, step);
    RestartIff(steps);
  }

  /** A run comes past the loop only so: no hangup whose callback began before main's last test is left
      without a replay. */
  lemma {:induction false} EndsUncalled(steps: seq<Step>) returns (n: nat)
    requires Run(Do, Init(), steps).Next? && Leaving(Run(Do, Init(), steps).s.main)
    ensures LeavesUncalled(steps, n)
    decreases |steps|
  {
    var k := |steps| - 1;
    RunLast(Do, Init(), steps);
    assert steps == steps[..k] + [steps[k]];
    if Leaving(At(steps, k).s.main) {
      n := EndsUncalled(steps[..k]);
      UncalledOn(steps[..k], steps[k], n);
    } else {
      n := k;
      LeavesNow(steps[..k], steps[k]);
    }
  }
}
