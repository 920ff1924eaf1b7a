/**
 The counting semaphore of src/lib/shmlib/shared_mem.c, shared by processes that each add one to it
 on their first connect to a segment. Every semop carries SEM_UNDO, so the kernel keeps for each
 process the adjustment that undoes its operations and applies it when the process ends; a result
 below zero is cut off at zero (semop(2)).
 */
module Semaphore {
  /** A live process: its first connects so far, how many locks it holds, and its undo adjustment. */
  datatype Process = Process(connects: nat, holds: nat, adjust: int)

  datatype State = State(value: int, removed: bool, procs: map<nat, Process>)

  datatype Step =
    | Connect(pid: nat)   // a first connect: semget and the +1 of connect_shm
    | Lock(pid: nat)      // shm_lock by some thread of the process
    | Unlock(pid: nat)    // shm_unlock by a thread that holds it
    | ProcessExit(pid: nat)
    | Remove              // destroy_shm_lock finding no attachment

  const FRESH := State(0, false, map[])

  function ProcessOf(s: State, pid: nat): Process {
    if pid in s.procs then s.procs[pid] else Process(0, 0, 0)
  }

  /** A process can lock only with a node in its own table, which its first connect made; a semop
      that would go below zero blocks; locks and unlocks are paired. */
  predicate Enabled(s: State, step: Step) {
    match step
    case Connect(_) => true
    case Lock(p) => !s.removed ==> 0 < ProcessOf(s, p).connects && 0 < s.value
    case Unlock(p) => !s.removed ==> 0 < ProcessOf(s, p).holds
    case ProcessExit(p) => p in s.procs
    case Remove => true
  }

  function Do(s: State, step: Step): State
    requires Enabled(s, step)
  {
    match step
    case Connect(p) =>
      var proc := ProcessOf(s, p);
      if s.removed then s
      else
        s.(value := s.value + 1,
           procs := s.procs[p := proc.(connects := proc.connects + 1, adjust := proc.adjust - 1)])
    case Lock(p) =>
      var proc := ProcessOf(s, p);
      if s.removed then s
      else s.(value := s.value - 1, procs := s.procs[p := proc.(holds := proc.holds + 1, adjust := proc.adjust + 1)])
    case Unlock(p) =>
      var proc := ProcessOf(s, p);
      if s.removed then s
      else s.(value := s.value + 1, procs := s.procs[p := proc.(holds := proc.holds - 1, adjust := proc.adjust - 1)])
    case ProcessExit(p) =>
      var undone := s.value + s.procs[p].adjust;
      s.(value := if s.removed then s.value else if undone < 0 then 0 else undone, procs := s.procs - {p})
    case Remove => s.(removed := true)
  }

  predicate RunEnabled(s: State, steps: seq<Step>)
    decreases |steps|
  {
    steps == [] || (Enabled(s, steps[0]) && RunEnabled(Do(s, steps[0]), steps[1..]))
  }

  function Run(s: State, steps: seq<Step>): State
    requires RunEnabled(s, steps)
    decreases |steps|
  {
    if steps == [] then s else Run(Do(s, steps[0]), steps[1..])
  }

  // ------------------------------------------------------------ the totals

  function ConnectsOf(p: Process): nat {
    p.connects
  }

  function HoldsOf(p: Process): nat {
    p.holds
  }

  ghost function Least(pids: set<nat>): (p: nat)
    requires pids != {}
    ensures p in pids && forall q :: q in pids ==> p <= q
    decreases pids
  {
    var x :| x in pids;
    if pids == {x} then x
    else
      assert pids == (pids - {x}) + {x};
      assert forall q :: q in pids ==> q == x || q in pids - {x};
      var y := Least(pids - {x});
      if x <= y then x else y
  }

  ghost function Sum(procs: map<nat, Process>, pids: set<nat>, part: Process -> nat): nat
    requires pids <= procs.Keys
    decreases pids
  {
    if pids == {} then 0
    else
      var p := Least(pids);
      part(procs[p]) + Sum(procs, pids - {p}, part)
  }

  /** Over the live processes. */
  ghost function FirstConnects(procs: map<nat, Process>): nat {
    Sum(procs, procs.Keys, ConnectsOf)
  }

  ghost function Holders(procs: map<nat, Process>): nat {
    Sum(procs, procs.Keys, HoldsOf)
  }

  /** Any process can be taken out of a sum first. */
  lemma {:induction false} SumSplit(procs: map<nat, Process>, pids: set<nat>, p: nat, part: Process -> nat)
    requires pids <= procs.Keys && p in pids
    ensures Sum(procs, pids, part) == part(procs[p]) + Sum(procs, pids - {p}, part)
    decreases pids
  {
    var q := Least(pids);
    if q != p {
      SumSplit(procs, pids - {q}, p, part);
      SumSplit(procs, pids - {p}, q, part);
      assert pids - {q} - {p} == pids - {p} - {q};
    }
  }

  lemma {:induction false} SumFrame(procs: map<nat, Process>, other: map<nat, Process>, pids: set<nat>,
                                    part: Process -> nat)
    requires pids <= procs.Keys && pids <= other.Keys
    requires forall p :: p in pids ==> procs[p] == other[p]
    ensures Sum(procs, pids, part) == Sum(other, pids, part)
    decreases pids
  {
    if pids != {} {
      SumFrame(procs, other, pids - {Least(pids)}, part);
    }
  }

  /** Changing one process changes a total by the difference. */
  lemma SumUpdate(procs: map<nat, Process>, p: nat, proc: Process, part: Process -> nat)
    ensures Sum(procs[p := proc], procs[p := proc].Keys, part) + (if p in procs then part(procs[p]) else 0)
         == Sum(procs, procs.Keys, part) + part(proc)
  {
    var procs' := procs[p := proc];
    SumSplit(procs', procs'.Keys, p, part);
    SumFrame(procs, procs', procs.Keys - {p}, part);
    assert procs'.Keys - {p} == procs.Keys - {p};
    if p in procs {
      SumSplit(procs, procs.Keys, p, part);
    } else {
      assert procs.Keys - {p} == procs.Keys;
    }
  }

  lemma SumWithout(procs: map<nat, Process>, p: nat, part: Process -> nat)
    requires p in procs
    ensures Sum(procs, procs.Keys, part) == Sum(procs - {p}, (procs - {p}).Keys, part) + part(procs[p])
  {
    SumSplit(procs, procs.Keys, p, part);
    assert (procs - {p}).Keys == procs.Keys - {p};
    SumFrame(procs, procs - {p}, procs.Keys - {p}, part);
  }

  lemma Updated(procs: map<nat, Process>, p: nat, proc: Process)
    ensures FirstConnects(procs[p := proc]) + (if p in procs then procs[p].connects else 0)
         == FirstConnects(procs) + proc.connects
    ensures Holders(procs[p := proc]) + (if p in procs then procs[p].holds else 0) == Holders(procs) + proc.holds
  {
    SumUpdate(procs, p, proc, ConnectsOf);
    SumUpdate(procs, p, proc, HoldsOf);
  }

  // -------------------------------------------------- what one call changes

  /** Of the processes only `p` differs. */
  ghost predicate OnlyChanges(s: State, t: State, p: nat) {
    && t.removed == s.removed
    && forall q :: q != p ==> ProcessOf(t, q) == ProcessOf(s, q) && (q in t.procs <==> q in s.procs)
  }

  /** A first connect is counted once, for its process, and lets that process lock. */
  lemma ConnectCounts(s: State, p: nat)
    requires !s.removed && 0 <= s.value
    ensures Enabled(s, Connect(p))
    ensures var t := Do(s, Connect(p));
            && FirstConnects(t.procs) == FirstConnects(s.procs) + 1 && Holders(t.procs) == Holders(s.procs)
            && ProcessOf(t, p).connects == ProcessOf(s, p).connects + 1
            && ProcessOf(t, p).holds == ProcessOf(s, p).holds
            && OnlyChanges(s, t, p) && t.value == s.value + 1 && Enabled(t, Lock(p))
  {
    Updated(s.procs, p, Do(s, Connect(p)).procs[p]);
  }

  /** A lock that is had makes one holder more, and only of connected processes. */
  lemma LockTakes(s: State, p: nat)
    requires !s.removed
    ensures Enabled(s, Lock(p)) <==> 0 < ProcessOf(s, p).connects && 0 < s.value
    ensures Enabled(s, Lock(p)) ==>
              var t := Do(s, Lock(p));
              && FirstConnects(t.procs) == FirstConnects(s.procs) && Holders(t.procs) == Holders(s.procs) + 1
              && ProcessOf(t, p).connects == ProcessOf(s, p).connects
              && ProcessOf(t, p).holds == ProcessOf(s, p).holds + 1
              && OnlyChanges(s, t, p) && t.value == s.value - 1
  {
    if Enabled(s, Lock(p)) {
      Updated(s.procs, p, Do(s, Lock(p)).procs[p]);
    }
  }

  /** An unlock, for which the process must hold the lock, makes one holder less. */
  lemma UnlockReleases(s: State, p: nat)
    requires !s.removed
    ensures Enabled(s, Unlock(p)) <==> 0 < ProcessOf(s, p).holds
    ensures Enabled(s, Unlock(p)) ==>
              var t := Do(s, Unlock(p));
              && FirstConnects(t.procs) == FirstConnects(s.procs) && Holders(t.procs) + 1 == Holders(s.procs)
              && ProcessOf(t, p).connects == ProcessOf(s, p).connects
              && ProcessOf(t, p).holds + 1 == ProcessOf(s, p).holds
              && OnlyChanges(s, t, p) && t.value == s.value + 1
  {
    if Enabled(s, Unlock(p)) {
      Updated(s.procs, p, Do(s, Unlock(p)).procs[p]);
    }
  }

  /** An unlock undoes a lock. */
  lemma LockUnlockRoundTrip(s: State, p: nat)
    requires Enabled(s, Lock(p))
    ensures Enabled(Do(s, Lock(p)), Unlock(p)) && Do(Do(s, Lock(p)), Unlock(p)) == s
  {
    if !s.removed {
      var t := Do(s, Lock(p));
      assert t.procs[p := s.procs[p]] == s.procs;
    }
  }

  /** Once it is removed no call blocks and none changes anything but by exits. */
  lemma RemoveUnblocks(s: State, p: nat)
    ensures Enabled(s, Remove)
    ensures var t := Do(s, Remove);
            && t.removed && t.procs == s.procs && Enabled(t, Connect(p)) && Enabled(t, Lock(p)) && Enabled(t, Unlock(p))
            && Do(t, Connect(p)) == t && Do(t, Lock(p)) == t && Do(t, Unlock(p)) == t
  {
  }

  // ----------------------------------------------------------- conservation

  /** The undo adjustment of a process is its holds less its first connects. */
  ghost predicate AdjustOk(s: State) {
    forall p :: p in s.procs ==> s.procs[p].adjust == s.procs[p].holds - s.procs[p].connects
  }

  /** value + holders = first connects of the live processes. */
  ghost predicate Conserved(s: State) {
    s.value + Holders(s.procs) == FirstConnects(s.procs)
  }

  /** Should `pid` exit, the processes left hold no more locks than they first-connected. */
  ghost predicate Covered(s: State, pid: nat) {
    Holders(s.procs - {pid}) <= FirstConnects(s.procs - {pid})
  }

  /** The exit of a process takes its first connects off the value and gives its holds back, cut off at
      zero, and takes the process out; of a removed semaphore only the latter. */
  lemma ExitUndoes(s: State, p: nat)
    requires AdjustOk(s) && 0 <= s.value
    ensures Enabled(s, ProcessExit(p)) <==> p in s.procs
    ensures p in s.procs ==>
              var t, left := Do(s, ProcessExit(p)), s.value + s.procs[p].holds - s.procs[p].connects;
              && t.removed == s.removed && t.procs == s.procs - {p}
              && (s.removed ==> t.value == s.value)
              && (!s.removed && 0 <= left ==> t.value == left) && (!s.removed && left < 0 ==> t.value == 0)
  {
  }

  /** One step keeps the law, except that the exit of a process keeps it exactly when the rest do
      not together hold more locks than they first-connected. */
  lemma StepConservesIff(s: State, step: Step)
    requires Enabled(s, step) && AdjustOk(s) && Conserved(s) && !s.removed && 0 <= s.value
    ensures AdjustOk(Do(s, step)) && 0 <= Do(s, step).value
    ensures !step.ProcessExit? ==> Conserved(Do(s, step))
    ensures step.ProcessExit? ==> (Conserved(Do(s, step)) <==> Covered(s, step.pid))
  {
    match step
    case Connect(p) => Updated(s.procs, p, Do(s, step).procs[p]);
    case Lock(p) => Updated(s.procs, p, Do(s, step).procs[p]);
    case Unlock(p) => Updated(s.procs, p, Do(s, step).procs[p]);
    case ProcessExit(p) =>
      SumWithout(s.procs, p, ConnectsOf);
      SumWithout(s.procs, p, HoldsOf);
    case Remove =>
  }

  /** Every exit of the run, while the semaphore is not removed, leaves the rest covered. */
  ghost predicate ExitsCovered(s: State, steps: seq<Step>)
    requires RunEnabled(s, steps)
    decreases |steps|
  {
    steps == [] ||
    ((steps[0].ProcessExit? && !s.removed ==> Covered(s, steps[0].pid)) && ExitsCovered(Do(s, steps[0]), steps[1..]))
  }

  /** The law holds in every state of the run in which the semaphore is not removed. */
  ghost predicate LawThroughout(s: State, steps: seq<Step>)
    requires RunEnabled(s, steps)
    decreases |steps|
  {
    (!s.removed ==> Conserved(s)) && (steps == [] || LawThroughout(Do(s, steps[0]), steps[1..]))
  }

  lemma {:induction false} StaysRemoved(s: State, steps: seq<Step>)
    requires RunEnabled(s, steps) && s.removed
    ensures Run(s, steps).removed && LawThroughout(s, steps) && ExitsCovered(s, steps)
    decreases |steps|
  {
    if steps != [] {
      StaysRemoved(Do(s, steps[0]), steps[1..]);
    }
  }

  /** The conservation law over whole runs: value + holders is the number of first connects by live
      processes throughout a run, undo at exit included, if and only if every exit is covered. */
  lemma {:induction false} RunConservesIff(s: State, steps: seq<Step>)
    requires RunEnabled(s, steps) && AdjustOk(s) && 0 <= s.value && (!s.removed ==> Conserved(s))
    ensures LawThroughout(s, steps) <==> ExitsCovered(s, steps)
    ensures ExitsCovered(s, steps) && !Run(s, steps).removed ==>
              AdjustOk(Run(s, steps)) && Conserved(Run(s, steps)) && 0 <= Run(s, steps).value
    decreases |steps|
  {
    if s.removed {
      StaysRemoved(s, steps);
    } else if steps != [] {
      StepConservesIff(s, steps[0]);
      if steps[0].ProcessExit? && !Covered(s, steps[0].pid) {
        assert !Conserved(Do(s, steps[0])) && !Do(s, steps[0]).removed;
      } else {
        RunConservesIff(Do(s, steps[0]), steps[1..]);
      }
    }
  }

  /** Each live process holds the lock at most once in every state of the run. */
  ghost predicate RunHoldsOnce(s: State, steps: seq<Step>)
    requires RunEnabled(s, steps)
    decreases |steps|
  {
    (forall p :: p in s.procs ==> s.procs[p].holds <= 1)
    && (steps == [] || RunHoldsOnce(Do(s, steps[0]), steps[1..]))
  }

  lemma {:induction false} HoldsBelow(procs: map<nat, Process>, pids: set<nat>)
    requires pids <= procs.Keys && forall p :: p in pids ==> procs[p].holds <= procs[p].connects
    ensures Sum(procs, pids, HoldsOf) <= Sum(procs, pids, ConnectsOf)
    decreases pids
  {
    if pids != {} {
      HoldsBelow(procs, pids - {Least(pids)});
    }
  }

  /** Holding the lock at most once covers every exit, as only a connected process can lock. */
  lemma {:induction false} HoldingOnceIsCovered(s: State, steps: seq<Step>)
    requires RunEnabled(s, steps) && RunHoldsOnce(s, steps)
    requires forall p :: p in s.procs ==> s.procs[p].holds <= s.procs[p].connects
    ensures ExitsCovered(s, steps)
    decreases |steps|
  {
    if s.removed {
      StaysRemoved(s, steps);
    } else if steps != [] {
      var t := Do(s, steps[0]);
      forall p | p in t.procs ensures t.procs[p].holds <= t.procs[p].connects {
        assert t.procs[p].holds <= 1;
      }
      if steps[0].ProcessExit? {
        HoldsBelow(t.procs, t.procs.Keys);
      }
      HoldingOnceIsCovered(t, steps[1..]);
    }
  }

  /** Without the rule the kernel's cut-off breaks the law: a process that holds on its own twice
      what it connected leaves a later exit nothing to undo. */
  lemma ExitCanBreakConservation()
    ensures var steps := [Connect(1), Connect(2), Lock(2), Lock(2)];
            && RunEnabled(FRESH, steps) && Conserved(Run(FRESH, steps))
            && !Conserved(Do(Run(FRESH, steps), ProcessExit(1)))
  {
    var steps := [Connect(1), Connect(2), Lock(2), Lock(2)];
    assert steps[1..] == [Connect(2), Lock(2), Lock(2)] && steps[1..][1..] == [Lock(2), Lock(2)];
    assert [Lock(2), Lock(2)][1..] == [Lock(2)] && [Lock(2)][1..] == [];
    var s := Do(Do(FRESH, steps[0]), steps[1]);
    var t := Do(Do(s, Lock(2)), Lock(2));
    assert RunEnabled(s, [Lock(2), Lock(2)]) && Run(s, [Lock(2), Lock(2)]) == t;
    assert t.procs == map[1 := Process(1, 0, -1), 2 := Process(1, 2, 1)];
    var one: map<nat, Process> := map[];
    Updated(one, 1, Process(1, 0, -1));
    Updated(one[1 := Process(1, 0, -1)], 2, Process(1, 2, 1));
    assert one[1 := Process(1, 0, -1)][2 := Process(1, 2, 1)] == t.procs;
    assert AdjustOk(t);
    StepConservesIff(t, ProcessExit(1));
    SumWithout(t.procs, 1, ConnectsOf);
    SumWithout(t.procs, 1, HoldsOf);
  }

  // ------------------------------------------------------- mutual exclusion

  /** A state of some run from a fresh semaphore that has not removed it, every exit covered. */
  ghost predicate Reachable(s: State) {
    !s.removed && exists steps :: RunEnabled(FRESH, steps) && ExitsCovered(FRESH, steps) && Run(FRESH, steps) == s
  }

  lemma {:induction false} SomeConnected(procs: map<nat, Process>, pids: set<nat>) returns (p: nat)
    requires pids <= procs.Keys && 0 < Sum(procs, pids, ConnectsOf)
    ensures p in pids && 0 < procs[p].connects
    decreases pids
  {
    p := Least(pids);
    if procs[p].connects == 0 {
      p := SomeConnected(procs, pids - {p});
    }
  }

  /** What exclusion there is follows from the law: never more holders than first connects, and the
      lock is to be had exactly when there are fewer. */
  lemma HoldersWithinConnects(s: State)
    requires Reachable(s)
    ensures AdjustOk(s) && Conserved(s) && 0 <= s.value
    ensures Holders(s.procs) <= FirstConnects(s.procs)
    ensures (exists p :: Enabled(s, Lock(p))) <==> Holders(s.procs) < FirstConnects(s.procs)
  {
    var steps :| RunEnabled(FRESH, steps) && ExitsCovered(FRESH, steps) && Run(FRESH, steps) == s;
    RunConservesIff(FRESH, steps);
    if Holders(s.procs) < FirstConnects(s.procs) {
      var p := SomeConnected(s.procs, s.procs.Keys);
      assert Enabled(s, Lock(p));
    }
  }

  /** Only locks and unlocks. */
  predicate OnlyLocking(steps: seq<Step>) {
    forall i :: 0 <= i < |steps| ==> steps[i].Lock? || steps[i].Unlock?
  }

  lemma {:induction false} LockingConserves(s: State, steps: seq<Step>)
    requires RunEnabled(s, steps) && OnlyLocking(steps)
    requires AdjustOk(s) && Conserved(s) && 0 <= s.value && !s.removed
    ensures var t := Run(s, steps);
            Conserved(t) && 0 <= t.value && FirstConnects(t.procs) == FirstConnects(s.procs)
    decreases |steps|
  {
    if steps != [] {
      var p := steps[0].pid;
      StepConservesIff(s, steps[0]);
      Updated(s.procs, p, Do(s, steps[0]).procs[p]);
      LockingConserves(Do(s, steps[0]), steps[1..]);
    }
  }

  /** A connected process can take the lock as often as the value allows. */
  lemma {:induction false} LockOften(s: State, p: nat, n: nat) returns (steps: seq<Step>)
    requires !s.removed && p in s.procs && 0 < s.procs[p].connects && n <= s.value
    ensures RunEnabled(s, steps) && OnlyLocking(steps)
    ensures Holders(Run(s, steps).procs) == Holders(s.procs) + n
    decreases n
  {
    if n == 0 {
      steps := [];
    } else {
      var t := Do(s, Lock(p));
      Updated(s.procs, p, t.procs[p]);
      var rest := LockOften(t, p, n - 1);
      steps := [Lock(p)] + rest;
      assert steps[1..] == rest;
    }
  }

  /** The run takes the lock while someone has it. */
  ghost predicate TwoHold(s: State, steps: seq<Step>) {
    OnlyLocking(steps) && RunEnabled(s, steps) && 2 <= Holders(Run(s, steps).procs)
  }

  /** The semaphore is a lock exactly as long as it has seen one first connect: from any reachable
      state, locks and unlocks lead to two holds at once if and only if the live processes have
      first-connected twice or more. */
  lemma TwoHoldIff(s: State)
    requires Reachable(s)
    ensures (exists steps :: TwoHold(s, steps)) <==> 2 <= FirstConnects(s.procs)
  {
    HoldersWithinConnects(s);
    if steps :| TwoHold(s, steps) {
      LockingConserves(s, steps);
    }
    if 2 <= FirstConnects(s.procs) {
      var p := SomeConnected(s.procs, s.procs.Keys);
      var n := if Holders(s.procs) < 2 then 2 - Holders(s.procs) else 0;
      var steps := LockOften(s, p, n);
      assert TwoHold(s, steps);
    }
  }

  /** In particular it excludes the threads of a single connected process from each other: with one
      first connect at most one lock is held, and while it is, no thread of any process gets it. */
  lemma OneConnectExcludes(s: State, p: nat)
    requires Reachable(s) && FirstConnects(s.procs) == 1
    ensures Holders(s.procs) <= 1
    ensures Holders(s.procs) == 1 ==> !Enabled(s, Lock(p))
  {
    HoldersWithinConnects(s);
  }

  /** ... and when it is released, somebody gets it again. */
  lemma UnlockFreesLock(s: State, p: nat)
    requires Reachable(s) && FirstConnects(s.procs) == 1 && Holders(s.procs) == 1 && Enabled(s, Unlock(p))
    ensures exists q :: Enabled(Do(s, Unlock(p)), Lock(q))
  {
    HoldersWithinConnects(s);
    UnlockReleases(s, p);
    var t := Do(s, Unlock(p));
    var q := SomeConnected(t.procs, t.procs.Keys);
    assert Enabled(t, Lock(q));
  }

  /** It does not exclude processes from each other: any two that are connected can hold it at once,
      from any reachable state in which it is free. */
  lemma TwoProcessesBothHold(s: State, p: nat, q: nat)
    requires Reachable(s) && Holders(s.procs) == 0
    requires p in s.procs && q in s.procs && p != q && 0 < s.procs[p].connects && 0 < s.procs[q].connects
    ensures RunEnabled(s, [Lock(p), Lock(q)])
    ensures 1 <= ProcessOf(Run(s, [Lock(p), Lock(q)]), p).holds && 1 <= ProcessOf(Run(s, [Lock(p), Lock(q)]), q).holds
  {
    HoldersWithinConnects(s);
    SumSplit(s.procs, s.procs.Keys, p, ConnectsOf);
    SumSplit(s.procs, s.procs.Keys - {p}, q, ConnectsOf);
    assert [Lock(p), Lock(q)][1..] == [Lock(q)] && [Lock(q)][1..] == [];
    var t := Do(s, Lock(p));
    assert RunEnabled(t, [Lock(q)]) && Run(t, [Lock(q)]) == Do(t, Lock(q));
  }
}
