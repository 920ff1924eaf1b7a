/**
 Where the threads of install_data race: exactly when a run of `InstallData` faults, the runs that
 do, and the runs in which a restart does not wait for its clear.
 */
module InstallRaces {
  import opened Options
  import opened Runs
  import opened InstallData
  import K = KillModel
  import R = KillRaces
  import T = ThreadModel

  // --------------------------------------------------- when a run can fault

  /** clear_and_restart has its memset, or some of it, still before it. */
  predicate WillClear(mgr: ManagerPc) {
    mgr.Called? || mgr.Clearing?
  }

  /** Main cleans up a handle whose record the manager's th_kill, or the worker's own last
      show_thread, still looks through; or it detaches the segment before or under the memset. */
  predicate Hazard(s: State, step: Step) {
    step.Main? &&
    (|| (s.main.Reaping? && R.Cuts(s.tm, T.WaitEnd(s.main.idx)))
     || (s.main.Destroying? && WillClear(s.mgr)))
  }

  predicate Steady(s: State) {
    Inv(s) && R.Steady(s.tm) && (WillClear(s.mgr) ==> s.attached)
  }

  predicate NotMain(step: Step) {
    !step.Main?
  }

  predicate Faulted(o: Outcome<State>) {
    o.Fault?
  }

  function Racing(): System<State, Step> {
    System(Do, Steady, Hazard, NotMain, Faulted)
  }

  lemma LibraryKeepsSteady(s: State, step: Step)
    requires Steady(s) && !Hazard(s, step) && LibraryStep(s, step).Some?
    requires step.Worker? ==> WorkerStep(step.step)
    ensures !Do(s, step).Fault?
    ensures Do(s, step).Next? ==> R.Steady(Do(s, step).s.tm)
  {
    var lib := LibraryStep(s, step).value;
    assert !R.Cuts(s.tm, lib);
    R.StepKeepsSteady(s.tm, lib);
    if Do(s, step).Next? {
      RefinesThreadManager(s, step);
      assert Do(s, step).s.tm == T.Do(s.tm, lib).s;
    }
  }

  /** Without such a step nothing faults. */
  lemma StepKeepsSteady(s: State, step: Step)
    requires Steady(s) && !Hazard(s, step)
    ensures !Do(s, step).Fault?
    ensures Do(s, step).Next? ==> Steady(Do(s, step).s)
  {
    StepKeepsInv(s, step);
    if LibraryStep(s, step).Some? && (step.Worker? ==> WorkerStep(step.step)) {
      LibraryKeepsSteady(s, step);
    }
  }

  lemma RunTwo(s: State, a: Step, b: Step)
    ensures Run(Do, s, [a]) == Do(s, a)
    ensures Run(Do, s, [a, b]) == match Do(s, a) case Next(t) => Do(t, b) case Blocked => Blocked case Fault => Fault
  {
    RunOne(Do, s, a);
    if Do(s, a).Next? {
      RunCons(Do, s, a, [b]);
      RunOne(Do, Do(s, a).s, b);
      assert [a] + [b] == [a, b];
    }
  }

  /** The manager's th_kill goes on. */
  lemma ManagerKills(s: State)
    requires s.mgr.Killing? && s.mgr.idx < T.MAX_THREADS && MANAGER in s.tm.kills
    ensures Run(T.Do, s.tm, [T.KillStep(MANAGER)]).Fault? ==> Run(Do, s, [Manager]).Fault?
    ensures Run(T.Do, s.tm, [T.KillStep(MANAGER), T.KillStep(MANAGER)]).Fault? ==>
              Run(Do, s, [Manager]).Fault? || Run(Do, s, [Manager, Manager]).Fault?
  {
    RunOne(T.Do, s.tm, T.KillStep(MANAGER));
    RunTwo(s, Manager, Manager);
    if T.Do(s.tm, T.KillStep(MANAGER)).Next? {
      var u := T.Do(s.tm, T.KillStep(MANAGER)).s;
      RunCons(T.Do, s.tm, T.KillStep(MANAGER), [T.KillStep(MANAGER)]);
      assert [T.KillStep(MANAGER)] + [T.KillStep(MANAGER)] == [T.KillStep(MANAGER), T.KillStep(MANAGER)];
      RunOne(T.Do, u, T.KillStep(MANAGER));
    }
  }

  /** What runs into the fault: the callback, or a worker's last show_thread. */
  predicate Culprit(more: seq<Step>) {
    || more == [Manager] || more == [Manager, Manager] || more == [CallBack, Manager]
    || (|more| == 1 && more[0].Worker? && more[0].step.Look?)
  }

  /** While main waits, a th_kill is the manager's. */
  lemma ManagerUnder(s: State, t: nat)
    requires Inv(s) && s.main.Reaping? && t in s.tm.kills && Do(s, Main).Next?
    ensures t == MANAGER && Do(s, Main).s.mgr.Killing? && Do(s, Main).s.mgr.idx < T.MAX_THREADS
    ensures t in Do(s, Main).s.tm.kills
  {
  }

  lemma CutFaults(s: State) returns (more: seq<Step>)
    requires Steady(s) && s.main.Reaping? && R.Cuts(s.tm, T.WaitEnd(s.main.idx))
    ensures Culprit(more) && Run(Do, Do(s, Main).s, more).Fault?
  {
    var u := Do(s, Main).s;
    var calls := R.CutFaults(s.tm, T.WaitEnd(s.main.idx));
    if r :| calls == [T.Look(r)] {
      RunOne(T.Do, u.tm, T.Look(r));
      RunTwo(u, Worker(T.Look(r)), Manager);
      more := [Worker(T.Look(r))];
    } else {
      var t :| t in s.tm.kills && (calls == [T.KillStep(t)] || calls == [T.KillStep(t), T.KillStep(t)]);
      ManagerUnder(s, t);
      ManagerKills(u);
      more := if Run(Do, u, [Manager]).Fault? then [Manager] else [Manager, Manager];
    }
  }

  /** After such a step, the thread it overtook faults when it goes on. */
  lemma HazardFaults(s: State, step: Step) returns (more: seq<Step>)
    requires Steady(s) && Hazard(s, step) && Do(s, step).Next?
    ensures Culprit(more) && Run(Do, Do(s, step).s, more).Fault?
  {
    if s.main.Destroying? {
      RunTwo(Do(s, Main).s, Manager, Manager);
      RunTwo(Do(s, Main).s, CallBack, Manager);
      more := if s.mgr.Called? then [CallBack, Manager] else [Manager];
    } else {
      more := CutFaults(s);
    }
  }

  lemma InitSteady()
    ensures Steady(Init())
  {
    R.InitSteady();
  }

  lemma HazardComesToBad(s: State, step: Step)
    requires Steady(s) && Hazard(s, step) && Do(s, step).Next?
    ensures ComesToBad(Racing(), Do(s, step).s)
  {
    var more := HazardFaults(s, step);
    assert Quiet(Racing(), more);
  }

  lemma RacingCuts()
    ensures Cutting(Racing())
  {
    var y := Racing();
    forall s, a | y.inv(s) && !y.cuts(s, a) ensures Sound(y, y.do(s, a)) {
      StepKeepsSteady(s, a);
    }
    forall s, a | y.inv(s) && y.cuts(s, a) && y.do(s, a).Next? ensures ComesToBad(y, y.do(s, a).s) {
      HazardComesToBad(s, a);
    }
  }

  lemma RunKeepsSteady(s: State, steps: seq<Step>)
    requires Steady(s) && NeverCuts(Racing(), s, steps)
    ensures !Run(Do, s, steps).Fault?
    ensures Run(Do, s, steps).Next? ==> Steady(Run(Do, s, steps).s)
  {
    RacingCuts();
    NeverCutsSound(Racing(), s, steps);
  }

  /** Exactly when install_data faults: a run leads to a NULL dereference in the library, or to a
      store to the detached segment, if and only if at some step of it main cleans up the handle
      under the manager's th_kill or the worker's last show_thread, or destroys the segment before
      or under the memset. */
  lemma FaultIff(s: State, steps: seq<Step>)
    requires Steady(s) && Run(Do, s, steps).Next?
    ensures Leads(Racing(), s, steps) <==> !NeverCuts(Racing(), s, steps)
  {
    RacingCuts();
    LeadsIff(Racing(), s, steps);
  }

  // ------------------------------------------------------------ reachability

  /** Steps that neither touch the segment nor end a worker's function nor move the manager on. */
  predicate Plain(step: Step) {
    !step.Touch? && !step.Zero? && !step.Manager? && !(step.Worker? && step.step.Exit?)
  }

  predicate AllPlain(steps: seq<Step>) {
    forall i :: 0 <= i < |steps| ==> Plain(steps[i])
  }

  /** Some run leads from `s` to `t`, by plain steps only if `plain`. */
  ghost predicate Reaches(s: State, t: State, plain: bool) {
    exists steps :: Run(Do, s, steps) == Next(t) && (plain ==> AllPlain(steps))
  }

  lemma ReachesStep(s: State, step: Step, t: State)
    requires Do(s, step) == Next(t)
    ensures Reaches(s, t, Plain(step))
  {
    RunOne(Do, s, step);
    assert Plain(step) ==> AllPlain([step]);
  }

  lemma ReachesAll(s: State, t: State, one: bool, u: State, two: bool)
    requires Reaches(s, t, one) && Reaches(t, u, two)
    ensures Reaches(s, u, one && two)
  {
    var a :| Run(Do, s, a) == Next(t) && (one ==> AllPlain(a));
    var b :| Run(Do, t, b) == Next(u) && (two ==> AllPlain(b));
    RunAppend(Do, s, a, b);
    assert one && two ==> AllPlain(a + b);
  }

  lemma ReachesOn(s: State, t: State, plain: bool, step: Step, u: State)
    requires Reaches(s, t, plain) && Do(t, step) == Next(u)
    ensures Reaches(s, u, plain && Plain(step))
  {
    ReachesStep(t, step, u);
    ReachesAll(s, t, plain, u, Plain(step));
  }

  lemma {:induction false} NoNewClear(s: State, steps: seq<Step>)
    requires !s.hangup && !WillClear(s.mgr) && Run(Do, s, steps).Next?
    ensures !WillClear(Run(Do, s, steps).s.mgr)
    decreases |steps|
  {
    if steps != [] {
      NoNewClear(Do(s, steps[0]).s, steps[1..]);
    }
  }

  /** SIGHUP is uninstalled and destroy_shm comes next: the memset can come to store to the detached
      segment if and only if its callback has been looked up and has not finished clearing. */
  lemma ClearFaultsIff(s: State)
    requires Inv(s) && s.main.Destroying?
    ensures (exists t :: Reaches(s, t, false) && t.mgr.Clearing? && Do(t, Manager).Fault?) <==> WillClear(s.mgr)
  {
    if WillClear(s.mgr) {
      var t := Do(s, Main).s;
      ReachesStep(s, Main, t);
      var u := if s.mgr.Called? then Do(t, CallBack).s else t;
      if s.mgr.Called? {
        ReachesOn(s, t, false, CallBack, u);
      }
      assert Reaches(s, u, false) && u.mgr.Clearing? && Do(u, Manager).Fault?;
    }
    if t :| Reaches(s, t, false) && t.mgr.Clearing? && Do(t, Manager).Fault? {
      var steps :| Run(Do, s, steps) == Next(t);
      if !WillClear(s.mgr) {
        NoNewClear(s, steps);
      }
    }
  }

  function EndOfLoop(main: MainPc): MainPc
    requires main.KillAll? || main.WaitAll?
  {
    if main.KillAll? then KillAll(T.MAX_THREADS) else WaitAll(T.MAX_THREADS, main.ok)
  }

  /** th_kill_all and th_wait_all pass over the empty slots. */
  lemma {:induction false} PassEmptySlots(s: State)
    requires (s.main.KillAll? && MAIN !in s.tm.kills) || s.main.WaitAll?
    requires 0 < s.main.idx <= T.MAX_THREADS && |s.tm.slots| == T.MAX_THREADS
    requires forall h :: 0 < h < T.MAX_THREADS ==> s.tm.slots[h].None?
    ensures Reaches(s, s.(main := EndOfLoop(s.main)), true)
    decreases T.MAX_THREADS - s.main.idx
  {
    if s.main.idx == T.MAX_THREADS {
      assert Run(Do, s, []) == Next(s);
    } else {
      var i := s.main.idx;
      var t := s.(main := if s.main.KillAll? then KillAll(i + 1) else WaitAll(i + 1, s.main.ok));
      ReachesStep(s, Main, t);
      PassEmptySlots(t);
      ReachesAll(s, t, true, s.(main := EndOfLoop(s.main)), true);
    }
  }

  // ----------------------------------------------------- the failing runs

  /** Every slot is empty, every earlier worker gone, and no th_kill in progress. */
  predicate NoWorkers(s: State) {
    && SlotsFrom(s.tm, false) && s.tm.scan == None && s.tm.waits == map[] && s.tm.kills == map[]
    && forall q :: 0 <= q < |s.tm.recs| ==> s.tm.recs[q].phase.Terminated?
  }

  /** Handle 0 has the worker `r`, with record `rec`, and every earlier worker is gone. */
  predicate OneWorker(s: State, r: nat, rec: T.Rec) {
    && SlotsFrom(s.tm, true) && s.tm.scan == None && s.tm.waits == map[] && s.tm.slots[0] == Some(r)
    && r < |s.tm.recs| && s.tm.recs[r] == rec && rec.handle == 0 && rec.lock.None?
    && MAIN !in s.tm.kills
    && forall q :: 0 <= q < |s.tm.recs| && q != r ==> s.tm.recs[q].phase.Terminated?
  }

  /** A worker inside its function. */
  function Inside(): T.Rec {
    T.Rec(0, T.Running, T.InBody, false, None)
  }

  /** From the top of the loop, main can start a worker that gets inside its function. */
  lemma BeginRound(s: State) returns (t: State)
    requires s.main.Top? && NoWorkers(s)
    ensures Reaches(s, t, true) && t.main.CondWait? && OneWorker(t, |s.tm.recs|, Inside())
    ensures t == s.(tm := t.tm, main := CondWait, reinstall := false)
    ensures |t.tm.recs| == |s.tm.recs| + 1 && t.tm.kills == map[]
  {
    var r := |s.tm.recs|;
    var s1 := s.(reinstall := false, main := Searching);
    ReachesStep(s, Main, s1);
    assert T.LowestFree(s.tm.slots, 0) == 0;
    var s2 := s1.(tm := s1.tm.(scan := Some(0)), main := Publishing);
    ReachesOn(s, s1, true, Main, s2);
    var s3 := s2.(tm := T.Do(s2.tm, T.Publish).s, main := CondWait);
    ReachesOn(s, s2, true, Main, s3);
    t := s3.(tm := T.SetRec(s3.tm, r, Inside()));
    ReachesOn(s, s3, true, Worker(T.Start(r)), t);
  }

  /** The steps of a th_kill that goes on alone are steps main can make. */
  lemma {:induction false} MainKillsOn(s: State, n: nat, u: T.State)
    requires s.main.KillAll? && s.main.idx < T.MAX_THREADS && MAIN in s.tm.kills
    requires Run(T.Do, s.tm, K.KillSteps(MAIN, n)) == Next(u) && MAIN !in u.kills
    ensures Reaches(s, s.(tm := u, main := KillAll(s.main.idx + 1)), true)
    decreases n
  {
    assert n != 0 && T.Do(s.tm, T.KillStep(MAIN)).Next?;
    K.KillStepsOnce(s.tm, MAIN, n - 1, 0);
    var v := T.Do(s.tm, T.KillStep(MAIN)).s;
    var t := s.(tm := v, main := KillAll(KillIdx(v, MAIN, s.main.idx)));
    ReachesStep(s, Main, t);
    if MAIN in v.kills {
      MainKillsOn(t, n - 1, u);
      ReachesAll(s, t, true, s.(tm := u, main := KillAll(s.main.idx + 1)), true);
    }
  }

  /** A th_kill of handle 0 by one of the two, in the thread manager alone. */
  lemma KillOfWorker(s: State, r: nat, rec: T.Rec, t: nat) returns (b: T.State, n: nat)
    requires OneWorker(s, r, rec) && t !in s.tm.kills
    ensures T.Do(s.tm, T.KillBegin(t, 0)) == Next(b) && t in b.kills
    ensures Run(T.Do, b, K.KillSteps(t, n)) == Next(T.SetRec(s.tm, r, K.Finish(rec, T.Fetch)))
  {
    K.KillChecked(s.tm, t, 0);
    b := T.Do(s.tm, T.KillBegin(t, 0)).s;
    n := K.KillAlone(b, t);
  }

  /** The th_kill of handle 0 in main's th_kill_all, with nothing in between. */
  lemma KillFirst(s: State, r: nat, rec: T.Rec) returns (t: State)
    requires s.main == KillAll(0) && OneWorker(s, r, rec)
    ensures Reaches(s, t, true) && OneWorker(t, r, K.Finish(rec, T.Fetch))
    ensures t == s.(tm := T.SetRec(s.tm, r, K.Finish(rec, T.Fetch)), main := KillAll(1))
  {
    var b, n := KillOfWorker(s, r, rec, MAIN);
    var s1 := s.(tm := b);
    ReachesStep(s, Main, s1);
    var u := T.SetRec(s.tm, r, K.Finish(rec, T.Fetch));
    MainKillsOn(s1, n, u);
    t := s.(tm := u, main := KillAll(1));
    ReachesAll(s, s1, true, t, true);
  }

  /** A wake-up of main at any moment then kills the worker ... */
  lemma KillRound(s: State, r: nat, rec: T.Rec) returns (t: State)
    requires s.main.CondWait? && OneWorker(s, r, rec)
    ensures Reaches(s, t, true) && OneWorker(t, r, K.Finish(rec, T.Fetch))
    ensures t == s.(tm := T.SetRec(s.tm, r, K.Finish(rec, T.Fetch)), main := WaitAll(0, false))
  {
    var s1 := s.(main := KillAll(0));
    ReachesStep(s, Main, s1);
    var s2 := KillFirst(s1, r, rec);
    ReachesAll(s, s1, true, s2, true);
    var s3 := s2.(main := KillAll(T.MAX_THREADS));
    PassEmptySlots(s2);
    ReachesAll(s, s2, true, s3, true);
    t := s3.(main := WaitAll(0, false));
    ReachesOn(s, s3, true, Main, t);
  }

  /** ... whose thread then ends while main is in the join, and is shown by it ... */
  lemma JoinRound(s: State, r: nat) returns (t: State)
    requires s.main == WaitAll(0, false) && OneWorker(s, r, K.Finish(Inside(), T.Fetch))
    ensures Reaches(s, t, true) && t == s.(tm := t.tm, main := Reaping(0, false))
    ensures t.tm == s.tm.(recs := t.tm.recs, waits := map[0 := T.Wait(r, true, true)])
    ensures |t.tm.recs| == |s.tm.recs|
    ensures forall q :: 0 <= q < |t.tm.recs| ==> t.tm.recs[q].phase.Terminated?
  {
    var s1 := s.(tm := s.tm.(waits := map[0 := T.Wait(r, true, false)]), main := Joining(0, false));
    ReachesStep(s, Main, s1);
    var s2 := s1.(tm := T.Do(s1.tm, T.DeliverCancel(r)).s);
    ReachesOn(s, s1, true, Worker(T.DeliverCancel(r)), s2);
    t := s2.(tm := s2.tm.(waits := map[0 := T.Wait(r, true, true)]), main := Reaping(0, false));
    assert s2.tm.waits[0 := T.Wait(r, true, true)] == t.tm.waits;
    ReachesOn(s, s2, true, Main, t);
  }

  /** ... and main reaps it and leaves th_wait_all ... */
  lemma ReapRound(s: State, r: nat) returns (t: State)
    requires s.main == Reaping(0, false) && SlotsFrom(s.tm, true) && s.tm.waits == map[0 := T.Wait(r, true, true)]
    ensures Reaches(s, t, true)
    ensures t == s.(tm := s.tm.(slots := s.tm.slots[0 := None], waits := map[]), main := LoopTest(true))
  {
    var s1 := s.(tm := s.tm.(slots := s.tm.slots[0 := None], waits := map[]), main := WaitAll(1, true));
    assert s.tm.waits - {0} == map[];
    ReachesStep(s, Main, s1);
    var s2 := s1.(main := WaitAll(T.MAX_THREADS, true));
    PassEmptySlots(s1);
    ReachesAll(s, s1, true, s2, true);
    t := s2.(main := LoopTest(true));
    ReachesOn(s, s2, true, Main, t);
  }

  /** ... one whole turn of the restart loop, on an early wake-up. */
  lemma EndRound(s: State, r: nat) returns (t: State)
    requires s.main.CondWait? && OneWorker(s, r, Inside()) && s.tm.kills == map[]
    ensures Reaches(s, t, true) && t.main == LoopTest(true) && NoWorkers(t) && |t.tm.recs| == |s.tm.recs|
    ensures t == s.(tm := t.tm, main := t.main)
  {
    var s1 := KillRound(s, r, Inside());
    var s2 := JoinRound(s1, r);
    ReachesAll(s, s1, true, s2, true);
    t := ReapRound(s2, r);
    ReachesAll(s, s2, true, t, true);
  }

  lemma {:induction false} ManagerKillsOn(s: State, n: nat, u: T.State)
    requires s.mgr.Killing? && s.mgr.idx < T.MAX_THREADS && MANAGER in s.tm.kills
    requires Run(T.Do, s.tm, K.KillSteps(MANAGER, n)) == Next(u) && MANAGER !in u.kills
    ensures Reaches(s, s.(tm := u, mgr := Killing(s.mgr.idx + 1)), false)
    decreases n
  {
    assert n != 0 && T.Do(s.tm, T.KillStep(MANAGER)).Next?;
    K.KillStepsOnce(s.tm, MANAGER, n - 1, 0);
    var v := T.Do(s.tm, T.KillStep(MANAGER)).s;
    var t := s.(tm := v, mgr := Killing(KillIdx(v, MANAGER, s.mgr.idx)));
    ReachesStep(s, Manager, t);
    if MANAGER in v.kills {
      ManagerKillsOn(t, n - 1, u);
      ReachesAll(s, t, false, s.(tm := u, mgr := Killing(s.mgr.idx + 1)), false);
    }
  }

  lemma {:induction false} ManagerPasses(s: State)
    requires s.mgr.Killing? && 0 < s.mgr.idx <= T.MAX_THREADS && SlotsFrom(s.tm, true) && MANAGER !in s.tm.kills
    ensures Reaches(s, s.(mgr := Idle), false)
    decreases T.MAX_THREADS - s.mgr.idx
  {
    if s.mgr.idx == T.MAX_THREADS {
      ReachesStep(s, Manager, s.(mgr := Idle));
    } else {
      var t := s.(mgr := Killing(s.mgr.idx + 1));
      ReachesStep(s, Manager, t);
      ManagerPasses(t);
      ReachesAll(s, t, false, s.(mgr := Idle), false);
    }
  }

  /** What graceful_exit does on a SIGINT, left alone: the worker is cancelled, if it has not been and
      has not FINISHED, and the callback is over. */
  lemma GracefulExitKills(s: State, r: nat, rec: T.Rec)
    requires s.mgr.Idle? && OneWorker(s, r, rec) && MANAGER !in s.tm.kills
    ensures Reaches(s, s.(tm := T.SetRec(s.tm, r, K.Finish(rec, T.Fetch))), false)
  {
    var b, n := KillOfWorker(s, r, rec, MANAGER);
    var s1 := s.(mgr := Killing(0));
    ReachesStep(s, Terminate, s1);
    var s2 := s.(tm := b, mgr := Killing(0));
    ReachesOn(s, s1, false, Manager, s2);
    var u := T.SetRec(s.tm, r, K.Finish(rec, T.Fetch));
    ManagerKillsOn(s2, n, u);
    var s3 := s.(tm := u, mgr := Killing(1));
    ReachesAll(s, s2, false, s3, false);
    ManagerPasses(s3);
    ReachesAll(s, s3, false, s.(tm := u), false);
  }

  /** graceful_exit has made its check of slot 0. */
  lemma CheckRound(s: State) returns (t: State)
    requires s.main.CondWait? && s.mgr.Idle? && OneWorker(s, 0, Inside()) && s.tm.kills == map[]
    ensures Reaches(s, t, false) && OneWorker(t, 0, Inside())
    ensures t == s.(tm := s.tm.(kills := map[MANAGER := T.Kill(0, 0, T.Fetch)]), mgr := Killing(0))
  {
    var b := s.(mgr := Killing(0));
    ReachesStep(s, Terminate, b);
    t := b.(tm := b.tm.(kills := map[MANAGER := T.Kill(0, 0, T.Fetch)]));
    ReachesOn(s, b, true, Manager, t);
  }

  lemma OvertakenAtFetch(s: State)
    requires s.mgr == Killing(0) && s.tm.kills == map[MANAGER := T.Kill(0, 0, T.Fetch)]
    requires T.RecordAt(s.tm, 0).None?
    ensures Do(s, Manager).Fault?
  {
  }

  lemma ReapUnderKill(s: State) returns (t: State)
    requires s.main.CondWait? && s.mgr == Killing(0) && OneWorker(s, 0, Inside())
    requires s.tm.kills == map[MANAGER := T.Kill(0, 0, T.Fetch)]
    ensures Reaches(s, t, true) && t.mgr == Killing(0) && t.main.WaitAll? && Do(t, Manager).Fault?
  {
    var d := KillRound(s, 0, Inside());
    var e := JoinRound(d, 0);
    ReachesAll(s, d, true, e, true);
    t := e.(tm := e.tm.(slots := e.tm.slots[0 := None], waits := map[]), main := WaitAll(1, true));
    assert e.tm.waits - {0} == map[];
    ReachesOn(s, e, true, Main, t);
    OvertakenAtFetch(t);
  }

  lemma InitNoWorkers()
    ensures NoWorkers(Init())
  {
  }

  /** A SIGINT at an unlucky moment: graceful_exit has checked slot 0 when main, woken for another
      reason, kills and reaps the worker; the callback then looks through the empty slot. */
  lemma GracefulExitCanFault() returns (t: State)
    ensures Reaches(Init(), t, false) && t.mgr == Killing(0) && t.main.WaitAll? && Do(t, Manager).Fault?
  {
    InitNoWorkers();
    var a := BeginRound(Init());
    var c := CheckRound(a);
    ReachesAll(Init(), a, true, c, false);
    t := ReapUnderKill(c);
    ReachesAll(Init(), c, false, t, true);
  }

  /** A worker past the check of its last show_thread. */
  function Shown(): T.Rec {
    T.Rec(0, T.Finished, T.Showing(T.SHOW_LOOKS), false, None)
  }

  /** Main skips the join of the FINISHED worker and shows it ... */
  lemma SkipJoin(d: State) returns (f: State)
    requires d.main == WaitAll(0, false) && OneWorker(d, 0, Shown())
    ensures Reaches(d, f, true)
    ensures f == d.(tm := d.tm.(waits := map[0 := T.Wait(0, false, true)]), main := Reaping(0, false))
  {
    var e := d.(tm := d.tm.(waits := map[0 := T.Wait(0, false, false)]), main := Joining(0, false));
    ReachesStep(d, Main, e);
    f := e.(tm := e.tm.(waits := map[0 := T.Wait(0, false, true)]), main := Reaping(0, false));
    assert e.tm.waits[0 := T.Wait(0, false, true)] == f.tm.waits;
    ReachesOn(d, e, true, Main, f);
  }

  /** ... and reaps it. */
  lemma ReapUnderShow(s: State) returns (t: State)
    requires s.main.CondWait? && OneWorker(s, 0, Shown())
    ensures Reaches(s, t, true) && t.mgr == s.mgr && t.main.WaitAll? && Do(t, Worker(T.Look(0))).Fault?
  {
    var d := KillRound(s, 0, Shown());
    assert K.Finish(Shown(), T.Fetch) == Shown();
    var f := SkipJoin(d);
    ReachesAll(s, d, true, f, true);
    t := f.(tm := T.Do(f.tm, T.WaitEnd(0)).s, main := WaitAll(1, true));
    ReachesOn(s, f, true, Main, t);
  }

  lemma ShowRound(s: State) returns (t: State)
    requires s.main.CondWait? && OneWorker(s, 0, Inside())
    ensures Reaches(s, t, false) && t == s.(tm := t.tm)
    ensures OneWorker(t, 0, Shown())
  {
    var exiting := T.Rec(0, T.Running, T.Exiting, false, None);
    assert s.tm.recs[0 := exiting][0 := exiting.(state := T.Finished)] == s.tm.recs[0 := exiting.(state := T.Finished)];
    var b := s.(tm := T.SetRec(s.tm, 0, T.Rec(0, T.Finished, T.Exiting, false, None)));
    ReachesStep(s, Worker(T.Exit(0)), b);
    t := b.(tm := T.SetRec(b.tm, 0, Shown()));
    ReachesOn(s, b, false, Worker(T.Look(0)), t);
  }

  /** No signal is needed: a worker that has installed everything is in its last show_thread, past
      the check, when main reaps it as FINISHED. */
  lemma LastShowCanFault() returns (t: State)
    ensures Reaches(Init(), t, false) && t.mgr.Idle? && t.main.WaitAll? && Do(t, Worker(T.Look(0))).Fault?
  {
    InitNoWorkers();
    var a := BeginRound(Init());
    var c := ShowRound(a);
    ReachesAll(Init(), a, true, c, false);
    t := ReapUnderShow(c);
    ReachesAll(Init(), c, false, t, true);
  }

  /** A hangup does not make main wait for the clear: if main wakes for another reason, the restarted
      worker (a second record) can be inside thread_entry_point while the memset is under way. */
  lemma RestartCanPrecedeClear() returns (t: State)
    ensures Reaches(Init(), t, true) && t.mgr.Clearing? && t.main.CondWait? && !t.reinstall && t.tm.kills == map[]
    ensures 2 <= |t.tm.recs| && OneWorker(t, |t.tm.recs| - 1, Inside())
  {
    InitNoWorkers();
    var a := BeginRound(Init());
    ReachesOn(Init(), a, true, Hangup, a.(mgr := Called));
    var b := a.(reinstall := true, mgr := Clearing);
    ReachesOn(Init(), a.(mgr := Called), true, CallBack, b);
    var c := EndRound(b, 0);
    ReachesAll(Init(), b, true, c, true);
    var d := c.(main := Top);
    ReachesOn(Init(), c, true, Main, d);
    t := BeginRound(d);
    ReachesAll(Init(), d, true, t, true);
  }

  /** If main then wakes once more it leaves the loop without a complete replay, and the memset can
      come to store to the segment that destroy_shm has detached. */
  lemma ClearCanOutliveDestroy() returns (t: State)
    ensures Reaches(Init(), t, true) && t.mgr.Clearing? && t.main.Done? && Do(t, Manager).Fault? && Do(t, Zero).Fault?
  {
    var s := RestartCanPrecedeClear();
    var e := EndRound(s, |s.tm.recs| - 1);
    ReachesAll(Init(), s, true, e, true);
    var f := e.(main := Uninstalling);
    ReachesOn(Init(), e, true, Main, f);
    var g := f.(hangup := false, main := Destroying);
    ReachesOn(Init(), f, true, Main, g);
    t := g.(attached := false, main := Done);
    ReachesOn(Init(), g, true, Main, t);
  }
}
