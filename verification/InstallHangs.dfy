/**
 When main of src/bin/install_data/install_data.c can come out of a round of its loop. Its th_kill_all
 and th_wait_all take the lock of the worker's record; a worker cancelled inside its last show_thread
 takes that lock with it.
 */
module InstallHangs {
  import opened Options
  import opened Runs
  import opened InstallData
  import K = KillModel
  import KR = KillRaces
  import L = KillLocks
  import R = InstallRaces
  import T = ThreadModel

  // -------------------------------------------------------------- invariant

  /** The thread has been asked to cancel, or has FINISHED: a join of it, if there is one, will end. */
  predicate AskedOrFinished(rec: T.Rec) {
    rec.cancelAsked || rec.state.Finished?
  }

  /** Main has the worker of slot 0 before it. */
  predicate InRound(main: MainPc) {
    match main
    case CondWait => true
    case KillAll(_) => true
    case WaitAll(i, _) => i == 0
    case Joining(_, _) => true
    case Reaping(_, _) => true
    case _ => false
  }

  predicate PastMark(pc: T.KillPc) {
    pc.ShowCheck? || pc.Show? || pc.Release?
  }

  /** Main's th_kill of handle 0 is over, or past its tests and its write. */
  predicate HasKilled(s: State) {
    match s.main
    case KillAll(i) => 0 < i || (MAIN in s.tm.kills && PastMark(s.tm.kills[MAIN].pc))
    case WaitAll(_, _) => true
    case Joining(_, _) => true
    case Reaping(_, _) => true
    case _ => false
  }

  /** What main's th_wait knows of its worker. */
  predicate WaitOk(s: State, r: nat)
    requires r < |s.tm.recs|
  {
    (s.main.Joining? || s.main.Reaping?) && 0 in s.tm.waits ==>
      && s.tm.waits[0].rid == r && s.tm.waits[0].shown == s.main.Reaping?
      && (s.tm.waits[0].joins ==> s.tm.recs[r].cancelAsked)
  }

  predicate RoundOk(s: State) {
    && (MAIN in s.tm.kills && s.main.KillAll? ==>
          var k := s.tm.kills[MAIN];
          k.h == s.main.idx && (k.pc.Acquire? ==> T.RecordAt(s.tm, k.h) == Some(k.rid)))
    && (InRound(s.main) && T.RecordAt(s.tm, 0).Some? ==>
          var r := T.RecordAt(s.tm, 0).value;
          (HasKilled(s) ==> AskedOrFinished(s.tm.recs[r])) && WaitOk(s, r))
  }

  /** What every run keeps in which main makes no hazard step. */
  predicate Good(s: State) {
    R.Steady(s) && L.HoldersHold(s.tm) && L.CancelledAsked(s.tm) && RoundOk(s)
  }

  lemma InitGood()
    ensures Good(Init())
  {
    R.InitSteady();
  }

  /** The library's part of that. */
  lemma LibraryKeepsGood(s: State, step: Step)
    requires Good(s) && !R.Hazard(s, step) && Do(s, step).Next?
    ensures L.HoldersHold(Do(s, step).s.tm) && L.CancelledAsked(Do(s, step).s.tm)
  {
    RefinesThreadManager(s, step);
    var lib := LibraryStep(s, step);
    if lib.Some? {
      assert !KR.Cuts(s.tm, lib.value);
      if KR.Overtakes(s.tm, lib.value) {
        KR.OvertakingIsCutting(s.tm, lib.value);
      }
      L.StepKeepsHolders(s.tm, lib.value);
      L.StepKeepsAsked(s.tm, lib.value);
    }
  }

  /** A record asked or FINISHED stays so. */
  lemma StaysAsked(tm: T.State, step: T.Step, r: nat)
    requires KR.Settled(tm) && T.Do(tm, step).Next? && r < |tm.recs|
    ensures r < |T.Do(tm, step).s.recs|
    ensures AskedOrFinished(tm.recs[r]) ==> AskedOrFinished(T.Do(tm, step).s.recs[r])
    ensures tm.recs[r].cancelAsked ==> T.Do(tm, step).s.recs[r].cancelAsked
  {
    L.AskedByKill(tm, step, r);
    KR.StepMoves(tm, step, r);
  }

  /** A th_kill comes past its write only when its record is asked or FINISHED. */
  lemma KillAsks(tm: T.State, t: nat)
    requires KR.Steady(tm) && L.HoldersHold(tm) && L.CancelledAsked(tm)
    requires t in tm.kills && !PastMark(tm.kills[t].pc) && T.Do(tm, T.KillStep(t)).Next?
    ensures var u := T.Do(tm, T.KillStep(t)).s;
            && t in u.kills && u.kills[t].h == tm.kills[t].h
            && (PastMark(u.kills[t].pc) ==>
                  var q := T.RecordAt(tm, tm.kills[t].h);
                  q.Some? && q.value < |u.recs| && AskedOrFinished(u.recs[q.value]))
  {
    assert KR.Stuck(tm, t) || KR.SlotHeld(tm, t);
    assert KR.DecideOk(tm, t);
  }

  /** What a library step of a worker or of the manager leaves main. */
  lemma OthersLeave(s: State, step: Step)
    requires Good(s) && Do(s, step).Next? && (step.Worker? || (step.Manager? && LibraryStep(s, step).Some?))
    ensures var u := Do(s, step).s;
            && u.main == s.main && u.tm.slots == s.tm.slots && u.tm.waits == s.tm.waits
            && (MAIN in u.tm.kills <==> MAIN in s.tm.kills)
            && (MAIN in s.tm.kills ==> u.tm.kills[MAIN] == s.tm.kills[MAIN])
  {
    RefinesThreadManager(s, step);
    var lib := LibraryStep(s, step).value;
    if step.Worker? {
      WorkersKeepTable(s.tm, lib);
    } else {
      KillsKeepTable(s.tm, lib);
    }
    if MAIN in s.tm.kills {
      KR.OtherCallStays(s.tm, lib, MAIN);
    }
  }

  lemma LibraryKeepsRound(s: State, step: Step)
    requires Good(s) && Do(s, step).Next? && (step.Worker? || (step.Manager? && LibraryStep(s, step).Some?))
    ensures RoundOk(Do(s, step).s)
  {
    OthersLeave(s, step);
    RefinesThreadManager(s, step);
    var lib := LibraryStep(s, step).value;
    if T.RecordAt(s.tm, 0).Some? {
      StaysAsked(s.tm, lib, T.RecordAt(s.tm, 0).value);
    }
    if MAIN in s.tm.kills && T.RecordAt(s.tm, s.tm.kills[MAIN].h).Some? {
      T.StepKeepsSlot(s.tm, lib, s.tm.kills[MAIN].h);
    }
  }

  lemma OthersKeepRound(s: State, step: Step)
    requires Good(s) && Do(s, step).Next? && !step.Main?
    ensures RoundOk(Do(s, step).s)
  {
    if step.Worker? || (step.Manager? && LibraryStep(s, step).Some?) {
      LibraryKeepsRound(s, step);
    }
  }

  lemma MainKillAsks(s: State, r: nat)
    requires Good(s) && s.main.KillAll? && s.main.idx < T.MAX_THREADS && MAIN in s.tm.kills && DoMain(s).Next?
    requires T.RecordAt(s.tm, 0) == Some(r)
    ensures r < |DoMain(s).s.tm.recs|
    ensures HasKilled(DoMain(s).s) ==> AskedOrFinished(DoMain(s).s.tm.recs[r])
  {
    StaysAsked(s.tm, T.KillStep(MAIN), r);
    if !PastMark(s.tm.kills[MAIN].pc) {
      KillAsks(s.tm, MAIN);
    }
  }

  lemma MainKillKeepsHandle(s: State)
    requires Good(s) && s.main.KillAll? && s.main.idx < T.MAX_THREADS && MAIN in s.tm.kills && DoMain(s).Next?
    ensures var u := DoMain(s).s;
            && u.main.KillAll? && T.RecordAt(u.tm, 0) == T.RecordAt(s.tm, 0)
            && (MAIN in u.tm.kills ==>
                  var k := u.tm.kills[MAIN];
                  k.h == u.main.idx && (k.pc.Acquire? ==> T.RecordAt(u.tm, k.h) == Some(k.rid)))
  {
    T.KillStepShape(s.tm, MAIN);
  }

  lemma MainKillStepKeepsRound(s: State)
    requires Good(s) && s.main.KillAll? && s.main.idx < T.MAX_THREADS && MAIN in s.tm.kills && DoMain(s).Next?
    ensures RoundOk(DoMain(s).s)
  {
    MainKillKeepsHandle(s);
    if T.RecordAt(s.tm, 0).Some? {
      MainKillAsks(s, T.RecordAt(s.tm, 0).value);
    }
  }

  lemma MainKillBeginKeepsRound(s: State)
    requires Good(s) && s.main.KillAll? && MAIN !in s.tm.kills && DoMain(s).Next?
    ensures RoundOk(DoMain(s).s)
  {
  }

  lemma MainWaitKeepsRound(s: State)
    requires Good(s) && (s.main.WaitAll? || s.main.Joining?) && DoMain(s).Next?
    ensures RoundOk(DoMain(s).s)
  {
  }

  lemma MainKeepsRound(s: State)
    requires Good(s) && DoMain(s).Next?
    ensures RoundOk(DoMain(s).s)
  {
    match s.main
    case KillAll(i) =>
      if MAIN in s.tm.kills {
        MainKillStepKeepsRound(s);
      } else {
        MainKillBeginKeepsRound(s);
      }
    case WaitAll(_, _) => MainWaitKeepsRound(s);
    case Joining(_, _) => MainWaitKeepsRound(s);
    case _ =>
  }

  lemma StepKeepsGood(s: State, step: Step)
    requires Good(s) && !R.Hazard(s, step) && Do(s, step).Next?
    ensures Good(Do(s, step).s)
  {
    R.StepKeepsSteady(s, step);
    LibraryKeepsGood(s, step);
    if step.Main? {
      MainKeepsRound(s);
    } else {
      OthersKeepRound(s, step);
    }
  }

  lemma {:induction false} RunKeepsGood(s: State, steps: seq<Step>)
    requires Good(s) && NeverCuts(R.Racing(), s, steps) && Run(Do, s, steps).Next?
    ensures Good(Run(Do, s, steps).s)
    decreases |steps|
  {
    if steps != [] {
      StepKeepsGood(s, steps[0]);
      RunKeepsGood(Do(s, steps[0]).s, steps[1..]);
    }
  }

  /** Over every run in which main makes no hazard step: when main joins its worker, that thread has
      been asked to cancel, and when it goes to wait for it, it has been or it has FINISHED. */
  lemma JoinedIsAsked(steps: seq<Step>, r: nat)
    requires NeverCuts(R.Racing(), Init(), steps) && Run(Do, Init(), steps).Next?
    requires T.RecordAt(Run(Do, Init(), steps).s.tm, 0) == Some(r)
    ensures var s := Run(Do, Init(), steps).s;
            && (s.main.WaitAll? || s.main.Joining? || s.main.Reaping? ==>
                  s.tm.recs[r].cancelAsked || s.tm.recs[r].state.Finished?)
            && (s.main.Joining? && 0 in s.tm.waits && s.tm.waits[0].joins ==> s.tm.recs[r].cancelAsked)
  {
    InitGood();
    RunKeepsGood(Init(), steps);
  }

  // ------------------------------------------------------------- the hang

  predicate DeadOwner(tm: T.State, lock: Option<T.Owner>) {
    match lock
    case Some(Shower(x)) => x < |tm.recs| && tm.recs[x].phase.Terminated?
    case _ => false
  }

  /** The lock of the worker's record belongs to a worker that was cancelled inside its last
      show_thread. */
  predicate DeadLock(tm: T.State) {
    match T.RecordAt(tm, 0)
    case Some(r) => DeadOwner(tm, tm.recs[r].lock)
    case None => false
  }

  /** Main has yet to show the record. */
  predicate BeforeShow(main: MainPc) {
    InRound(main) && !main.Reaping?
  }

  predicate Hangs(s: State) {
    BeforeShow(s.main) && DeadLock(s.tm)
  }

  /** The lock of a dead worker stays, and nobody reads or shows the record. */
  lemma DeadLockStays(tm: T.State, step: T.Step)
    requires T.Inv(tm) && DeadLock(tm) && T.Do(tm, step).Next? && step != T.WaitEnd(0)
    ensures DeadLock(T.Do(tm, step).s) && step != T.WaitBegin(0)
    ensures step == T.WaitShow(0) ==> 0 in tm.waits && tm.waits[0].rid != T.RecordAt(tm, 0).value
  {
    var r := T.RecordAt(tm, 0).value;
    var x := tm.recs[r].lock.value.rid;
    T.StepKeepsSlot(tm, step, 0);
    T.FinishedByExit(tm, step, x);
    L.LockStays(tm, step, r, T.Shower(x));
  }

  lemma StepKeepsHang(s: State, step: Step)
    requires Inv(s) && Hangs(s) && Do(s, step).Next?
    ensures Inv(Do(s, step).s) && Hangs(Do(s, step).s)
  {
    StepKeepsInv(s, step);
    RefinesThreadManager(s, step);
    if LibraryStep(s, step).Some? {
      DeadLockStays(s.tm, LibraryStep(s, step).value);
    }
    assert DeadLock(Do(s, step).s.tm);
  }

  lemma {:induction false} RunKeepsHang(s: State, steps: seq<Step>)
    requires Inv(s) && Hangs(s) && Run(Do, s, steps).Next?
    ensures Hangs(Run(Do, s, steps).s)
    decreases |steps|
  {
    if steps != [] {
      StepKeepsHang(s, steps[0]);
      RunKeepsHang(Do(s, steps[0]).s, steps[1..]);
    }
  }

  // ------------------------------------------------- and out of the round

  /** How far main, its th_kill, the owner of the record's lock, and the worker still have to go. */
  function MainLeft(main: MainPc): nat {
    match main
    case CondWait => 60
    case KillAll(i) => if i <= T.MAX_THREADS then 4 + (T.MAX_THREADS - i) else 4
    case WaitAll(_, _) => 3
    case Joining(_, _) => 2
    case _ => 1
  }

  function KillLeft(tm: T.State): nat {
    if MAIN in tm.kills then K.Left(tm.kills[MAIN].pc) else 100
  }

  function OwnerLeft(tm: T.State, lock: Option<T.Owner>): nat {
    match lock
    case Some(Killer(t)) => if t in tm.kills then K.Left(tm.kills[t].pc) + 1 else 0
    case Some(Shower(x)) => if x < |tm.recs| && tm.recs[x].phase.Showing? then tm.recs[x].phase.left else 0
    case None => 0
  }

  function PhaseLeft(phase: T.Phase): nat {
    if phase.Created? then 2 else if phase.Terminated? then 0 else 1
  }

  /** In `u` less is left than in `s`, in this order. */
  predicate LessLeft(s: State, u: State, r: nat)
    requires r < |s.tm.recs| && r < |u.tm.recs|
  {
    || MainLeft(u.main) < MainLeft(s.main)
    || (MainLeft(u.main) == MainLeft(s.main) &&
        (|| KillLeft(u.tm) < KillLeft(s.tm)
         || (KillLeft(u.tm) == KillLeft(s.tm) &&
             (|| OwnerLeft(u.tm, u.tm.recs[r].lock) < OwnerLeft(s.tm, s.tm.recs[r].lock)
              || (OwnerLeft(u.tm, u.tm.recs[r].lock) == OwnerLeft(s.tm, s.tm.recs[r].lock) &&
                  PhaseLeft(u.tm.recs[r].phase) < PhaseLeft(s.tm.recs[r].phase))))))
  }

  /** The worker `r` of the round has not been shown by main's wait, and main does not hang. */
  predicate Waiting(s: State, r: nat) {
    Good(s) && T.RecordAt(s.tm, 0) == Some(r) && BeforeShow(s.main) && !Hangs(s)
  }

  /** The step brings main closer to its cleanup. */
  predicate Advances(s: State, step: Step, r: nat)
    requires Waiting(s, r)
  {
    Do(s, step).Next? &&
    var u := Do(s, step).s;
    T.RecordAt(u.tm, 0) == Some(r) && LessLeft(s, u, r) && InRound(u.main) && !Hangs(u)
  }

  lemma AdvancesKeeps(s: State, step: Step, r: nat)
    requires Waiting(s, r) && Advances(s, step, r)
    ensures var u := Do(s, step).s; Good(u) && (u.main.Reaping? || Waiting(u, r))
  {
    StepKeepsGood(s, step);
  }

  /** A th_kill that has the lock of the record, or finds it free, goes on. */
  lemma KillMayGoOn(s: State, r: nat, t: nat)
    requires Waiting(s, r) && t in s.tm.kills
    requires s.tm.recs[r].lock == Some(T.Killer(t)) || (s.tm.recs[r].lock.None? && t == MAIN)
    ensures K.MayGoOn(s.tm, t) && s.tm.kills[t].h == 0 && T.RecordAt(s.tm, s.tm.kills[t].h) == Some(r)
    ensures t == MAIN || t == MANAGER
  {
    assert KR.LockOk(s.tm, r) && KR.DecideOk(s.tm, t);
    assert KR.Stuck(s.tm, t) || KR.SlotHeld(s.tm, t);
    if K.Holding(s.tm.kills[t].pc) {
      assert L.KillHolds(s.tm, t);
    }
  }

  lemma MainKillAdvances(s: State, r: nat)
    requires Waiting(s, r) && MAIN in s.tm.kills
    requires s.tm.recs[r].lock == Some(T.Killer(MAIN)) || s.tm.recs[r].lock.None?
    ensures Advances(s, Main, r)
  {
    KillMayGoOn(s, r, MAIN);
    K.KillGoesOn(s.tm, MAIN);
    if MAIN in T.Do(s.tm, T.KillStep(MAIN)).s.kills {
      assert K.MayGoOn(T.Do(s.tm, T.KillStep(MAIN)).s, MAIN);
    }
  }

  lemma ManagerKillAdvances(s: State, r: nat)
    requires Waiting(s, r) && s.tm.recs[r].lock == Some(T.Killer(MANAGER))
    ensures Advances(s, Manager, r)
  {
    assert KR.LockOk(s.tm, r);
    KillMayGoOn(s, r, MANAGER);
    K.KillGoesOn(s.tm, MANAGER);
    var step := T.KillStep(MANAGER);
    if MANAGER in T.Do(s.tm, step).s.kills {
      assert K.MayGoOn(T.Do(s.tm, step).s, MANAGER);
      assert !KR.Cuts(s.tm, step);
      L.StepKeepsHolders(s.tm, step);
    }
  }

  lemma ShowAdvances(s: State, r: nat, x: nat)
    requires Waiting(s, r) && s.tm.recs[r].lock == Some(T.Shower(x))
    ensures Advances(s, Worker(T.Look(x)), r)
  {
    assert KR.LockOk(s.tm, r);
    assert KR.HoldsShow(s.tm.recs[x]) && s.tm.recs[x].handle == 0;
    T.LookShape(s.tm, x);
  }

  /** With the lock free, main goes on in its th_kill_all ... */
  lemma MainKillsOn(s: State, r: nat)
    requires Waiting(s, r) && s.tm.recs[r].lock.None? && MAIN !in s.tm.kills && (s.main.CondWait? || s.main.KillAll?)
    ensures Advances(s, Main, r)
  {
  }

  /** ... and in its th_wait ... */
  lemma MainWaitsOn(s: State, r: nat)
    requires Waiting(s, r) && s.tm.recs[r].lock.None? && (s.main.WaitAll? || s.main.Joining?)
    requires s.main.Joining? && s.tm.waits[0].joins ==> s.tm.recs[r].phase.Terminated?
    ensures Advances(s, Main, r)
  {
  }

  /** ... or, while it joins, the worker comes to its cancellation. */
  lemma WorkerAdvances(s: State, r: nat) returns (step: Step)
    requires Waiting(s, r) && s.tm.recs[r].lock.None?
    requires s.main.Joining? && s.tm.waits[0].joins && !s.tm.recs[r].phase.Terminated?
    ensures Advances(s, step, r)
  {
    step := Worker(if s.tm.recs[r].phase.Created? then T.Start(r) else T.DeliverCancel(r));
  }

  lemma SomeStepAdvances(s: State, r: nat) returns (step: Step)
    requires Waiting(s, r)
    ensures Advances(s, step, r)
  {
    assert KR.LockOk(s.tm, r);
    match s.tm.recs[r].lock
    case Some(Killer(t)) =>
      KillMayGoOn(s, r, t);
      if t == MAIN {
        MainKillAdvances(s, r);
        step := Main;
      } else {
        ManagerKillAdvances(s, r);
        step := Manager;
      }
    case Some(Shower(x)) =>
      ShowAdvances(s, r, x);
      step := Worker(T.Look(x));
    case None =>
      if MAIN in s.tm.kills {
        MainKillAdvances(s, r);
        step := Main;
      } else if s.main.Joining? && s.tm.waits[0].joins && !s.tm.recs[r].phase.Terminated? {
        step := WorkerAdvances(s, r);
      } else {
        if s.main.CondWait? || s.main.KillAll? {
          MainKillsOn(s, r);
        } else {
          MainWaitsOn(s, r);
        }
        step := Main;
      }
  }

  lemma {:induction false} ComesToReap(s: State, r: nat) returns (steps: seq<Step>)
    requires Waiting(s, r)
    ensures Run(Do, s, steps).Next? && Good(Run(Do, s, steps).s) && Run(Do, s, steps).s.main.Reaping?
    decreases MainLeft(s.main), KillLeft(s.tm), OwnerLeft(s.tm, s.tm.recs[r].lock), PhaseLeft(s.tm.recs[r].phase)
  {
    var step := SomeStepAdvances(s, r);
    AdvancesKeeps(s, step, r);
    var u := Do(s, step).s;
    steps := [];
    if !u.main.Reaping? {
      steps := ComesToReap(u, r);
    }
    RunCons(Do, s, step, steps);
    steps := [step] + steps;
  }

  lemma ReapsOut(s: State) returns (steps: seq<Step>)
    requires Good(s) && s.main.Reaping?
    ensures Run(Do, s, steps).Next? && Run(Do, s, steps).s.main.LoopTest?
  {
    var u := Do(s, Main).s;
    R.ReachesStep(s, Main, u);
    var v := u.(main := WaitAll(T.MAX_THREADS, true));
    R.PassEmptySlots(u);
    R.ReachesAll(s, u, true, v, true);
    var w := v.(main := LoopTest(true));
    R.ReachesOn(s, v, true, Main, w);
    steps :| Run(Do, s, steps) == Next(w);
  }

  lemma CanComeOut(s: State) returns (steps: seq<Step>)
    requires Good(s) && InRound(s.main) && !Hangs(s)
    ensures Run(Do, s, steps).Next? && Run(Do, s, steps).s.main.LoopTest?
  {
    if s.main.Reaping? {
      steps := ReapsOut(s);
    } else {
      var toReap := ComesToReap(s, T.RecordAt(s.tm, 0).value);
      var rest := ReapsOut(Run(Do, s, toReap).s);
      RunAppend(Do, s, toReap, rest);
      steps := toReap + rest;
    }
  }

  /** Some run from `s` brings main to the test of its loop. */
  ghost predicate CanEndRound(s: State) {
    exists steps :: Run(Do, s, steps).Next? && Run(Do, s, steps).s.main.LoopTest?
  }

  /** When main can come out of a round: after any run in which it makes no hazard step, once it has
      started its worker, some continuation brings it past th_kill_all and th_wait_all if and only if
      the lock of the worker's record does not belong to a worker cancelled inside its last
      show_thread, or the wait is past its own show; otherwise none does, ever. */
  lemma RoundEndsIff(steps: seq<Step>)
    requires NeverCuts(R.Racing(), Init(), steps) && Run(Do, Init(), steps).Next?
    requires InRound(Run(Do, Init(), steps).s.main)
    ensures var s := Run(Do, Init(), steps).s;
            && (CanEndRound(s) <==> !Hangs(s))
            && (Hangs(s) ==> forall more :: Run(Do, s, more).Next? ==> Hangs(Run(Do, s, more).s))
  {
    InitGood();
    RunKeepsGood(Init(), steps);
    var s := Run(Do, Init(), steps).s;
    if Hangs(s) {
      forall more | Run(Do, s, more).Next? ensures Hangs(Run(Do, s, more).s) {
        RunKeepsHang(s, more);
      }
    } else {
      var more := CanComeOut(s);
    }
  }

  // ------------------------------------------------------ a run that hangs

  /** A worker killed in its function leaves it all the same ... */
  lemma ExitsKilled(s: State) returns (t: State)
    requires R.OneWorker(s, 0, T.Rec(0, T.Cancelled, T.InBody, true, None))
    ensures R.Reaches(s, t, false) && t == s.(tm := T.SetRec(s.tm, 0, T.Rec(0, T.Finished, T.Exiting, true, None)))
  {
    var exiting := s.tm.recs[0].(phase := T.Exiting);
    assert s.tm.recs[0 := exiting][0 := exiting.(state := T.Finished)] == s.tm.recs[0 := exiting.(state := T.Finished)];
    t := s.(tm := T.SetRec(s.tm, 0, T.Rec(0, T.Finished, T.Exiting, true, None)));
    R.ReachesStep(s, Worker(T.Exit(0)), t);
  }

  /** ... and is cancelled by the log write of its show_thread, with the record's lock. */
  lemma DiesShowing(s: State) returns (t: State)
    requires R.OneWorker(s, 0, T.Rec(0, T.Finished, T.Exiting, true, None))
    ensures R.Reaches(s, t, false)
    ensures t == s.(tm := T.SetRec(s.tm, 0, T.Rec(0, T.Finished, T.Terminated, true, Some(T.Shower(0)))))
  {
    var left := T.SHOW_LOOKS;
    var a := s.(tm := T.SetRec(s.tm, 0, T.Rec(0, T.Finished, T.Showing(left), true, None)));
    R.ReachesStep(s, Worker(T.Look(0)), a);
    var looked := T.Rec(0, T.Finished, T.Showing(left - 1), true, None);
    var b := s.(tm := T.SetRec(s.tm, 0, looked.(lock := Some(T.Shower(0)))));
    assert a.tm.recs[0 := looked][0 := b.tm.recs[0]] == b.tm.recs;
    R.ReachesOn(s, a, false, Worker(T.Look(0)), b);
    t := s.(tm := T.SetRec(s.tm, 0, T.Rec(0, T.Finished, T.Terminated, true, Some(T.Shower(0)))));
    assert b.tm.recs[0 := t.tm.recs[0]] == t.tm.recs;
    R.ReachesOn(s, b, false, Worker(T.DeliverCancel(0)), t);
  }

  /** No signal is needed: a worker that has installed everything wakes main, whose th_kill_all finds
      it still RUNNING; it exits, and dies in its last show_thread. Main waits for its lock for ever. */
  lemma NormalEndCanHang() returns (t: State)
    ensures R.Reaches(Init(), t, false) && t.mgr.Idle? && Hangs(t) && T.RecordAt(t.tm, 0) == Some(0)
    ensures t.tm.recs[0].state.Finished? && t.tm.recs[0].phase.Terminated?
  {
    R.InitNoWorkers();
    var a := R.BeginRound(Init());
    var b := a.(main := KillAll(0));
    R.ReachesOn(Init(), a, true, Main, b);
    var c := R.KillFirst(b, 0, R.Inside());
    R.ReachesAll(Init(), b, true, c, true);
    var d := ExitsKilled(c);
    R.ReachesAll(Init(), c, true, d, false);
    t := DiesShowing(d);
    R.ReachesAll(Init(), d, false, t, false);
  }
}
