/**
 The whole of src/bin/install_data/install_data.c as a transition system over the thread manager's:
 the restart loop of main, the manager thread running signal callbacks, and the workers. Each step
 of main or of a callback is one library step; signals arrive at any time, and the condition wait
 of main returns at any time, as it has no predicate.
 */
module InstallData {
  import opened Options
  import opened Runs
  import T = ThreadModel

  /** The threads that call th_kill, by the names they have in `kills`. */
  const MAIN: nat := 0
  const MANAGER: nat := 1

  datatype MainPc =
    | Top
    | Searching
    | Publishing
    | CondWait
    | KillAll(idx: nat)
    | WaitAll(idx: nat, ok: bool)
    | Joining(idx: nat, ok: bool)
    | Reaping(idx: nat, ok: bool)
    | LoopTest(ok: bool)
    | Uninstalling
    | Destroying
    | Done
    | Failed

  /** Called: clear_and_restart has been looked up for a SIGHUP and has not begun. Clearing: its
      memset has words left to store. */
  datatype ManagerPc = Idle | Killing(idx: nat) | Called | Clearing

  /** `attached`: destroy_shm has not been called yet. */
  datatype State = State(tm: T.State, main: MainPc, mgr: ManagerPc, reinstall: bool, hangup: bool, attached: bool)

  datatype Step =
    | Main                  // main goes on
    | Terminate             // SIGINT or SIGQUIT: graceful_exit begins
    | Hangup                // SIGHUP: clear_and_restart is looked up
    | CallBack              // clear_and_restart begins
    | Manager               // the running callback goes on; of a memset, the last store
    | Zero                  // a store of the memset that is not its last
    | Worker(step: T.Step)  // a worker goes on in the library
    | Touch(rid: nat)       // a worker inside thread_entry_point accesses the segment

  /** A library step by some thread, after which that thread is where `k` says. */
  function Library(s: State, step: T.Step, k: T.State -> State): Outcome<State> {
    match T.Do(s.tm, step)
    case Next(tm) => Next(k(tm))
    case Blocked => Blocked
    case Fault => Fault
  }

  /** The next step of a th_kill_all by thread `t` that has come to handle `i`. */
  function KillStep(s: State, t: nat, i: nat): T.Step {
    if t in s.tm.kills then T.KillStep(t) else T.KillBegin(t, i)
  }

  /** The handle it comes to with that: the next one when the call has returned. */
  function KillIdx(tm: T.State, t: nat, i: nat): nat {
    if t in tm.kills then i else i + 1
  }

  function DoMain(s: State): Outcome<State> {
    match s.main
    case Top => Next(s.(reinstall := false, main := Searching))
    case Searching =>
      Library(s, T.Scan, (tm: T.State) => s.(tm := tm, main := if tm.scan.Some? then Publishing else Failed))
    case Publishing => Library(s, T.Publish, (tm: T.State) => s.(tm := tm, main := CondWait))
    case CondWait => Next(s.(main := KillAll(0)))
    case KillAll(i) =>
      if i < T.MAX_THREADS then
        Library(s, KillStep(s, MAIN, i), (tm: T.State) => s.(tm := tm, main := KillAll(KillIdx(tm, MAIN, i))))
      else Next(s.(main := WaitAll(0, false)))
    case WaitAll(i, ok) =>
      if i < T.MAX_THREADS then
        Library(s, T.WaitBegin(i), tm =>
          s.(tm := tm, main := if T.RecordAt(s.tm, i).Some? then Joining(i, ok) else WaitAll(i + 1, ok)))
      else Next(s.(main := LoopTest(ok)))
    case Joining(i, ok) => Library(s, T.WaitShow(i), (tm: T.State) => s.(tm := tm, main := Reaping(i, ok)))
    case Reaping(i, ok) => Library(s, T.WaitEnd(i), (tm: T.State) => s.(tm := tm, main := WaitAll(i + 1, true)))
    case LoopTest(_) => Next(s.(main := if s.reinstall then Top else Uninstalling))
    case Uninstalling => Next(s.(hangup := false, main := Destroying))
    case Destroying => Next(s.(attached := false, main := Done))
    case Done => Blocked
    case Failed => Blocked
  }

  function DoManager(s: State): Outcome<State> {
    match s.mgr
    case Idle => Blocked
    case Killing(i) =>
      if i < T.MAX_THREADS then
        Library(s, KillStep(s, MANAGER, i), (tm: T.State) => s.(tm := tm, mgr := Killing(KillIdx(tm, MANAGER, i))))
      else Next(s.(mgr := Idle))
    case Called => Blocked
    case Clearing => if s.attached then Next(s.(mgr := Idle)) else Fault
  }

  predicate WorkerStep(st: T.Step) {
    st.Start? || st.Exit? || st.Look? || st.DeliverCancel? || st.Leave?
  }

  function Do(s: State, step: Step): Outcome<State> {
    match step
    case Main => DoMain(s)
    case Terminate => if s.mgr.Idle? then Next(s.(mgr := Killing(0))) else Blocked
    case Hangup => if s.mgr.Idle? && s.hangup then Next(s.(mgr := Called)) else Blocked
    case CallBack => if s.mgr.Called? then Next(s.(reinstall := true, mgr := Clearing)) else Blocked
    case Manager => DoManager(s)
    case Zero => if !s.mgr.Clearing? then Blocked else if s.attached then Next(s) else Fault
    case Worker(st) => if WorkerStep(st) then Library(s, st, (tm: T.State) => s.(tm := tm)) else Blocked
    case Touch(r) =>
      if !(r < |s.tm.recs| && s.tm.recs[r].phase.InBody?) then Blocked
      else if !s.attached then Fault
      else Next(s)
  }

  /** The library step behind a step of the program, if it makes one. */
  function LibraryStep(s: State, step: Step): Option<T.Step> {
    match step
    case Main =>
      (match s.main
       case Searching => Some(T.Scan)
       case Publishing => Some(T.Publish)
       case KillAll(i) => if i < T.MAX_THREADS then Some(KillStep(s, MAIN, i)) else None
       case WaitAll(i, _) => if i < T.MAX_THREADS then Some(T.WaitBegin(i)) else None
       case Joining(i, _) => Some(T.WaitShow(i))
       case Reaping(i, _) => Some(T.WaitEnd(i))
       case _ => None)
    case Manager =>
      if s.mgr.Killing? && s.mgr.idx < T.MAX_THREADS then Some(KillStep(s, MANAGER, s.mgr.idx)) else None
    case Worker(st) => Some(st)
    case _ => None
  }

  /** Every step of the program is a step of the thread manager or leaves it alone, so every run of
      the program is, seen from the library, one of the runs `ThreadModel` speaks of. */
  lemma RefinesThreadManager(s: State, step: Step)
    requires Do(s, step).Next?
    ensures match LibraryStep(s, step)
            case Some(st) => T.Do(s.tm, st) == Next(Do(s, step).s.tm)
            case None => Do(s, step).s.tm == s.tm
  {
  }

  /** The workers run in the program as they do in the library: what their steps do there, and whether
      they can make them, main and the callbacks leave as it is. */
  lemma WorkersRunFreely(s: State, r: nat, step: T.Step)
    requires step in {T.Start(r), T.Exit(r), T.Look(r), T.DeliverCancel(r), T.Leave(r)}
    ensures match T.Do(s.tm, step)
            case Next(tm) => Do(s, Worker(step)) == Next(s.(tm := tm))
            case Blocked => Do(s, Worker(step)).Blocked?
            case Fault => Do(s, Worker(step)).Fault?
  {
  }

  /** An access to the segment faults exactly when it has been detached. */
  lemma AccessFaultsIff(s: State, r: nat)
    ensures r < |s.tm.recs| && s.tm.recs[r].phase.InBody? ==>
              (Do(s, Touch(r)).Fault? <==> !s.attached) && (Do(s, Touch(r)).Next? <==> s.attached)
    ensures s.mgr.Clearing? ==>
              && (Do(s, Zero).Fault? <==> !s.attached) && (Do(s, Zero).Next? <==> s.attached)
              && (Do(s, Manager).Fault? <==> !s.attached) && (Do(s, Manager).Next? <==> s.attached)
  {
  }

  function Init(): State {
    State(T.Init(), Top, Idle, false, true, true)
  }

  // -------------------------------------------------------------- invariant

  predicate SlotsFrom(tm: T.State, first: bool) {
    && |tm.slots| == T.MAX_THREADS
    && (tm.slots[0].Some? <==> first)
    && forall h :: 0 < h < T.MAX_THREADS ==> tm.slots[h].None?
  }

  /** What main knows of the handle table at each place. */
  predicate MainOk(tm: T.State, main: MainPc) {
    match main
    case Publishing => SlotsFrom(tm, false) && tm.scan == Some(0) && tm.waits == map[]
    case CondWait => SlotsFrom(tm, true) && tm.scan == None && tm.waits == map[]
    case KillAll(i) => SlotsFrom(tm, true) && tm.scan == None && tm.waits == map[] && i <= T.MAX_THREADS
    case WaitAll(i, ok) =>
      SlotsFrom(tm, i == 0) && tm.scan == None && tm.waits == map[] && i <= T.MAX_THREADS && (0 < i ==> ok)
    case Joining(i, ok) => SlotsFrom(tm, true) && tm.scan == None && tm.waits.Keys == {0} && i == 0
    case Reaping(i, ok) => SlotsFrom(tm, true) && tm.scan == None && tm.waits.Keys == {0} && i == 0
    case LoopTest(ok) => SlotsFrom(tm, false) && tm.scan == None && tm.waits == map[] && ok
    case Failed => false
    case _ => SlotsFrom(tm, false) && tm.scan == None && tm.waits == map[]
  }

  /** Only main and the manager kill, each in its th_kill_all. */
  predicate KillersOk(s: State) {
    && s.tm.kills.Keys <= {MAIN, MANAGER}
    && (MAIN in s.tm.kills ==> s.main.KillAll? && s.main.idx < T.MAX_THREADS)
    && (MANAGER in s.tm.kills ==> s.mgr.Killing? && s.mgr.idx < T.MAX_THREADS)
  }

  /** What every run keeps, whatever happens at the same time. */
  predicate Inv(s: State) {
    && T.Inv(s.tm) && MainOk(s.tm, s.main) && KillersOk(s)
    && (s.attached <==> !s.main.Done?) && (s.main.Destroying? || s.main.Done? ==> !s.hangup)
  }

  /** With every slot empty no worker can still run the client's function. */
  lemma EmptyMeansNoneLive(tm: T.State, r: nat)
    requires T.Inv(tm) && SlotsFrom(tm, false) && r < |tm.recs|
    ensures !T.Live(tm.recs[r])
  {
    assert T.RecOk(tm.recs[r]);
  }

  /** Steps of workers leave the table, the search, the waits and the kills alone. */
  lemma WorkersKeepTable(tm: T.State, step: T.Step)
    requires T.Inv(tm) && T.Do(tm, step).Next? && WorkerStep(step)
    ensures T.Do(tm, step).s == tm.(recs := T.Do(tm, step).s.recs)
  {
    if step.Exit? {
      T.ExitIsOwn(tm, step.rid);
    } else if step.Look? {
      T.LookShape(tm, step.rid);
    }
  }

  /** So do steps of a th_kill, up to the calls of their own thread. */
  lemma KillsKeepTable(tm: T.State, step: T.Step)
    requires T.Inv(tm) && T.Do(tm, step).Next? && (step.KillBegin? || step.KillStep?)
    ensures var u := T.Do(tm, step).s;
            && u == tm.(recs := u.recs, kills := u.kills)
            && u.kills.Keys <= tm.kills.Keys + {step.tid} && tm.kills.Keys <= u.kills.Keys + {step.tid}
  {
    if step.KillStep? {
      T.KillStepShape(tm, step.tid);
    }
  }

  lemma ExecuteKeepsInv(s: State)
    requires Inv(s) && (s.main.Searching? || s.main.Publishing?) && DoMain(s).Next?
    ensures Inv(DoMain(s).s)
  {
    match s.main
    case Searching =>
      T.StepKeepsInv(s.tm, T.Scan);
      assert T.LowestFree(s.tm.slots, 0) == 0;
    case Publishing => T.StepKeepsInv(s.tm, T.Publish);
  }

  lemma WaitBeginKeepsInv(s: State)
    requires Inv(s) && s.main.WaitAll? && DoMain(s).Next?
    ensures Inv(DoMain(s).s)
  {
    if s.main.idx < T.MAX_THREADS {
      T.StepKeepsInv(s.tm, T.WaitBegin(s.main.idx));
    }
  }

  lemma WaitShowKeepsInv(s: State)
    requires Inv(s) && s.main.Joining? && DoMain(s).Next?
    ensures Inv(DoMain(s).s)
  {
    T.StepKeepsInv(s.tm, T.WaitShow(s.main.idx));
  }

  lemma WaitEndKeepsInv(s: State)
    requires Inv(s) && s.main.Reaping? && DoMain(s).Next?
    ensures Inv(DoMain(s).s)
  {
    T.StepKeepsInv(s.tm, T.WaitEnd(s.main.idx));
  }

  lemma KillAllKeepsInv(s: State)
    requires Inv(s) && s.main.KillAll? && s.main.idx < T.MAX_THREADS && DoMain(s).Next?
    ensures Inv(DoMain(s).s)
  {
    var step := KillStep(s, MAIN, s.main.idx);
    T.StepKeepsInv(s.tm, step);
    KillsKeepTable(s.tm, step);
  }

  lemma MainKeepsInv(s: State)
    requires Inv(s) && DoMain(s).Next?
    ensures Inv(DoMain(s).s)
  {
    if s.main.Searching? || s.main.Publishing? {
      ExecuteKeepsInv(s);
    } else if s.main.WaitAll? {
      WaitBeginKeepsInv(s);
    } else if s.main.Joining? {
      WaitShowKeepsInv(s);
    } else if s.main.Reaping? {
      WaitEndKeepsInv(s);
    } else if s.main.KillAll? && s.main.idx < T.MAX_THREADS {
      KillAllKeepsInv(s);
    }
  }

  lemma ManagerKeepsInv(s: State)
    requires Inv(s) && DoManager(s).Next?
    ensures Inv(DoManager(s).s)
  {
    if s.mgr.Killing? && s.mgr.idx < T.MAX_THREADS {
      var step := KillStep(s, MANAGER, s.mgr.idx);
      T.StepKeepsInv(s.tm, step);
      KillsKeepTable(s.tm, step);
    }
  }

  /** Every step keeps the invariant; no worker faults at the segment or in th_exit's update. */
  lemma StepKeepsInv(s: State, step: Step)
    requires Inv(s)
    ensures Do(s, step).Fault? ==> step.Main? || step.Manager? || step.Zero? || (step.Worker? && step.step.Look?)
    ensures Do(s, step).Next? ==> Inv(Do(s, step).s)
  {
    match step
    case Main =>
      if DoMain(s).Next? {
        MainKeepsInv(s);
      }
    case Manager =>
      if DoManager(s).Next? {
        ManagerKeepsInv(s);
      }
    case Worker(st) =>
      T.StepKeepsInv(s.tm, st);
      if Do(s, step).Next? {
        WorkersKeepTable(s.tm, st);
      }
    case Touch(r) =>
      if r < |s.tm.recs| && s.tm.recs[r].phase.InBody? && !s.attached {
        EmptyMeansNoneLive(s.tm, r);
      }
    case _ =>
  }

  lemma {:induction false} RunKeepsInv(s: State, steps: seq<Step>)
    requires Inv(s)
    ensures Run(Do, s, steps).Next? ==> Inv(Run(Do, s, steps).s)
    decreases |steps|
  {
    if steps != [] {
      StepKeepsInv(s, steps[0]);
      if Do(s, steps[0]).Next? {
        RunKeepsInv(Do(s, steps[0]).s, steps[1..]);
      }
    }
  }

  // ------------------------------------------------------ safe in every run

  /** In every interleaving of main, the workers and the signal callbacks: at most one worker is, or
      is about to be, inside thread_entry_point; once destroy_shm is called none is, and no worker
      faults at the segment. */
  lemma WholeProgramSafe(steps: seq<Step>, q: nat, r: nat)
    ensures Run(Do, Init(), steps).Next? ==>
              var s := Run(Do, Init(), steps).s;
              && (q < |s.tm.recs| && r < |s.tm.recs| && T.Live(s.tm.recs[q]) && T.Live(s.tm.recs[r]) ==> q == r)
              && (!s.attached && r < |s.tm.recs| ==> !T.Live(s.tm.recs[r]))
              && !Do(s, Touch(r)).Fault? && !Do(s, Worker(T.Exit(r))).Fault?
  {
    RunKeepsInv(Init(), steps);
    if Run(Do, Init(), steps).Next? {
      var s := Run(Do, Init(), steps).s;
      StepKeepsInv(s, Touch(r));
      StepKeepsInv(s, Worker(T.Exit(r)));
      if !s.attached && r < |s.tm.recs| {
        EmptyMeansNoneLive(s.tm, r);
      }
    }
  }

  /** Every th_execute of the restart loop finds all slots empty, so it never fails and always gets
      handle 0; and every th_wait_all of the loop returns OK. */
  lemma RestartLoopClean(steps: seq<Step>)
    ensures Run(Do, Init(), steps).Next? ==>
              var s := Run(Do, Init(), steps).s;
              && !s.main.Failed?
              && (s.main.Searching? || s.main.Publishing? ==>
                    forall h :: 0 <= h < T.MAX_THREADS ==> T.RecordAt(s.tm, h).None?)
              && (s.main.Publishing? ==> s.tm.scan == Some(0))
              && (s.main.LoopTest? ==> s.main.ok)
  {
    RunKeepsInv(Init(), steps);
  }
}
