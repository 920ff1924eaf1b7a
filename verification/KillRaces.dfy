/**
 th_kill and the last show_thread of a worker against the cleanup of th_wait, in the transition
 system of `ThreadModel`. A cleanup that falls inside them can make them dereference NULL, or write
 to the record that has replaced theirs. This says which runs lead to the one and to the other, and
 what the state machine of a record is in the rest.
 */
module KillRaces {
  import opened Options
  import opened Runs
  import opened ThreadModel
  import opened KillModel

  // ------------------------------------------------------------------ locks

  /** A last show_thread that has the lock it takes. */
  predicate HoldsShow(rec: Rec) {
    rec.phase.Showing? && 0 < rec.phase.left < SHOW_LOOKS
  }

  /** The owner of the lock of a record still in its slot is a th_kill of it that is under way, or a
      last show_thread of the same handle, under way or cancelled in its midst. */
  predicate LockOk(s: State, r: nat)
    requires r < |s.recs|
  {
    RecordAt(s, s.recs[r].handle) == Some(r) ==>
      match s.recs[r].lock
      case Some(Killer(t)) => t in s.kills && Holding(s.kills[t].pc) && s.kills[t].rid == r
      case Some(Shower(x)) =>
        && x < |s.recs| && s.recs[x].handle == s.recs[r].handle
        && (HoldsShow(s.recs[x]) || s.recs[x].phase.Terminated?)
      case None => true
  }

  predicate LocksOk(s: State) {
    forall r: nat :: r < |s.recs| ==> LockOk(s, r)
  }

  /** Records and calls as before, up to new records, and no slot refilled but by these. */
  lemma TableKeepsLocks(s: State, u: State)
    requires LocksOk(s) && u.kills == s.kills && |s.recs| <= |u.recs|
    requires forall r: nat :: r < |s.recs| ==> u.recs[r] == s.recs[r]
    requires forall r: nat :: |s.recs| <= r < |u.recs| ==> u.recs[r].lock.None?
    requires forall h, r: nat :: r < |s.recs| && RecordAt(u, h) == Some(r) ==> RecordAt(s, h) == Some(r)
    ensures LocksOk(u)
  {
    forall r: nat | r < |u.recs| ensures LockOk(u, r) {
      if r < |s.recs| {
        assert LockOk(s, r);
      }
    }
  }

  /** A step of one worker that takes no lock and does not come from its last show_thread. */
  lemma WorkerKeepsLocks(s: State, r: nat, rec: Rec)
    requires Inv(s) && LocksOk(s) && r < |s.recs|
    requires rec.handle == s.recs[r].handle && rec.lock == s.recs[r].lock
    requires HoldsShow(s.recs[r]) ==> rec.phase.Terminated?
    requires s.recs[r].phase.Terminated? ==> rec.phase.Terminated?
    ensures LocksOk(SetRec(s, r, rec))
  {
    forall q: nat | q < |s.recs| ensures LockOk(SetRec(s, r, rec), q) {
      assert LockOk(s, q);
    }
  }

  /** A look that neither takes nor releases a lock. */
  lemma PassKeepsLocks(s: State, r: nat)
    requires Inv(s) && LocksOk(s) && Do(s, Look(r)).Next?
    requires r < |s.recs| && (s.recs[r].phase.Exiting? || s.recs[r].phase.left !in {1, SHOW_LOOKS})
    ensures LocksOk(Do(s, Look(r)).s)
  {
    LookShape(s, r);
    var u := Do(s, Look(r)).s;
    forall q: nat | q < |u.recs| ensures LockOk(u, q) {
      assert LockOk(s, q) && LookedAt(s.recs[q], u.recs[q], q == r);
    }
  }

  lemma FirstLookKeepsLocks(s: State, r: nat)
    requires Inv(s) && LocksOk(s) && Do(s, Look(r)).Next?
    requires r < |s.recs| && s.recs[r].phase == Showing(SHOW_LOOKS)
    ensures LocksOk(Do(s, Look(r)).s)
  {
    LookShape(s, r);
    var u := Do(s, Look(r)).s;
    forall q: nat | q < |u.recs| ensures LockOk(u, q) {
      assert LockOk(s, q) && LookedAt(s.recs[q], u.recs[q], q == r);
    }
  }

  lemma LastLookKeepsLocks(s: State, r: nat)
    requires Inv(s) && LocksOk(s) && Do(s, Look(r)).Next?
    requires r < |s.recs| && s.recs[r].phase == Showing(1)
    ensures LocksOk(Do(s, Look(r)).s)
  {
    LookShape(s, r);
    var u := Do(s, Look(r)).s;
    forall q: nat | q < |u.recs| ensures LockOk(u, q) {
      assert LockOk(s, q) && LookedAt(s.recs[q], u.recs[q], q == r);
      if s.recs[q].lock == Some(Shower(r)) && RecordAt(s, s.recs[q].handle) == Some(q) {
        assert RecordAt(s, s.recs[r].handle) == Some(q);
      }
    }
  }

  lemma LookKeepsLocks(s: State, r: nat)
    requires Inv(s) && LocksOk(s) && Do(s, Look(r)).Next?
    ensures LocksOk(Do(s, Look(r)).s)
  {
    if s.recs[r].phase == Showing(SHOW_LOOKS) {
      FirstLookKeepsLocks(s, r);
    } else if s.recs[r].phase == Showing(1) {
      LastLookKeepsLocks(s, r);
    } else {
      PassKeepsLocks(s, r);
    }
  }

  lemma AcquireKeepsLocks(s: State, t: nat)
    requires Inv(s) && LocksOk(s) && t in s.kills && s.kills[t].pc.Acquire? && Do(s, KillStep(t)).Next?
    ensures LocksOk(Do(s, KillStep(t)).s)
  {
    var u := Do(s, KillStep(t)).s;
    forall q: nat | q < |u.recs| ensures LockOk(u, q) {
      assert LockOk(s, q);
    }
  }

  lemma ReleaseKeepsLocks(s: State, t: nat)
    requires Inv(s) && LocksOk(s) && t in s.kills && s.kills[t].pc.Release? && Do(s, KillStep(t)).Next?
    ensures LocksOk(Do(s, KillStep(t)).s)
  {
    var u := Do(s, KillStep(t)).s;
    forall q: nat | q < |u.recs| ensures LockOk(u, q) {
      assert LockOk(s, q);
      if RecordAt(s, s.recs[q].handle) == Some(q) && s.recs[q].lock == Some(Killer(t)) {
        assert RecordAt(s, s.kills[t].h) == Some(q);
      }
    }
  }

  /** The other steps of a th_kill leave all locks alone. */
  lemma KillLeavesLocks(s: State, t: nat)
    requires t in s.kills && !s.kills[t].pc.Acquire? && !s.kills[t].pc.Release? && Do(s, KillStep(t)).Next?
    ensures var u := Do(s, KillStep(t)).s;
            && t in u.kills && u.kills == s.kills[t := u.kills[t]] && u == s.(recs := u.recs, kills := u.kills)
            && |u.recs| == |s.recs|
            && (forall q :: 0 <= q < |s.recs| ==> u.recs[q].lock == s.recs[q].lock && Killed(s.recs[q], u.recs[q]))
            && (Holding(s.kills[t].pc) ==> Holding(u.kills[t].pc) && u.kills[t].rid == s.kills[t].rid)
  {
    KillStepShape(s, t);
  }

  lemma KillKeepsLocks(s: State, t: nat)
    requires Inv(s) && LocksOk(s) && Do(s, KillStep(t)).Next?
    ensures LocksOk(Do(s, KillStep(t)).s)
  {
    var pc := s.kills[t].pc;
    if pc.Acquire? {
      AcquireKeepsLocks(s, t);
    } else if pc.Release? {
      ReleaseKeepsLocks(s, t);
    } else {
      KillLeavesLocks(s, t);
      var u := Do(s, KillStep(t)).s;
      forall q: nat | q < |u.recs| ensures LockOk(u, q) {
        assert LockOk(s, q) && Killed(s.recs[q], u.recs[q]);
        match s.recs[q].lock
        case Some(Shower(x)) => assert x < |s.recs| ==> Killed(s.recs[x], u.recs[x]);
        case _ =>
      }
    }
  }

  lemma StepKeepsLocks(s: State, step: Step)
    requires Inv(s) && LocksOk(s) && Do(s, step).Next?
    ensures LocksOk(Do(s, step).s)
  {
    var u := Do(s, step).s;
    if step.KillStep? {
      KillKeepsLocks(s, step.tid);
    } else if step.Look? {
      LookKeepsLocks(s, step.rid);
    } else if step.Exit? {
      ExitIsOwn(s, step.rid);
      WorkerKeepsLocks(s, step.rid, u.recs[step.rid]);
    } else if step.Start? || step.DeliverCancel? || step.Leave? {
      WorkerKeepsLocks(s, step.rid, u.recs[step.rid]);
    } else if step.KillBegin? {
      forall q: nat | q < |u.recs| ensures LockOk(u, q) {
        assert LockOk(s, q);
      }
    } else {
      TableKeepsLocks(s, u);
    }
  }

  // ---------------------------------------------- the kills that are deciding

  /** Between the acquisition of its record's lock and its write. */
  predicate Deciding(pc: KillPc) {
    pc.TestCancelled? || pc.TestFinished? || pc.Cancel? || pc.Mark?
  }

  /** A th_kill that is deciding has the lock of the record in its slot, so nobody else decides that
      record's state; one still waiting for a lock waits for that of the record in its slot, or for
      one that will never be released. */
  predicate DecideOk(s: State, t: nat)
    requires t in s.kills && s.kills[t].rid < |s.recs|
  {
    var k, rec := s.kills[t], s.recs[s.kills[t].rid];
    && (k.pc.Acquire? ==> rec.lock != Some(Killer(t)) && (RecordAt(s, k.h) == Some(k.rid) || rec.lock.Some?))
    && (Deciding(k.pc) ==> RecordAt(s, k.h) == Some(k.rid) && rec.lock == Some(Killer(t)))
    && (k.pc.TestFinished? ==> !rec.state.Cancelled?)
    && (k.pc.Cancel? || k.pc.Mark? ==> Undecided(rec.state))
  }

  predicate KillsDecideOk(s: State) {
    forall t :: t in s.kills ==> s.kills[t].rid < |s.recs| && DecideOk(s, t)
  }

  /** What every run keeps in which no cleanup overtakes a deciding kill. */
  predicate Settled(s: State) {
    Inv(s) && LocksOk(s) && KillsDecideOk(s)
  }

  /** A th_kill of handle `h` is deciding, or can still come to. */
  predicate WillDecide(s: State, t: nat, h: int) {
    && t in s.kills && s.kills[t].h == h && s.kills[t].rid < |s.recs|
    && (Deciding(s.kills[t].pc) || (s.kills[t].pc.Acquire? && s.recs[s.kills[t].rid].lock.None?))
  }

  /** The step is a cleanup that falls inside such a kill. */
  predicate Overtakes(s: State, step: Step) {
    step.WaitEnd? && Do(s, step).Next? && exists t :: t in s.kills && WillDecide(s, t, step.h)
  }

  lemma TableKeepsDeciding(s: State, u: State)
    requires KillsDecideOk(s) && u.kills == s.kills && |s.recs| <= |u.recs|
    requires forall r: nat :: r < |s.recs| ==> u.recs[r] == s.recs[r]
    requires forall t :: t in s.kills && (Deciding(s.kills[t].pc) || s.kills[t].pc.Acquire?) ==>
               RecordAt(u, s.kills[t].h) == RecordAt(s, s.kills[t].h)
               || (s.kills[t].pc.Acquire? && s.recs[s.kills[t].rid].lock.Some?)
    ensures KillsDecideOk(u)
  {
    forall t | t in u.kills ensures u.kills[t].rid < |u.recs| && DecideOk(u, t) {
      assert DecideOk(s, t);
    }
  }

  lemma CallKeepsDeciding(s: State, step: Step)
    requires Settled(s) && !Overtakes(s, step) && Do(s, step).Next?
    requires step.Scan? || step.Publish? || step.WaitBegin? || step.WaitShow? || step.WaitEnd? || step.WaitAbandon?
    ensures KillsDecideOk(Do(s, step).s)
  {
    var u := Do(s, step).s;
    forall t | t in s.kills && (Deciding(s.kills[t].pc) || s.kills[t].pc.Acquire?)
      ensures RecordAt(u, s.kills[t].h) == RecordAt(s, s.kills[t].h)
              || (s.kills[t].pc.Acquire? && s.recs[s.kills[t].rid].lock.Some?)
    {
      assert DecideOk(s, t);
      if step.WaitEnd? && s.kills[t].h == step.h {
        assert !WillDecide(s, t, step.h);
      }
    }
    TableKeepsDeciding(s, u);
  }

  /** A step of one worker that leaves locks alone, and the state of a record whose lock is held,
      but for the late start. */
  lemma WorkerKeepsDeciding(s: State, r: nat, rec: Rec)
    requires Settled(s) && r < |s.recs| && rec.handle == s.recs[r].handle && rec.lock == s.recs[r].lock
    requires rec.state == s.recs[r].state || rec.state.Running? || rec.lock.None?
    ensures KillsDecideOk(SetRec(s, r, rec))
  {
    var u := SetRec(s, r, rec);
    forall t | t in u.kills ensures u.kills[t].rid < |u.recs| && DecideOk(u, t) {
      assert DecideOk(s, t);
    }
  }

  /** A last show_thread takes a free lock, of the record in its slot, and releases its own there. */
  lemma LookLocks(s: State, r: nat, q: nat)
    requires Do(s, Look(r)).Next? && q < |s.recs|
    ensures |Do(s, Look(r)).s.recs| == |s.recs|
    ensures var before, after := s.recs[q].lock, Do(s, Look(r)).s.recs[q].lock;
            || after == before
            || (RecordAt(s, s.recs[r].handle) == Some(q) && before == None && after == Some(Shower(r)))
            || (RecordAt(s, s.recs[r].handle) == Some(q) && before == Some(Shower(r)) && after == None)
  {
  }

  lemma LookKeepsDeciding(s: State, r: nat)
    requires Settled(s) && Do(s, Look(r)).Next?
    ensures KillsDecideOk(Do(s, Look(r)).s)
  {
    LookShape(s, r);
    var u := Do(s, Look(r)).s;
    forall t | t in u.kills ensures u.kills[t].rid < |u.recs| && DecideOk(u, t) {
      var q := s.kills[t].rid;
      assert DecideOk(s, t) && LookedAt(s.recs[q], u.recs[q], q == r);
      LookLocks(s, r, q);
    }
  }

  /** A th_kill leaves a record alone whose lock another has. */
  lemma LockedIsLeft(s: State, t: nat, x: nat, q: nat)
    requires Settled(s) && Do(s, KillStep(t)).Next? && x != t && q < |s.recs| && s.recs[q].lock == Some(Killer(x))
    ensures q < |Do(s, KillStep(t)).s.recs| && Do(s, KillStep(t)).s.recs[q] == s.recs[q]
  {
    assert DecideOk(s, t);
  }

  lemma AwaitedByOther(s: State, t: nat, x: nat)
    requires Settled(s) && Do(s, KillStep(t)).Next? && x in s.kills && x != t && s.kills[x].pc.Acquire?
    ensures var u, q := Do(s, KillStep(t)).s, s.kills[x].rid;
            && u.slots == s.slots && q < |u.recs| == |s.recs|
            && u.recs[q].lock != Some(Killer(x))
            && (s.recs[q].lock.Some? && RecordAt(s, s.kills[x].h) != Some(q) ==> u.recs[q].lock.Some?)
  {
    KillStepShape(s, t);
    assert DecideOk(s, x) && DecideOk(s, t);
  }

  /** The th_kill of another thread is not disturbed: it cannot have the lock of the same record. */
  lemma OtherKeepsDeciding(s: State, t: nat, x: nat)
    requires Settled(s) && Do(s, KillStep(t)).Next? && x in s.kills && x != t
    ensures var u := Do(s, KillStep(t)).s;
            x in u.kills && u.kills[x] == s.kills[x] && u.kills[x].rid < |u.recs| && DecideOk(u, x)
  {
    KillStepShape(s, t);
    assert DecideOk(s, x);
    if Deciding(s.kills[x].pc) {
      LockedIsLeft(s, t, x, s.kills[x].rid);
    } else if s.kills[x].pc.Acquire? {
      AwaitedByOther(s, t, x);
    }
  }

  /** A call that fetches does not have that record's lock: its holder would be past that. */
  lemma FetchIsDeciding(s: State, t: nat)
    requires Settled(s) && t in s.kills && s.kills[t].pc.Fetch? && Do(s, KillStep(t)).Next?
    ensures var u := Do(s, KillStep(t)).s; t in u.kills && u.kills[t].rid < |u.recs| && DecideOk(u, t)
  {
    assert LockOk(s, RecordAt(s, s.kills[t].h).value);
  }

  lemma AcquiredIsDeciding(s: State, t: nat)
    requires Settled(s) && t in s.kills && s.kills[t].pc.Acquire? && Do(s, KillStep(t)).Next?
    ensures var u := Do(s, KillStep(t)).s; t in u.kills && u.kills[t].rid < |u.recs| && DecideOk(u, t)
  {
    assert DecideOk(s, t);
  }

  lemma OwnKeepsDeciding(s: State, t: nat)
    requires Settled(s) && Do(s, KillStep(t)).Next? && t in Do(s, KillStep(t)).s.kills
    ensures var u := Do(s, KillStep(t)).s; u.kills[t].rid < |u.recs| && DecideOk(u, t)
  {
    if s.kills[t].pc.Fetch? {
      FetchIsDeciding(s, t);
    } else if s.kills[t].pc.Acquire? {
      AcquiredIsDeciding(s, t);
    } else {
      KillStepShape(s, t);
      assert DecideOk(s, t);
    }
  }

  lemma KillKeepsDeciding(s: State, t: nat)
    requires Settled(s) && Do(s, KillStep(t)).Next?
    ensures KillsDecideOk(Do(s, KillStep(t)).s)
  {
    KillStepShape(s, t);
    var u := Do(s, KillStep(t)).s;
    forall x | x in u.kills ensures u.kills[x].rid < |u.recs| && DecideOk(u, x) {
      if x == t {
        OwnKeepsDeciding(s, t);
      } else {
        OtherKeepsDeciding(s, t, x);
      }
    }
  }

  lemma BeginKeepsDeciding(s: State, t: nat, h: int)
    requires Settled(s) && Do(s, KillBegin(t, h)).Next?
    ensures KillsDecideOk(Do(s, KillBegin(t, h)).s)
  {
    var u := Do(s, KillBegin(t, h)).s;
    forall x | x in u.kills ensures u.kills[x].rid < |u.recs| && DecideOk(u, x) {
      if x in s.kills {
        assert DecideOk(s, x);
      }
    }
  }

  lemma StepKeepsSettled(s: State, step: Step)
    requires Settled(s) && !Overtakes(s, step) && Do(s, step).Next?
    ensures Settled(Do(s, step).s)
  {
    StepKeepsInv(s, step);
    StepKeepsLocks(s, step);
    if step.KillStep? {
      KillKeepsDeciding(s, step.tid);
    } else if step.KillBegin? {
      BeginKeepsDeciding(s, step.tid, step.h);
    } else if step.Look? {
      LookKeepsDeciding(s, step.rid);
    } else if step.Exit? {
      ExitIsOwn(s, step.rid);
      WorkerKeepsDeciding(s, step.rid, Do(s, step).s.recs[step.rid]);
    } else if step.Start? || step.DeliverCancel? || step.Leave? {
      WorkerKeepsDeciding(s, step.rid, Do(s, step).s.recs[step.rid]);
    } else {
      CallKeepsDeciding(s, step);
    }
  }

  // ------------------------------------------------- the state machine undone

  predicate NotCleanup(step: Step) {
    !step.WaitEnd?
  }

  predicate Undoes(s: State, t: nat)
    requires t in s.kills
  {
    && s.kills[t].pc.Mark? && RecordAt(s, s.kills[t].h).Some?
    && s.recs[RecordAt(s, s.kills[t].h).value].state.Finished?
  }

  /** The next step of some th_kill turns a FINISHED record to CANCELLED. */
  predicate UndoesFinished(o: Outcome<State>) {
    o.Next? && exists t :: t in o.s.kills && Undoes(o.s, t)
  }

  function Overtaking(): System<State, Step> {
    System(Do, Settled, Overtakes, NotCleanup, UndoesFinished)
  }

  // ---------------------------------------------------------- state machine

  /** The moves a record's state makes. CANCELLED goes back to RUNNING only at the late start. */
  predicate Moves(a: Rec, b: Rec, started: bool) {
    || a.state == b.state
    || (a.state.Pending? && (b.state.Running? || b.state.Cancelled?))
    || (a.state.Running? && (b.state.Cancelled? || b.state.Finished?))
    || (a.state.Cancelled? && b.state.Running? && started && a.phase.Created?)
    || (a.state.Cancelled? && b.state.Finished? && a.phase.InBody?)
  }

  /** th_kill writes only a record that is still PENDING or RUNNING. */
  lemma MarkOnlyUndecided(s: State, t: nat)
    requires Settled(s) && Do(s, KillStep(t)).Next?
    ensures forall q: nat :: q < |s.recs| && Do(s, KillStep(t)).s.recs[q].state != s.recs[q].state ==>
              Undecided(s.recs[q].state) && KillsRecord(s, KillStep(t), q)
  {
    assert DecideOk(s, t);
  }

  /** One step of the state machine: an old record makes an allowed move and keeps its handle, a new
      one starts PENDING. */
  lemma StepMoves(s: State, step: Step, r: nat)
    requires Settled(s) && Do(s, step).Next? && r < |Do(s, step).s.recs|
    ensures var u := Do(s, step).s;
            && |s.recs| <= |u.recs|
            && (r < |s.recs| ==> u.recs[r].handle == s.recs[r].handle && Moves(s.recs[r], u.recs[r], step == Start(r)))
            && (r >= |s.recs| ==> step.Publish? && u.recs[r].state.Pending?)
  {
    if step.Exit? {
      ExitIsOwn(s, step.rid);
    } else if step.KillStep? {
      KillStepShape(s, step.tid);
      MarkOnlyUndecided(s, step.tid);
      assert r < |s.recs| ==> Killed(s.recs[r], Do(s, step).s.recs[r]);
    } else if step.Look? {
      LookShape(s, step.rid);
    }
  }

  lemma MovesForward(a: Rec, b: Rec, started: bool)
    requires Moves(a, b, started)
    ensures (b.state.Pending? ==> a.state.Pending?) && (a.state.Finished? ==> b.state.Finished?)
  {
  }

  /** Over whole runs: no record returns to PENDING, and FINISHED is absorbing. */
  lemma {:induction false} RunMoves(s: State, steps: seq<Step>, r: nat)
    requires Settled(s) && NeverCuts(Overtaking(), s, steps) && Run(Do, s, steps).Next? && r < |s.recs|
    ensures var u := Run(Do, s, steps).s;
            && r < |u.recs|
            && (u.recs[r].state.Pending? ==> s.recs[r].state.Pending?)
            && (s.recs[r].state.Finished? ==> u.recs[r].state.Finished?)
    decreases |steps|
  {
    if steps != [] {
      var u := Do(s, steps[0]).s;
      assert |s.recs| <= |u.recs| && Moves(s.recs[r], u.recs[r], steps[0] == Start(r)) by {
        FinishedByExit(s, steps[0], r);
        StepMoves(s, steps[0], r);
      }
      MovesForward(s.recs[r], u.recs[r], steps[0] == Start(r));
      StepKeepsSettled(s, steps[0]);
      RunMoves(u, steps[1..], r);
    }
  }

  /** How often a record can still be killed. */
  function KillBudget(s: State, r: nat): nat {
    if |s.recs| <= r then 2
    else match s.recs[r].state
      case Pending => 2
      case Running => 1
      case Cancelled => if s.recs[r].phase.Created? then 1 else 0
      case Finished => 0
  }

  lemma KillSpendsBudget(s: State, step: Step, r: nat)
    requires Settled(s) && Do(s, step).Next?
    ensures KillBudget(Do(s, step).s, r) + (if KillsRecord(s, step, r) then 1 else 0) <= KillBudget(s, r)
    ensures r < |s.recs| && !s.recs[r].phase.Created? ==>
              r < |Do(s, step).s.recs| && !Do(s, step).s.recs[r].phase.Created?
  {
    assert r < |s.recs| ==> RecOk(s.recs[r]);
    if step.Exit? {
      ExitIsOwn(s, step.rid);
    } else if step.KillStep? {
      KillStepShape(s, step.tid);
      MarkOnlyUndecided(s, step.tid);
      assert r < |s.recs| ==> Killed(s.recs[r], Do(s, step).s.recs[r]);
    } else if step.Look? {
      LookShape(s, step.rid);
    }
  }

  /** th_kill succeeds at most twice on a record, and at most once after its worker has started. */
  lemma {:induction false} KillsBounded(s: State, steps: seq<Step>, r: nat)
    requires Settled(s) && NeverCuts(Overtaking(), s, steps)
    ensures Kills(s, steps, r) <= KillBudget(s, r) <= 2
    ensures r < |s.recs| && !s.recs[r].phase.Created? ==> Kills(s, steps, r) <= 1
    decreases |steps|
  {
    if steps != [] && Do(s, steps[0]).Next? {
      StepKeepsSettled(s, steps[0]);
      KillSpendsBudget(s, steps[0], r);
      KillsBounded(Do(s, steps[0]).s, steps[1..], r);
    }
    assert r < |s.recs| ==> RecOk(s.recs[r]);
  }

  // ------------------------------------------------- and exactly when it is

  /** Slot `h` has come to hold the new record `b`, by steps of th_execute alone. */
  ghost predicate Refilled(s: State, steps: seq<Step>, u: State, h: nat, b: nat) {
    && (forall i :: 0 <= i < |steps| ==> steps[i].Scan? || steps[i].Publish?)
    && Run(Do, s, steps) == Next(u) && u.kills == s.kills
    && |s.recs| <= b < |u.recs| && u.recs[..|s.recs|] == s.recs
    && RecordAt(u, h) == Some(b) && u.recs[b] == NewRec(h)
  }

  lemma RefilledOn(s: State, step: Step, v: State, steps: seq<Step>, u: State, h: nat, b: nat)
    requires (step.Scan? || step.Publish?) && Do(s, step) == Next(v) && Refilled(v, steps, u, h, b)
    requires v.kills == s.kills && |s.recs| <= |v.recs| && v.recs[..|s.recs|] == s.recs
    ensures Refilled(s, [step] + steps, u, h, b)
  {
    RunCons(Do, s, step, steps);
    assert u.recs[..|s.recs|] == u.recs[..|v.recs|][..|s.recs|];
  }

  /** With a slot empty, a search finds the lowest such. */
  lemma ScanFinds(s: State, h: nat)
    requires Inv(s) && h < MAX_THREADS && s.slots[h].None? && s.scan.None?
    ensures Do(s, Scan).Next? && Inv(Do(s, Scan).s)
    ensures var v := Do(s, Scan).s; v.scan.Some? && v == s.(scan := v.scan)
  {
    StepKeepsInv(s, Scan);
  }

  lemma PublishFills(s: State)
    requires Inv(s) && s.scan.Some?
    ensures Do(s, Publish).Next? && Inv(Do(s, Publish).s)
    ensures var v := Do(s, Publish).s; Filled(v.slots) == Filled(s.slots) + 1
  {
    StepKeepsInv(s, Publish);
    FilledUpdate(s.slots, s.scan.value, Some(|s.recs|));
  }

  lemma SomeSlotLeft(s: State, h: nat)
    requires Inv(s) && h < MAX_THREADS && s.slots[h].None?
    ensures Filled(s.slots) < MAX_THREADS
  {
    FilledUpdate(s.slots, h, Some(0));
    FilledUpdate(s.slots[h := Some(0)], 0, s.slots[h := Some(0)][0]);
  }

  /** An empty slot can always be refilled, its lower ones first. */
  lemma {:induction false} Refill(s: State, h: nat) returns (steps: seq<Step>, u: State, b: nat)
    requires Inv(s) && h < MAX_THREADS && s.slots[h].None?
    ensures Refilled(s, steps, u, h, b)
    decreases MAX_THREADS - Filled(s.slots), s.scan.None?
  {
    SomeSlotLeft(s, h);
    if s.scan.None? {
      ScanFinds(s, h);
      var v := Do(s, Scan).s;
      steps, u, b := Refill(v, h);
      RefilledOn(s, Scan, v, steps, u, h, b);
      steps := [Scan] + steps;
    } else {
      PublishFills(s);
      var v := Do(s, Publish).s;
      if s.scan.value == h {
        steps, u, b := [Publish], v, |s.recs|;
        RunOne(Do, s, Publish);
      } else {
        steps, u, b := Refill(v, h);
        RefilledOn(s, Publish, v, steps, u, h, b);
        steps := [Publish] + steps;
      }
    }
  }

  /** A th_kill that has lost its record comes to its write on the new one in its slot. */
  lemma {:induction false} LostKillMarks(s: State, t: nat, h: nat, b: nat) returns (n: nat)
    requires WillDecide(s, t, h) && RecordAt(s, h) == Some(b) && s.kills[t].rid != b
    requires s.recs[b] == NewRec(h) || (s.kills[t].pc.Mark? && s.recs[b] == NewRec(h).(cancelAsked := true))
    ensures var o := Run(Do, s, KillSteps(t, n));
            && o.Next? && t in o.s.kills && o.s.kills[t].h == h && o.s.kills[t].pc.Mark?
            && RecordAt(o.s, h) == Some(b) && o.s.recs[b].(cancelAsked := false) == NewRec(h)
    decreases Left(s.kills[t].pc)
  {
    if s.kills[t].pc.Mark? {
      n := 0;
    } else {
      var u := Do(s, KillStep(t)).s;
      assert WillDecide(u, t, h) && RecordAt(u, h) == Some(b);
      n := LostKillMarks(u, t, h, b);
      RunCons(Do, s, KillStep(t), KillSteps(t, n));
      assert KillSteps(t, n + 1) == [KillStep(t)] + KillSteps(t, n);
      n := n + 1;
    }
  }

  /** The new record's worker can finish first. */
  lemma FinishBeforeMark(s: State, t: nat, h: nat, b: nat)
    requires t in s.kills && s.kills[t].h == h && s.kills[t].pc.Mark?
    requires RecordAt(s, h) == Some(b) && s.recs[b].(cancelAsked := false) == NewRec(h)
    ensures UndoesFinished(Run(Do, s, [Start(b), Exit(b)]))
  {
    var u := Do(s, Start(b)).s;
    var v := Do(u, Exit(b)).s;
    RunCons(Do, s, Start(b), [Exit(b)]);
    RunOne(Do, u, Exit(b));
    assert [Start(b)] + [Exit(b)] == [Start(b), Exit(b)];
    assert t in v.kills && Undoes(v, t);
  }

  lemma LostKillUndoes(s: State, t: nat, h: nat, b: nat) returns (rest: seq<Step>)
    requires WillDecide(s, t, h) && RecordAt(s, h) == Some(b) && s.kills[t].rid != b && s.recs[b] == NewRec(h)
    ensures Quiet(Overtaking(), rest) && UndoesFinished(Run(Do, s, rest))
  {
    var n := LostKillMarks(s, t, h, b);
    FinishBeforeMark(Run(Do, s, KillSteps(t, n)).s, t, h, b);
    rest := KillSteps(t, n) + [Start(b), Exit(b)];
    RunAppend(Do, s, KillSteps(t, n), [Start(b), Exit(b)]);
  }

  /** The kill is as it was after the slot has been refilled. */
  lemma StillLost(s: State, t: nat, h: nat, steps: seq<Step>, u: State, b: nat)
    requires WillDecide(s, t, h) && Refilled(s, steps, u, h, b)
    ensures WillDecide(u, t, h) && u.kills[t].rid != b
  {
    assert u.recs[s.kills[t].rid] == u.recs[..|s.recs|][s.kills[t].rid];
  }

  lemma SlotEmptied(s: State, h: nat, t: nat)
    requires Inv(s) && Do(s, WaitEnd(h)).Next? && WillDecide(s, t, h)
    ensures var v := Do(s, WaitEnd(h)).s; Inv(v) && h < MAX_THREADS && v.slots[h].None? && WillDecide(v, t, h)
  {
    StepKeepsInv(s, WaitEnd(h));
  }

  lemma ComesToUndo(s: State, fill: seq<Step>, u: State, rest: seq<Step>)
    requires Run(Do, s, fill) == Next(u) && UndoesFinished(Run(Do, u, rest))
    requires forall i :: 0 <= i < |fill| ==> fill[i].Scan? || fill[i].Publish?
    requires Quiet(Overtaking(), rest)
    ensures ComesToBad(Overtaking(), s)
  {
    RunAppend(Do, s, fill, rest);
    var y := Overtaking();
    assert Quiet(y, fill + rest) && y.bad(Run(y.do, s, fill + rest));
  }

  /** After a cleanup has overtaken a deciding kill, the slot can be refilled, the kill come to its
      write, and the new worker finish before it: a FINISHED record becomes CANCELLED. */
  lemma OvertakenUndoes(s: State, step: Step)
    requires Settled(s) && Overtakes(s, step)
    ensures ComesToBad(Overtaking(), Do(s, step).s)
  {
    var h: nat, v := step.h, Do(s, step).s;
    var t :| t in s.kills && WillDecide(s, t, h);
    SlotEmptied(s, h, t);
    var fill, u, b := Refill(v, h);
    StillLost(v, t, h, fill, u, b);
    var rest := LostKillUndoes(u, t, h, b);
    ComesToUndo(v, fill, u, rest);
  }

  lemma OvertakingCuts()
    ensures Cutting(Overtaking())
  {
    var y := Overtaking();
    forall s | y.inv(s) ensures !y.bad(Next(s)) {
      forall t | t in s.kills ensures !Undoes(s, t) {
        assert DecideOk(s, t);
      }
    }
    forall s, a | y.inv(s) && !y.cuts(s, a) ensures Sound(y, y.do(s, a)) {
      if Do(s, a).Next? {
        StepKeepsSettled(s, a);
      }
    }
    forall s, a | y.inv(s) && y.cuts(s, a) && y.do(s, a).Next? ensures ComesToBad(y, y.do(s, a).s) {
      OvertakenUndoes(s, a);
    }
  }

  /** Exactly when the state machine fails: a run leads to a FINISHED record turned CANCELLED if and
      only if some cleanup of it falls inside a th_kill of its handle that is deciding, or that can
      still take the lock of the record cleaned up. */
  lemma UndoneIff(s: State, steps: seq<Step>)
    requires Settled(s) && Run(Do, s, steps).Next?
    ensures Leads(Overtaking(), s, steps) <==> !NeverCuts(Overtaking(), s, steps)
  {
    OvertakingCuts();
    LeadsIff(Overtaking(), s, steps);
  }

  // ------------------------------------------------------- NULL dereferences

  /** The call waits for a lock whose owner was cancelled in its last show_thread. */
  predicate Stuck(s: State, t: nat)
    requires t in s.kills
  {
    && s.kills[t].pc.Acquire? && s.kills[t].rid < |s.recs|
    && match s.recs[s.kills[t].rid].lock
       case Some(Shower(x)) => x < |s.recs| && s.recs[x].phase.Terminated?
       case _ => false
  }

  /** The worker is in its last show_thread, past the check. */
  predicate Looking(rec: Rec) {
    rec.phase.Showing? && 0 < rec.phase.left
  }

  /** A th_kill of handle `h` is past its check and not stuck, or a worker of that handle is in its
      last show_thread, past its check. */
  predicate Overlaps(s: State, h: int) {
    || (exists t :: t in s.kills && s.kills[t].h == h && !Stuck(s, t))
    || (exists r :: 0 <= r < |s.recs| && s.recs[r].handle == h && Looking(s.recs[r]))
  }

  /** The step is a cleanup that falls inside such a call. */
  predicate Cuts(s: State, step: Step) {
    step.WaitEnd? && Do(s, step).Next? && Overlaps(s, step.h)
  }

  /** A th_kill in progress finds its slot filled, and to the end of its wait for the lock by the
      record it fetched. */
  predicate SlotHeld(s: State, t: nat)
    requires t in s.kills
  {
    var k := s.kills[t];
    RecordAt(s, k.h).Some? && (k.pc.Acquire? ==> RecordAt(s, k.h) == Some(k.rid))
  }

  /** What every run keeps in which no cleanup cuts a call. */
  predicate Steady(s: State) {
    && Settled(s)
    && (forall t :: t in s.kills ==> Stuck(s, t) || SlotHeld(s, t))
    && (forall r: nat :: r < |s.recs| && Looking(s.recs[r]) ==> RecordAt(s, s.recs[r].handle).Some?)
  }

  /** A cleanup that overtakes a deciding kill cuts it. */
  lemma OvertakingIsCutting(s: State, step: Step)
    requires Overtakes(s, step)
    ensures Cuts(s, step)
  {
    var t :| t in s.kills && WillDecide(s, t, step.h);
    assert !Stuck(s, t);
  }

  lemma StuckIsLeft(s: State, t: nat, x: nat)
    requires Do(s, KillStep(t)).Next? && x in s.kills && Stuck(s, x)
    ensures var u := Do(s, KillStep(t)).s;
            && t != x && x in u.kills && u.kills[x] == s.kills[x]
            && |u.recs| == |s.recs| && u.recs[s.kills[x].rid].lock == s.recs[s.kills[x].rid].lock
  {
    KillStepShape(s, t);
  }

  /** The lock of a dead owner stays as it is, and so does a call that waits for it. */
  lemma StuckStays(s: State, step: Step, t: nat)
    requires Settled(s) && t in s.kills && Stuck(s, t) && Do(s, step).Next?
    ensures t in Do(s, step).s.kills && Stuck(Do(s, step).s, t) && Do(s, step).s.kills[t] == s.kills[t]
  {
    var u, q := Do(s, step).s, s.kills[t].rid;
    var x := s.recs[q].lock.value.rid;
    FinishedByExit(s, step, x);
    if step.KillStep? {
      StuckIsLeft(s, step.tid, t);
    } else if step.Look? {
      LookShape(s, step.rid);
      LookLocks(s, step.rid, q);
    } else if step.Exit? {
      ExitIsOwn(s, step.rid);
    }
  }

  /** In a steady state nothing dereferences NULL. */
  lemma SteadyDoesNotFault(s: State, step: Step)
    requires Steady(s)
    ensures !Do(s, step).Fault?
  {
    StepKeepsInv(s, step);
    if step.KillStep? && step.tid in s.kills {
      assert Stuck(s, step.tid) || SlotHeld(s, step.tid);
    }
  }

  lemma KillKeepsSlot(s: State, t: nat)
    requires Steady(s) && Do(s, KillStep(t)).Next? && t in Do(s, KillStep(t)).s.kills
    ensures SlotHeld(Do(s, KillStep(t)).s, t)
  {
    KillStepShape(s, t);
    assert Stuck(s, t) || SlotHeld(s, t);
  }

  lemma OtherCallStays(s: State, step: Step, t: nat)
    requires t in s.kills && Do(s, step).Next? && step != KillStep(t)
    ensures t in Do(s, step).s.kills && Do(s, step).s.kills[t] == s.kills[t]
  {
    if step.KillStep? {
      KillStepShape(s, step.tid);
    } else if step.Look? {
      LookShape(s, step.rid);
    }
  }

  lemma NewCallHeld(s: State, step: Step, t: nat)
    requires Inv(s) && Do(s, step).Next? && t !in s.kills && t in Do(s, step).s.kills
    ensures SlotHeld(Do(s, step).s, t)
  {
    if step.KillStep? {
      KillStepShape(s, step.tid);
    } else if step.Look? {
      LookShape(s, step.rid);
    }
  }

  lemma OldCallHeld(s: State, step: Step, t: nat)
    requires Steady(s) && !Cuts(s, step) && Do(s, step).Next? && step != KillStep(t)
    requires t in s.kills && SlotHeld(s, t) && !Stuck(s, t)
    ensures t in Do(s, step).s.kills && SlotHeld(Do(s, step).s, t)
  {
    OtherCallStays(s, step, t);
    StepKeepsSlot(s, step, s.kills[t].h);
  }

  lemma StepKeepsHeld(s: State, step: Step, t: nat)
    requires Steady(s) && !Cuts(s, step) && Do(s, step).Next? && t in Do(s, step).s.kills
    ensures Stuck(Do(s, step).s, t) || SlotHeld(Do(s, step).s, t)
  {
    if t !in s.kills {
      NewCallHeld(s, step, t);
    } else if Stuck(s, t) {
      StuckStays(s, step, t);
    } else if step == KillStep(t) {
      KillKeepsSlot(s, t);
    } else {
      OldCallHeld(s, step, t);
    }
  }

  /** A worker comes to look only after its check. */
  lemma LookingBefore(s: State, step: Step, r: nat)
    requires Inv(s) && Do(s, step).Next? && r < |Do(s, step).s.recs| && Looking(Do(s, step).s.recs[r])
    ensures r < |s.recs| && Do(s, step).s.recs[r].handle == s.recs[r].handle
    ensures Looking(s.recs[r]) || (step == Look(r) && RecordAt(s, s.recs[r].handle).Some?)
  {
    if step.KillStep? {
      KillStepShape(s, step.tid);
      assert Killed(s.recs[r], Do(s, step).s.recs[r]);
    } else if step.Look? {
      LookShape(s, step.rid);
      assert LookedAt(s.recs[r], Do(s, step).s.recs[r], r == step.rid);
    } else if step.Exit? {
      ExitIsOwn(s, step.rid);
    }
  }

  lemma StepKeepsLooked(s: State, step: Step, r: nat)
    requires Steady(s) && !Cuts(s, step) && Do(s, step).Next?
    requires r < |Do(s, step).s.recs| && Looking(Do(s, step).s.recs[r])
    ensures var u := Do(s, step).s; RecordAt(u, u.recs[r].handle).Some?
  {
    LookingBefore(s, step, r);
    StepKeepsSlot(s, step, s.recs[r].handle);
  }

  lemma StepKeepsSteady(s: State, step: Step)
    requires Steady(s) && !Cuts(s, step)
    ensures !Do(s, step).Fault?
    ensures Do(s, step).Next? ==> Steady(Do(s, step).s)
  {
    SteadyDoesNotFault(s, step);
    if Do(s, step).Next? {
      var u := Do(s, step).s;
      if Overtakes(s, step) {
        OvertakingIsCutting(s, step);
      }
      StepKeepsSettled(s, step);
      forall t | t in u.kills ensures Stuck(u, t) || SlotHeld(u, t) {
        StepKeepsHeld(s, step, t);
      }
      forall r: nat | r < |u.recs| && Looking(u.recs[r]) ensures RecordAt(u, u.recs[r].handle).Some? {
        StepKeepsLooked(s, step, r);
      }
    }
  }

  predicate Faulted(o: Outcome<State>) {
    o.Fault?
  }

  function Faulting(): System<State, Step> {
    System(Do, Steady, Cuts, NotCleanup, Faulted)
  }

  /** With its slot empty, a th_kill that does not wait for a lock faults within two steps. */
  lemma KillOfEmptyFaults(s: State, t: nat)
    requires t in s.kills && RecordAt(s, s.kills[t].h).None?
    requires s.kills[t].pc.Acquire? ==> Do(s, KillStep(t)).Next?
    ensures Run(Do, s, [KillStep(t)]).Fault? || Run(Do, s, [KillStep(t), KillStep(t)]).Fault?
  {
    RunOne(Do, s, KillStep(t));
    if Do(s, KillStep(t)).Next? {
      RunOne(Do, Do(s, KillStep(t)).s, KillStep(t));
      RunCons(Do, s, KillStep(t), [KillStep(t)]);
      assert [KillStep(t)] + [KillStep(t)] == [KillStep(t), KillStep(t)];
    }
  }

  /** Some th_kill of handle `h` that is not stuck does not wait for a lock, or a worker of it is in
      its last show_thread. */
  lemma SomeCallGoesOn(s: State, h: int, x: nat) returns (t: nat)
    requires Steady(s) && x in s.kills && s.kills[x].h == h && !Stuck(s, x)
    requires forall r :: 0 <= r < |s.recs| && s.recs[r].handle == h ==> !Looking(s.recs[r])
    ensures t in s.kills && s.kills[t].h == h
    ensures s.kills[t].pc.Acquire? ==> s.kills[t].rid < |s.recs| && MayTake(s.recs[s.kills[t].rid], Killer(t))
  {
    t := x;
    var r := s.kills[t].rid;
    assert SlotHeld(s, t) && DecideOk(s, t);
    if s.kills[t].pc.Acquire? && s.recs[r].lock.Some? {
      assert LockOk(s, r) && s.recs[r].handle == h;
      match s.recs[r].lock.value
      case Killer(u) =>
        t := u;
        assert DecideOk(s, t);
      case Shower(y) => assert false;
    }
  }

  /** A cleanup inside such a call leaves it at the NULL pointer: the call faults when it goes on. */
  lemma CutFaults(s: State, step: Step) returns (more: seq<Step>)
    requires Steady(s) && Cuts(s, step)
    ensures Run(Do, Do(s, step).s, more).Fault?
    ensures (exists r :: more == [Look(r)]) ||
            (exists t :: t in s.kills && s.kills[t].h == step.h &&
                         (more == [KillStep(t)] || more == [KillStep(t), KillStep(t)]))
  {
    var h, u := step.h, Do(s, step).s;
    assert RecordAt(u, h).None?;
    if r :| 0 <= r < |s.recs| && s.recs[r].handle == h && Looking(s.recs[r]) {
      RunOne(Do, u, Look(r));
      more := [Look(r)];
    } else {
      var x :| x in s.kills && s.kills[x].h == h && !Stuck(s, x);
      var t := SomeCallGoesOn(s, h, x);
      KillOfEmptyFaults(u, t);
      more := if Run(Do, u, [KillStep(t)]).Fault? then [KillStep(t)] else [KillStep(t), KillStep(t)];
    }
  }

  lemma FaultingCuts()
    ensures Cutting(Faulting())
  {
    var y := Faulting();
    forall s, a | y.inv(s) && !y.cuts(s, a) ensures Sound(y, y.do(s, a)) {
      StepKeepsSteady(s, a);
    }
    forall s, a | y.inv(s) && y.cuts(s, a) && y.do(s, a).Next? ensures ComesToBad(y, y.do(s, a).s) {
      var more := CutFaults(s, a);
      assert Quiet(y, more) && y.bad(Run(y.do, y.do(s, a).s, more));
    }
  }

  /** As long as no cleanup falls inside a th_kill or a last show_thread of its handle, no run
      dereferences NULL. */
  lemma RunKeepsSteady(s: State, steps: seq<Step>)
    requires Steady(s) && NeverCuts(Faulting(), s, steps)
    ensures !Run(Do, s, steps).Fault?
    ensures Run(Do, s, steps).Next? ==> Steady(Run(Do, s, steps).s)
  {
    FaultingCuts();
    NeverCutsSound(Faulting(), s, steps);
  }

  /** Exactly when th_kill and th_exit's show_thread dereference NULL: a run leads to it if and only
      if some cleanup of the run falls inside such a call of its handle. */
  lemma FaultIff(s: State, steps: seq<Step>)
    requires Steady(s) && Run(Do, s, steps).Next?
    ensures Leads(Faulting(), s, steps) <==> !NeverCuts(Faulting(), s, steps)
  {
    FaultingCuts();
    LeadsIff(Faulting(), s, steps);
  }

  lemma InitSteady()
    ensures Steady(Init())
  {
  }

  // --------------------------------------------------- an input that does it

  /** A worker was killed before its late start and again is being killed after it, by thread 1; the
      first kill's cancellation has ended it, and its waiter has only the cleanup left. */
  function KilledAndWaited(pc: KillPc, lock: Option<Owner>): State {
    State(Init().slots[0 := Some(0)], [Rec(0, Running, Terminated, true, lock)], None,
          map[0 := Wait(0, true, true)], map[1 := Kill(0, 0, pc)])
  }

  lemma KilledAndWaitedStep(pc: KillPc, lock: Option<Owner>)
    requires pc.Fetch? || pc.Acquire? || pc.TestCancelled? || pc.TestFinished?
    requires lock == if pc.Fetch? || pc.Acquire? then None else Some(Killer(1))
    ensures Do(KilledAndWaited(pc, lock), KillStep(1)) == Next(
              match pc
              case Fetch => KilledAndWaited(Acquire, None)
              case Acquire => KilledAndWaited(TestCancelled, Some(Killer(1)))
              case TestCancelled => KilledAndWaited(TestFinished, lock)
              case TestFinished => KilledAndWaited(Cancel, lock))
  {
    var s := KilledAndWaited(pc, lock);
    assert RecordAt(s, 0) == Some(0) && s.recs[0 := s.recs[0]] == s.recs;
    assert forall k :: map[1 := Kill(0, 0, pc)][1 := k] == map[1 := k];
    assert forall r :: s.recs[0 := r] == [r];
  }

  /** A first record is published and killed while PENDING. */
  lemma KilledPending() returns (s: State)
    ensures Reaches(Do, Init(), s)
    ensures s == State(Init().slots[0 := Some(0)], [Rec(0, Cancelled, Created, true, None)], None, map[], map[])
  {
    ReachesSelf(Do, Init());
    ReachesOn(Do, Init(), Init(), Scan);
    var a := Init().(scan := Some(0));
    ReachesOn(Do, Init(), a, Publish);
    var b := Do(a, Publish).s;
    assert b.recs == [NewRec(0)] && RecordAt(b, 0) == Some(0);
    var n := WholeKill(b, 1, 0);
    s := WholeKilled(b, 0);
    ReachesRun(Do, Init(), b, [KillBegin(1, 0)] + KillSteps(1, n));
  }

  /** Slot 0 holds the one record, killed once. */
  function OneKilled(state: ThreadState, phase: Phase, waits: map<int, Wait>): State {
    State(Init().slots[0 := Some(0)], [Rec(0, state, phase, true, None)], None, waits, map[])
  }

  lemma OneKilledSteps(state: ThreadState, phase: Phase, waits: map<int, Wait>)
    ensures var s := OneKilled(state, phase, waits);
            && RecordAt(s, 0) == Some(0) && |s.slots| == MAX_THREADS
            && forall st, ph :: SetRec(s, 0, s.recs[0].(state := st, phase := ph)) == OneKilled(st, ph, waits)
  {
    assert forall r :: OneKilled(state, phase, waits).recs[0 := r] == [r];
  }

  /** ... starts late, is waited for, ends, and is shown by its waiter. */
  lemma KilledWaited() returns (s: State)
    ensures Reaches(Do, Init(), s) && s == OneKilled(Running, Terminated, map[0 := Wait(0, true, true)])
  {
    var a := KilledPending();
    OneKilledSteps(Cancelled, Created, map[]);
    assert a == OneKilled(Cancelled, Created, map[]);
    ReachesOn(Do, Init(), a, Start(0));
    OneKilledSteps(Running, InBody, map[]);
    ReachesOn(Do, Init(), OneKilled(Running, InBody, map[]), WaitBegin(0));
    var waits: map<int, Wait> := map[0 := Wait(0, true, false)];
    OneKilledSteps(Running, InBody, waits);
    ReachesOn(Do, Init(), OneKilled(Running, InBody, waits), DeliverCancel(0));
    ReachesOn(Do, Init(), OneKilled(Running, Terminated, waits), WaitShow(0));
    s := OneKilled(Running, Terminated, map[0 := Wait(0, true, true)]);
    assert waits[0 := Wait(0, true, true)] == s.waits;
  }

  lemma KillTests()
    ensures Reaches(Do, KilledAndWaited(Fetch, None), KilledAndWaited(Cancel, Some(Killer(1))))
  {
    var s := KilledAndWaited(Fetch, None);
    ReachesSelf(Do, s);
    KilledAndWaitedStep(Fetch, None);
    ReachesOn(Do, s, s, KillStep(1));
    KilledAndWaitedStep(Acquire, None);
    ReachesOn(Do, s, KilledAndWaited(Acquire, None), KillStep(1));
    KilledAndWaitedStep(TestCancelled, Some(Killer(1)));
    ReachesOn(Do, s, KilledAndWaited(TestCancelled, Some(Killer(1))), KillStep(1));
    KilledAndWaitedStep(TestFinished, Some(Killer(1)));
    ReachesOn(Do, s, KilledAndWaited(TestFinished, Some(Killer(1))), KillStep(1));
  }

  /** Under the rules for clients a run comes to a state in which the next step can be a cleanup that
      overtakes a deciding kill: the first kill of a worker is hidden by its late start, and its
      cancellation has ended the worker when a second kill passes its tests. */
  lemma OvertakenReachable() returns (s: State)
    ensures Reaches(Do, Init(), s) && Overtakes(s, WaitEnd(0))
  {
    var a := KilledWaited();
    ReachesOn(Do, Init(), a, KillBegin(1, 0));
    assert Do(a, KillBegin(1, 0)) == Next(KilledAndWaited(Fetch, None));
    s := KilledAndWaited(Cancel, Some(Killer(1)));
    KillTests();
    ReachesAll(Do, Init(), KilledAndWaited(Fetch, None), s);
    assert WillDecide(s, 1, 0);
  }
}
