/**
 The lock of a record in the transition system of `ThreadModel`: whom it keeps out, who has it when,
 and what it leaves undecided.
 */
module KillLocks {
  import opened Options
  import opened Runs
  import opened ThreadModel
  import opened KillModel
  import opened KillRaces

  // ------------------------------------------------------------ what it is

  /** A record's lock keeps out everyone but its owner: the exit of a worker, the two sections of a
      wait, a th_kill that has fetched it, and a last show_thread. */
  lemma LockExcludes(s: State, h: nat, q: nat, o: Owner)
    requires RecordAt(s, h) == Some(q) && s.recs[q].lock == Some(o)
    ensures forall r: nat :: r < |s.recs| && s.recs[r].handle == h ==> Do(s, Exit(r)).Blocked?
    ensures Do(s, WaitBegin(h)).Blocked?
    ensures h in s.waits && s.waits[h].rid == q ==> Do(s, WaitShow(h)).Blocked?
    ensures forall t :: t in s.kills && s.kills[t].pc.Acquire? && s.kills[t].rid == q && o != Killer(t) ==>
              Do(s, KillStep(t)).Blocked?
    ensures forall r: nat ::
              r < |s.recs| && s.recs[r].handle == h && s.recs[r].phase == Showing(SHOW_LOOKS) && o != Shower(r) ==>
                Do(s, Look(r)).Blocked?
  {
  }

  lemma KillStepLocks(s: State, t: nat, q: nat)
    requires Do(s, KillStep(t)).Next? && q < |s.recs|
    ensures |Do(s, KillStep(t)).s.recs| == |s.recs|
    ensures var before, after := s.recs[q].lock, Do(s, KillStep(t)).s.recs[q].lock;
            || after == before
            || (before == None && after == Some(Killer(t)))
            || (before == Some(Killer(t)) && after == None)
  {
  }

  /** Only a th_kill or a last show_thread takes a lock, when it is free, and only its owner gives it
      back. */
  lemma LockChanges(s: State, step: Step, q: nat)
    requires Inv(s) && Do(s, step).Next? && q < |s.recs|
    ensures q < |Do(s, step).s.recs|
    ensures var before, after := s.recs[q].lock, Do(s, step).s.recs[q].lock;
            before != after ==>
              exists o :: (if before.None? then after == Some(o) else before == Some(o) && after.None?)
                          && step == (if o.Killer? then KillStep(o.tid) else Look(o.rid))
  {
    if step.KillStep? {
      KillStepShape(s, step.tid);
      KillStepLocks(s, step.tid, q);
    } else if step.Look? {
      LookShape(s, step.rid);
      LookLocks(s, step.rid, q);
    } else if step.Exit? {
      ExitIsOwn(s, step.rid);
    }
  }

  // ------------------------------------------------------------- who has it

  /** The th_kill by `t` is past its acquisition, and the record in its slot is the one it fetched and
      has its lock. */
  predicate KillHolds(s: State, t: nat)
    requires t in s.kills
  {
    var k := s.kills[t];
    RecordAt(s, k.h) == Some(k.rid) && s.recs[k.rid].lock == Some(Killer(t))
  }

  /** The last show_thread of worker `r` finds its slot filled by a record whose lock it has. */
  predicate ShowHolds(s: State, r: nat)
    requires r < |s.recs|
  {
    var q := RecordAt(s, s.recs[r].handle);
    q.Some? && s.recs[q.value].lock == Some(Shower(r))
  }

  /** Every call between its acquisition and its release has the lock of the record in its slot. */
  predicate HoldersHold(s: State) {
    && (forall t :: t in s.kills && Holding(s.kills[t].pc) ==> KillHolds(s, t))
    && (forall r: nat :: r < |s.recs| && HoldsShow(s.recs[r]) ==> ShowHolds(s, r))
  }

  /** A lock stays with an owner that does not act. */
  lemma LockStays(s: State, step: Step, q: nat, o: Owner)
    requires Inv(s) && Do(s, step).Next? && q < |s.recs| && s.recs[q].lock == Some(o)
    requires step != if o.Killer? then KillStep(o.tid) else Look(o.rid)
    ensures q < |Do(s, step).s.recs| && Do(s, step).s.recs[q].lock == Some(o)
  {
    LockChanges(s, step, q);
  }

  lemma AcquiredHolds(s: State, t: nat)
    requires Steady(s) && t in s.kills && s.kills[t].pc.Acquire? && Do(s, KillStep(t)).Next?
    ensures t in Do(s, KillStep(t)).s.kills && KillHolds(Do(s, KillStep(t)).s, t)
  {
    assert !Stuck(s, t);
    assert SlotHeld(s, t);
  }

  lemma OwnKillHolds(s: State, t: nat)
    requires Steady(s) && HoldersHold(s) && Do(s, KillStep(t)).Next?
    requires t in Do(s, KillStep(t)).s.kills && Holding(Do(s, KillStep(t)).s.kills[t].pc)
    ensures KillHolds(Do(s, KillStep(t)).s, t)
  {
    KillStepShape(s, t);
    if s.kills[t].pc.Acquire? {
      AcquiredHolds(s, t);
    } else {
      assert KillHolds(s, t);
    }
  }

  lemma KillStillHolds(s: State, step: Step, t: nat)
    requires Steady(s) && HoldersHold(s) && !Cuts(s, step) && Do(s, step).Next?
    requires t in Do(s, step).s.kills && Holding(Do(s, step).s.kills[t].pc)
    ensures KillHolds(Do(s, step).s, t)
  {
    if step == KillStep(t) {
      OwnKillHolds(s, t);
    } else if t !in s.kills {
      if step.KillStep? {
        KillStepShape(s, step.tid);
      } else if step.Look? {
        LookShape(s, step.rid);
      }
    } else {
      OtherCallStays(s, step, t);
      assert KillHolds(s, t) && !Stuck(s, t);
      StepKeepsSlot(s, step, s.kills[t].h);
      LockStays(s, step, s.kills[t].rid, Killer(t));
    }
  }

  /** A worker comes into its last show_thread's section by taking the lock there. */
  lemma OwnShowHolds(s: State, r: nat)
    requires Steady(s) && HoldersHold(s) && Do(s, Look(r)).Next?
    requires r < |Do(s, Look(r)).s.recs| && HoldsShow(Do(s, Look(r)).s.recs[r])
    ensures ShowHolds(Do(s, Look(r)).s, r)
  {
    LookShape(s, r);
  }

  lemma ShowBefore(s: State, step: Step, r: nat)
    requires Inv(s) && Do(s, step).Next? && r < |Do(s, step).s.recs| && HoldsShow(Do(s, step).s.recs[r])
    requires step != Look(r)
    ensures r < |s.recs| && HoldsShow(s.recs[r]) && Do(s, step).s.recs[r].handle == s.recs[r].handle
  {
    if step.KillStep? {
      KillStepShape(s, step.tid);
      assert Killed(s.recs[r], Do(s, step).s.recs[r]);
    } else if step.Look? {
      LookShape(s, step.rid);
      assert LookedAt(s.recs[r], Do(s, step).s.recs[r], false);
    } else if step.Exit? {
      ExitIsOwn(s, step.rid);
    }
  }

  lemma ShowStillHolds(s: State, step: Step, r: nat)
    requires Steady(s) && HoldersHold(s) && !Cuts(s, step) && Do(s, step).Next?
    requires r < |Do(s, step).s.recs| && HoldsShow(Do(s, step).s.recs[r])
    ensures ShowHolds(Do(s, step).s, r)
  {
    if step == Look(r) {
      OwnShowHolds(s, r);
    } else {
      ShowBefore(s, step, r);
      assert ShowHolds(s, r) && Looking(s.recs[r]);
      StepKeepsSlot(s, step, s.recs[r].handle);
      LockStays(s, step, RecordAt(s, s.recs[r].handle).value, Shower(r));
    }
  }

  lemma StepKeepsHolders(s: State, step: Step)
    requires Steady(s) && HoldersHold(s) && !Cuts(s, step) && Do(s, step).Next?
    ensures HoldersHold(Do(s, step).s)
  {
    var u := Do(s, step).s;
    forall t | t in u.kills && Holding(u.kills[t].pc) ensures KillHolds(u, t) {
      KillStillHolds(s, step, t);
    }
    forall r: nat | r < |u.recs| && HoldsShow(u.recs[r]) ensures ShowHolds(u, r) {
      ShowStillHolds(s, step, r);
    }
  }

  lemma {:induction false} RunKeepsHolders(s: State, steps: seq<Step>)
    requires Steady(s) && HoldersHold(s) && NeverCuts(Faulting(), s, steps) && Run(Do, s, steps).Next?
    ensures Steady(Run(Do, s, steps).s) && HoldersHold(Run(Do, s, steps).s)
    decreases |steps|
  {
    if steps != [] {
      StepKeepsSteady(s, steps[0]);
      StepKeepsHolders(s, steps[0]);
      RunKeepsHolders(Do(s, steps[0]).s, steps[1..]);
    }
  }

  /** Who has the lock of a record in its slot, in every run in which no cleanup falls inside another
      call: a th_kill exactly from its acquisition to its release, and a last show_thread likewise,
      except that a worker cancelled in its midst keeps it for good. */
  lemma OwnersAreHolders(steps: seq<Step>, h: nat, q: nat, t: nat, r: nat)
    requires NeverCuts(Faulting(), Init(), steps) && Run(Do, Init(), steps).Next?
    requires RecordAt(Run(Do, Init(), steps).s, h) == Some(q)
    ensures var s := Run(Do, Init(), steps).s;
            && (s.recs[q].lock == Some(Killer(t)) <==> t in s.kills && s.kills[t].h == h && Holding(s.kills[t].pc))
            && (r < |s.recs| && HoldsShow(s.recs[r]) && s.recs[r].handle == h ==> s.recs[q].lock == Some(Shower(r)))
            && (s.recs[q].lock == Some(Shower(r)) ==>
                  r < |s.recs| && s.recs[r].handle == h && (HoldsShow(s.recs[r]) || s.recs[r].phase.Terminated?))
  {
    InitSteady();
    RunKeepsHolders(Init(), steps);
    var s := Run(Do, Init(), steps).s;
    assert LockOk(s, q);
    if t in s.kills && s.kills[t].h == h && Holding(s.kills[t].pc) {
      assert KillHolds(s, t);
    }
    if r < |s.recs| && HoldsShow(s.recs[r]) && s.recs[r].handle == h {
      assert ShowHolds(s, r);
    }
  }

  // ---------------------------------------------------- what it leaves alone

  /** While it is held the record's state is its owner's to change, but for the late start. */
  lemma LockedStateStays(s: State, step: Step, h: nat, q: nat, o: Owner)
    requires Settled(s) && Do(s, step).Next? && RecordAt(s, h) == Some(q) && s.recs[q].lock == Some(o)
    requires Do(s, step).s.recs[q].state != s.recs[q].state
    ensures step == Start(q) || (o.Killer? && step == KillStep(o.tid))
  {
    if step.Exit? {
      ExitIsOwn(s, step.rid);
    } else if step.KillStep? {
      MarkOnlyUndecided(s, step.tid);
      assert DecideOk(s, step.tid);
    } else if step.Look? {
      LookShape(s, step.rid);
    }
  }

  /** The th_kill by `t` of handle `h` is between its acquisition and its write. */
  predicate Decides(s: State, t: nat, h: int) {
    t in s.kills && s.kills[t].h == h && Deciding(s.kills[t].pc)
  }

  /** Some step of the run is the acquisition of that th_kill. */
  ghost predicate Acquires(s: State, steps: seq<Step>, t: nat, h: int)
    decreases |steps|
  {
    steps != [] && Do(s, steps[0]).Next? &&
    (|| (steps[0] == KillStep(t) && t in s.kills && s.kills[t].h == h && s.kills[t].pc.Acquire?)
     || Acquires(Do(s, steps[0]).s, steps[1..], t, h))
  }

  lemma DecidesAfter(s: State, step: Step, t: nat, h: int)
    requires Do(s, step).Next? && Decides(Do(s, step).s, t, h) && !Decides(s, t, h)
    ensures step == KillStep(t) && t in s.kills && s.kills[t].h == h && s.kills[t].pc.Acquire?
  {
    if step.KillStep? {
      KillStepShape(s, step.tid);
    } else if step.Look? {
      LookShape(s, step.rid);
    }
  }

  lemma {:induction false} DecidesByAcquiring(s: State, steps: seq<Step>, t: nat, h: int)
    requires Run(Do, s, steps).Next? && Decides(Run(Do, s, steps).s, t, h) && !Decides(s, t, h)
    ensures Acquires(s, steps, t, h)
    decreases |steps|
  {
    var u := Do(s, steps[0]).s;
    if Decides(u, t, h) {
      DecidesAfter(s, steps[0], t, h);
    } else {
      DecidesByAcquiring(u, steps[1..], t, h);
    }
  }

  /** th_wait shows the record with its lock between its join and its cleanup. So a th_kill of that
      handle that is deciding when the cleanup comes has taken the lock after that show. */
  lemma TakenAfterShow(s: State, steps: seq<Step>, t: nat, h: int)
    requires Settled(s) && Do(s, WaitShow(h)).Next? && Run(Do, Do(s, WaitShow(h)).s, steps).Next?
    requires Decides(Run(Do, Do(s, WaitShow(h)).s, steps).s, t, h)
    ensures Acquires(Do(s, WaitShow(h)).s, steps, t, h)
  {
    DecidesByAcquiring(Do(s, WaitShow(h)).s, steps, t, h);
  }

  // --------------------------------------------------------- how workers end

  /** A thread is asked to cancel only by a th_kill that finds its record in its slot. */
  lemma AskedByKill(s: State, step: Step, r: nat)
    requires Inv(s) && Do(s, step).Next? && r < |s.recs|
    ensures r < |Do(s, step).s.recs| && (s.recs[r].cancelAsked ==> Do(s, step).s.recs[r].cancelAsked)
    ensures Do(s, step).s.recs[r].cancelAsked && !s.recs[r].cancelAsked ==>
              step.KillStep? && step.tid in s.kills && s.kills[step.tid].pc.Cancel?
              && RecordAt(s, s.kills[step.tid].h) == Some(r)
  {
    if step.Exit? {
      ExitIsOwn(s, step.rid);
    } else if step.Look? {
      LookShape(s, step.rid);
      assert LookedAt(s.recs[r], Do(s, step).s.recs[r], r == step.rid);
    }
  }

  /** A CANCELLED record's thread has been asked to cancel, and so has that of a kill about to write. */
  predicate CancelledAsked(s: State) {
    && (forall r: nat :: r < |s.recs| && s.recs[r].state.Cancelled? ==> s.recs[r].cancelAsked)
    && (forall t :: t in s.kills && s.kills[t].pc.Mark? && s.kills[t].rid < |s.recs| ==>
          s.recs[s.kills[t].rid].cancelAsked)
  }

  lemma RecordStaysAsked(s: State, step: Step, r: nat)
    requires Settled(s) && CancelledAsked(s) && Do(s, step).Next?
    requires r < |Do(s, step).s.recs| && Do(s, step).s.recs[r].state.Cancelled?
    ensures Do(s, step).s.recs[r].cancelAsked
  {
    if r < |s.recs| {
      AskedByKill(s, step, r);
      if step.Exit? {
        ExitIsOwn(s, step.rid);
      } else if step.KillStep? {
        assert DecideOk(s, step.tid);
      } else if step.Look? {
        LookShape(s, step.rid);
        assert LookedAt(s.recs[r], Do(s, step).s.recs[r], r == step.rid);
      }
    }
  }

  lemma MarkAfter(s: State, step: Step, t: nat)
    requires Do(s, step).Next? && t in Do(s, step).s.kills && Do(s, step).s.kills[t].pc.Mark?
    ensures t in s.kills && Do(s, step).s.kills[t].rid == s.kills[t].rid
    ensures s.kills[t].pc.Mark? || (step == KillStep(t) && s.kills[t].pc.Cancel?)
  {
    if step.KillStep? {
      KillStepShape(s, step.tid);
    } else if step.Look? {
      LookShape(s, step.rid);
    }
  }

  lemma StepKeepsAsked(s: State, step: Step)
    requires Settled(s) && CancelledAsked(s) && !Overtakes(s, step) && Do(s, step).Next?
    ensures CancelledAsked(Do(s, step).s)
  {
    var u := Do(s, step).s;
    forall r: nat | r < |u.recs| && u.recs[r].state.Cancelled? ensures u.recs[r].cancelAsked {
      RecordStaysAsked(s, step, r);
    }
    forall t | t in u.kills && u.kills[t].pc.Mark? && u.kills[t].rid < |u.recs|
      ensures u.recs[u.kills[t].rid].cancelAsked
    {
      MarkAfter(s, step, t);
      assert DecideOk(s, t);
      AskedByKill(s, step, s.kills[t].rid);
    }
  }

  /** CANCELLED means cancelled: over every run in which no cleanup overtakes a deciding kill, a record
      with that state belongs to a thread that pthread_cancel was called for. */
  lemma {:induction false} CancelledMeansAsked(s: State, steps: seq<Step>)
    requires Settled(s) && CancelledAsked(s) && NeverCuts(Overtaking(), s, steps) && Run(Do, s, steps).Next?
    ensures CancelledAsked(Run(Do, s, steps).s)
    decreases |steps|
  {
    if steps != [] {
      StepKeepsSettled(s, steps[0]);
      StepKeepsAsked(s, steps[0]);
      CancelledMeansAsked(Do(s, steps[0]).s, steps[1..]);
    }
  }

  lemma LeavesBody(s: State, step: Step, r: nat)
    requires Inv(s) && Do(s, step).Next? && r < |s.recs| && Live(s.recs[r])
    ensures r < |Do(s, step).s.recs|
    ensures !Live(Do(s, step).s.recs[r]) ==>
              step == Exit(r) || (Do(s, step).s.recs[r].phase.Terminated? && Do(s, step).s.recs[r].cancelAsked)
  {
    if step.Exit? {
      ExitIsOwn(s, step.rid);
    } else if step.KillStep? {
      KillStepShape(s, step.tid);
      assert Killed(s.recs[r], Do(s, step).s.recs[r]);
    } else if step.Look? {
      LookShape(s, step.rid);
      assert LookedAt(s.recs[r], Do(s, step).s.recs[r], r == step.rid);
    }
  }

  lemma {:induction false} AskedStays(s: State, steps: seq<Step>, r: nat)
    requires Inv(s) && Run(Do, s, steps).Next? && r < |s.recs| && s.recs[r].cancelAsked
    ensures r < |Run(Do, s, steps).s.recs| && Run(Do, s, steps).s.recs[r].cancelAsked
    decreases |steps|
  {
    if steps != [] {
      StepKeepsInv(s, steps[0]);
      AskedByKill(s, steps[0], r);
      AskedStays(Do(s, steps[0]).s, steps[1..], r);
    }
  }

  /** Over every run a worker stops running the client's function only by its own exit, or because a
      th_kill has cancelled it. */
  lemma {:induction false} WorkerEndsBy(s: State, steps: seq<Step>, r: nat)
    requires Inv(s) && Run(Do, s, steps).Next? && r < |s.recs| && Live(s.recs[r])
    ensures r < |Run(Do, s, steps).s.recs|
    ensures !Live(Run(Do, s, steps).s.recs[r]) ==> Exit(r) in steps || Run(Do, s, steps).s.recs[r].cancelAsked
    decreases |steps|
  {
    if steps != [] {
      var u := Do(s, steps[0]).s;
      StepKeepsInv(s, steps[0]);
      LeavesBody(s, steps[0], r);
      if Live(u.recs[r]) {
        WorkerEndsBy(u, steps[1..], r);
      } else {
        TerminatedStays(u, steps[1..], r);
        if u.recs[r].cancelAsked {
          AskedStays(u, steps[1..], r);
        }
      }
    }
  }

  function Ended(rec: Rec): Rec {
    rec.(state := Finished, phase := Terminated)
  }

  /** The rest of a last show_thread, its lock free or its own, and its end. */
  lemma {:induction false} ShowsOut(s: State, r: nat) returns (steps: seq<Step>)
    requires r < |s.recs| && RecordAt(s, s.recs[r].handle) == Some(r) && s.recs[r].phase.Showing?
    requires s.recs[r].phase.left <= SHOW_LOOKS && s.recs[r].state.Finished?
    requires s.recs[r].lock == if HoldsShow(s.recs[r]) then Some(Shower(r)) else None
    ensures Run(Do, s, steps) == Next(SetRec(s, r, Ended(s.recs[r]).(lock := None)))
    decreases s.recs[r].phase.left
  {
    var rec := s.recs[r];
    if rec.phase.left == 0 {
      steps := [Leave(r)];
      RunOne(Do, s, Leave(r));
    } else {
      var lock := if rec.phase.left == 1 then None else Some(Shower(r));
      var u := SetRec(s, r, rec.(phase := Showing(rec.phase.left - 1), lock := lock));
      var looked := rec.(phase := Showing(rec.phase.left - 1));
      assert s.recs[r := looked][r := u.recs[r]] == s.recs[r := u.recs[r]];
      assert Do(s, Look(r)) == Next(u);
      var rest := ShowsOut(u, r);
      RunCons(Do, s, Look(r), rest);
      steps := [Look(r)] + rest;
      assert SetRec(u, r, Ended(rec).(lock := None)) == SetRec(s, r, Ended(rec).(lock := None));
    }
  }

  /** Left alone, with its lock free, a worker that is not killed comes to its end: FINISHED, with its
      pthread gone and its lock free. */
  lemma WorkerRunsOut(s: State, r: nat) returns (steps: seq<Step>)
    requires Inv(s) && r < |s.recs| && s.recs[r].phase.InBody? && s.recs[r].lock.None?
    ensures Run(Do, s, steps) == Next(SetRec(s, r, Ended(s.recs[r])))
  {
    var rec := s.recs[r];
    assert Live(rec) && RecordAt(s, rec.handle) == Some(r);
    ExitIsOwn(s, r);
    var a := SetRec(s, r, rec.(state := Finished, phase := Exiting));
    var b := SetRec(s, r, rec.(state := Finished, phase := Showing(SHOW_LOOKS)));
    assert Do(a, Look(r)) == Next(b) by {
      assert a.recs[r := b.recs[r]] == b.recs;
    }
    var rest := ShowsOut(b, r);
    RunCons(Do, a, Look(r), rest);
    RunCons(Do, s, Exit(r), [Look(r)] + rest);
    steps := [Exit(r)] + ([Look(r)] + rest);
    assert SetRec(b, r, Ended(rec)) == SetRec(s, r, Ended(rec));
  }
}
