/**
 The thread manager of src/lib/thread_mgr/thread_mgr.c as a transition system: the 50-slot handle
 table, the records and where each worker's pthread is, and the calls in progress. Steps of
 different threads interleave freely. Most steps are one locked section of the source. th_kill and
 the show_thread of an exiting worker are finer: they go through Threads[th] again and again while
 they hold only the record's lock, and a cleanup, which takes StoreLock, may empty or refill that
 slot in between; so each of their looks through the slot is a step. th_wait itself is three steps:
 its first section; the end of its join, with the show_thread that follows, which waits for the
 record's lock; and its cleanup. Only the one waiter of a handle empties its slot, so it finds one
 record throughout.

 The rules for clients that the source relies on are the places where a step is `Blocked`: calls of
 th_execute are serialised (its search and its publish are two sections), and a handle has at most
 one waiter, which is never the worker itself (a join only returns once the worker has terminated).
 pthread_create and malloc succeed.
 */
module ThreadModel {
  import opened Options
  import opened Runs

  const MAX_THREADS: nat := 50

  /** How often show_thread looks through its slot after its check. */
  const SHOW_LOOKS: nat := 6

  datatype ThreadState = Pending | Running | Cancelled | Finished

  /** Created: before the locked section of func_decorator. InBody: running the given function.
      Exiting: after th_exit has set FINISHED. Showing: in th_exit's show_thread, past its check,
      with `left` looks to go. Terminated: a join returns. */
  datatype Phase = Created | InBody | Exiting | Showing(left: nat) | Terminated

  /** Who keeps a record's lock from one step to the next: a th_kill by a thread, or the last
      show_thread of the worker of a record. */
  datatype Owner = Killer(tid: nat) | Shower(rid: nat)

  datatype Rec = Rec(handle: nat, state: ThreadState, phase: Phase, cancelAsked: bool, lock: Option<Owner>)

  /** A th_wait between its first section and its cleanup; it skips the join of a FINISHED thread.
      `shown`: it is past its join and the show_thread after that. */
  datatype Wait = Wait(rid: nat, joins: bool, shown: bool)

  /** What a th_kill does next, after its check: fetch the lock of the record in the slot, take it,
      the two tests, pthread_cancel, the write of CANCELLED, show_thread, the release. */
  datatype KillPc =
    | Fetch
    | Acquire
    | TestCancelled
    | TestFinished
    | Cancel
    | Mark
    | ShowCheck
    | Show(left: nat)
    | Release

  /** A th_kill in progress; from Acquire on, `rid` is the record whose lock it fetched. */
  datatype Kill = Kill(h: nat, rid: nat, pc: KillPc)

  /** `slots` is Threads[]; a record is named by its place in `recs`, in order of creation; `scan`
      is the handle a th_execute has found and not yet published; `waits` is by handle, `kills` by
      the calling thread. */
  datatype State = State(slots: seq<Option<nat>>, recs: seq<Rec>, scan: Option<nat>,
                         waits: map<int, Wait>, kills: map<nat, Kill>)

  datatype Step =
    | Scan
    | Publish
    | Start(rid: nat)
    | Exit(rid: nat)
    | Look(rid: nat)            // the show_thread of an exiting worker goes on
    | DeliverCancel(rid: nat)
    | Leave(rid: nat)
    | KillBegin(tid: nat, h: int)
    | KillStep(tid: nat)
    | WaitBegin(h: int)
    | WaitShow(h: int)          // the join ends and the waiter shows the record
    | WaitEnd(h: int)
    | WaitAbandon(h: int)

  /** First free slot from `i` on, or the number of slots. */
  function LowestFree(slots: seq<Option<nat>>, i: nat): (h: nat)
    requires i <= |slots|
    ensures i <= h <= |slots|
    ensures h < |slots| ==> slots[h].None?
    ensures forall j :: i <= j < h ==> slots[j].Some?
    decreases |slots| - i
  {
    if i == |slots| || slots[i].None? then i else LowestFree(slots, i + 1)
  }

  /** The record in the slot of a handle; None for a bad handle or an empty slot. */
  function RecordAt(s: State, h: int): (r: Option<nat>)
    ensures r.Some? ==> 0 <= h < |s.slots| && r.value < |s.recs| && s.slots[h] == r
  {
    if 0 <= h < |s.slots| && s.slots[h].Some? && s.slots[h].value < |s.recs| then s.slots[h] else None
  }

  function SetRec(s: State, r: nat, rec: Rec): State
    requires r < |s.recs|
  {
    s.(recs := s.recs[r := rec])
  }

  function SetKill(s: State, t: nat, k: Kill): State {
    s.(kills := s.kills[t := k])
  }

  /** One look of a th_kill through its slot, which holds record `q`. */
  function KillLook(s: State, t: nat, q: nat): State
    requires t in s.kills && !s.kills[t].pc.Acquire? && q < |s.recs|
  {
    var k, rec := s.kills[t], s.recs[q];
    match k.pc
    case Fetch => SetKill(s, t, k.(rid := q, pc := Acquire))
    case TestCancelled => SetKill(s, t, k.(pc := if rec.state.Cancelled? then ShowCheck else TestFinished))
    case TestFinished => SetKill(s, t, k.(pc := if rec.state.Finished? then ShowCheck else Cancel))
    case Cancel => SetKill(SetRec(s, q, rec.(cancelAsked := true)), t, k.(pc := Mark))
    case Mark => SetKill(SetRec(s, q, rec.(state := Cancelled)), t, k.(pc := ShowCheck))
    case ShowCheck => SetKill(s, t, k.(pc := Show(SHOW_LOOKS)))
    case Show(left) => SetKill(s, t, k.(pc := if left <= 1 then Release else Show(left - 1)))
    case Release =>
      // unlocking a lock it does not own only returns an error
      var t' := if rec.lock == Some(Killer(t)) then SetRec(s, q, rec.(lock := None)) else s;
      t'.(kills := s.kills - {t})
  }

  predicate MayTake(rec: Rec, o: Owner) {
    rec.lock.None? || rec.lock == Some(o)
  }

  function DoKill(s: State, t: nat): Outcome<State> {
    if t !in s.kills then Blocked
    else
      var k := s.kills[t];
      if k.pc.Acquire? then
        // the pointer was read at Fetch; the lock may be held by another
        if k.rid < |s.recs| && MayTake(s.recs[k.rid], Killer(t))
        then Next(SetKill(SetRec(s, k.rid, s.recs[k.rid].(lock := Some(Killer(t)))), t, k.(pc := TestCancelled)))
        else Blocked
      else match RecordAt(s, k.h)
        case Some(q) => Next(KillLook(s, t, q))
        case None => if k.pc.ShowCheck? then Next(SetKill(s, t, k.(pc := Release))) else Fault
  }

  /** th_exit's FINISHED, through Threads[th] and not through the worker's own pointer. */
  function DoExit(s: State, r: nat): Outcome<State> {
    if !(r < |s.recs| && s.recs[r].phase.InBody?) then Blocked
    else match RecordAt(s, s.recs[r].handle)
      case None => Fault
      case Some(q) =>
        if s.recs[q].lock.Some? then Blocked
        else
          var t := SetRec(s, r, s.recs[r].(phase := Exiting));
          Next(SetRec(t, q, t.recs[q].(state := Finished)))
  }

  /** One look of the last show_thread of worker `r` through its slot, which holds record `q`: the
      first takes its lock, the last releases the lock of the record then there. */
  function ShowLook(s: State, r: nat, q: nat): Outcome<State>
    requires r < |s.recs| && s.recs[r].phase.Showing? && 0 < s.recs[r].phase.left && q < |s.recs|
  {
    var left := s.recs[r].phase.left;
    var s' := SetRec(s, r, s.recs[r].(phase := Showing(left - 1)));
    if left == SHOW_LOOKS then
      if MayTake(s.recs[q], Shower(r)) then Next(SetRec(s', q, s'.recs[q].(lock := Some(Shower(r))))) else Blocked
    else if left == 1 && s.recs[q].lock == Some(Shower(r)) then Next(SetRec(s', q, s'.recs[q].(lock := None)))
    else Next(s')
  }

  function DoLook(s: State, r: nat): Outcome<State> {
    if r < |s.recs| && s.recs[r].phase.Exiting? then
      var seen := RecordAt(s, s.recs[r].handle).Some?;
      Next(SetRec(s, r, s.recs[r].(phase := Showing(if seen then SHOW_LOOKS else 0))))
    else if r < |s.recs| && s.recs[r].phase.Showing? && 0 < s.recs[r].phase.left then
      match RecordAt(s, s.recs[r].handle)
      case Some(q) => ShowLook(s, r, q)
      case None => Fault
    else Blocked
  }

  function NewRec(h: nat): Rec {
    Rec(h, Pending, Created, false, None)
  }

  predicate Cancellable(p: Phase) {
    p.InBody? || p.Exiting? || p.Showing?
  }

  function Do(s: State, step: Step): Outcome<State> {
    match step
    case Scan =>
      if s.scan.Some? then Blocked
      else
        var h := LowestFree(s.slots, 0);
        Next(if h == |s.slots| then s else s.(scan := Some(h)))
    case Publish =>
      if s.scan.None? || |s.slots| <= s.scan.value then Blocked
      else
        var h := s.scan.value;
        Next(s.(slots := s.slots[h := Some(|s.recs|)], recs := s.recs + [NewRec(h)], scan := None))
    case Start(r) =>
      if r < |s.recs| && s.recs[r].phase.Created?
      then Next(SetRec(s, r, s.recs[r].(state := Running, phase := InBody)))
      else Blocked
    case Exit(r) => DoExit(s, r)
    case Look(r) => DoLook(s, r)
    case DeliverCancel(r) =>
      // cancellation is off in func_decorator, and show_thread's log_event is a cancellation point
      if r < |s.recs| && Cancellable(s.recs[r].phase) && s.recs[r].cancelAsked
      then Next(SetRec(s, r, s.recs[r].(phase := Terminated)))
      else Blocked
    case Leave(r) =>
      if r < |s.recs| && s.recs[r].phase == Showing(0)
      then Next(SetRec(s, r, s.recs[r].(phase := Terminated)))
      else Blocked
    case KillBegin(t, h) =>
      if t in s.kills then Blocked
      else if RecordAt(s, h).None? then Next(s)
      else Next(SetKill(s, t, Kill(h, RecordAt(s, h).value, Fetch)))
    case KillStep(t) => DoKill(s, t)
    case WaitBegin(h) =>
      if RecordAt(s, h).None? then Next(s)
      else
        var r := RecordAt(s, h).value;
        if h in s.waits || s.recs[r].lock.Some? then Blocked
        else Next(s.(waits := s.waits[h := Wait(r, !s.recs[r].state.Finished?, false)]))
    case WaitShow(h) =>
      if h !in s.waits || s.waits[h].shown || |s.recs| <= s.waits[h].rid then Blocked
      else
        var w := s.waits[h];
        if (w.joins && !s.recs[w.rid].phase.Terminated?) || s.recs[w.rid].lock.Some? then Blocked
        else Next(s.(waits := s.waits[h := w.(shown := true)]))
    case WaitEnd(h) =>
      if h !in s.waits || h < 0 || |s.slots| <= h || !s.waits[h].shown then Blocked
      else Next(s.(slots := s.slots[h := None], waits := s.waits - {h}))
    case WaitAbandon(h) =>
      // a waiter that is itself cancelled in its join
      Next(s.(waits := s.waits - {h}))
  }

  function Init(): (s: State)
    ensures |s.slots| == MAX_THREADS && forall h :: 0 <= h < MAX_THREADS ==> s.slots[h].None?
  {
    State(seq(MAX_THREADS, i => None), [], None, map[], map[])
  }

  // -------------------------------------------------------------- invariant

  /** The worker may still run the client's function. */
  predicate Live(rec: Rec) {
    rec.phase.Created? || rec.phase.InBody?
  }

  /** A th_kill that a cleanup overtakes may write CANCELLED into any record. */
  predicate RecOk(rec: Rec) {
    && rec.handle < MAX_THREADS
    && match rec.phase
       case Created => rec.state.Pending? || rec.state.Cancelled?
       case InBody => rec.state.Running? || rec.state.Cancelled?
       case Exiting => rec.state.Finished? || rec.state.Cancelled?
       case Showing(_) => rec.state.Finished? || rec.state.Cancelled?
       case Terminated => !rec.state.Pending?
  }

  predicate SlotsOk(s: State) {
    && |s.slots| == MAX_THREADS
    && forall h :: 0 <= h < |s.slots| && s.slots[h].Some? ==>
         s.slots[h].value < |s.recs| && s.recs[s.slots[h].value].handle == h
  }

  /** From publish until the worker sets FINISHED or terminates, the slot of its handle holds its
      own record. */
  predicate Owned(s: State) {
    forall r :: 0 <= r < |s.recs| && Live(s.recs[r]) ==>
      s.recs[r].handle < |s.slots| && s.slots[s.recs[r].handle] == Some(r)
  }

  predicate WaitsOk(s: State) {
    forall h :: h in s.waits ==>
      && 0 <= h < |s.slots| && s.slots[h] == Some(s.waits[h].rid) && s.waits[h].rid < |s.recs|
      && (if s.waits[h].joins then s.waits[h].shown ==> s.recs[s.waits[h].rid].phase.Terminated?
          else !Live(s.recs[s.waits[h].rid]))
  }

  predicate CallsOk(s: State) {
    && (s.scan.Some? ==> s.scan.value < |s.slots| && s.slots[s.scan.value].None?)
    && WaitsOk(s)
    && forall t :: t in s.kills ==>
         s.kills[t].h < |s.slots| && s.kills[t].rid < |s.recs| && s.recs[s.kills[t].rid].handle == s.kills[t].h
  }

  /** What every run keeps, whatever its threads do at the same time. */
  predicate Inv(s: State) {
    && SlotsOk(s) && Owned(s) && CallsOk(s)
    && forall r :: 0 <= r < |s.recs| ==> RecOk(s.recs[r])
  }

  /** Updating a record in place, short of reviving its worker. */
  lemma SetRecKeepsInv(s: State, r: nat, rec: Rec)
    requires Inv(s) && r < |s.recs|
    requires rec.handle == s.recs[r].handle && RecOk(rec)
    requires (Live(rec) ==> Live(s.recs[r])) && (s.recs[r].phase.Terminated? ==> rec.phase.Terminated?)
    ensures Inv(SetRec(s, r, rec))
  {
  }

  lemma PublishKeepsInv(s: State)
    requires Inv(s) && Do(s, Publish).Next?
    ensures Inv(Do(s, Publish).s)
  {
  }

  lemma CallKeepsInv(s: State, step: Step)
    requires step.Scan? || step.WaitBegin? || step.WaitShow? || step.WaitEnd? || step.WaitAbandon?
    requires Inv(s) && Do(s, step).Next?
    ensures Inv(Do(s, step).s)
  {
    match step
    case WaitBegin(h) =>
      if RecordAt(s, h).Some? {
        assert RecOk(s.recs[RecordAt(s, h).value]);
      }
    case WaitShow(h) => assert RecOk(s.recs[s.waits[h].rid]);
    case WaitEnd(h) =>
      var r := s.waits[h].rid;
      assert RecOk(s.recs[r]) && s.recs[r].handle == h && !Live(s.recs[r]);
    case _ =>
  }

  /** Exit acts on the worker's own record, and waits only for its lock. */
  lemma ExitIsOwn(s: State, r: nat)
    requires Inv(s) && r < |s.recs| && s.recs[r].phase.InBody?
    ensures Do(s, Exit(r)) == if s.recs[r].lock.Some? then Blocked
                              else Next(SetRec(s, r, s.recs[r].(state := Finished, phase := Exiting)))
  {
    assert Live(s.recs[r]) && RecordAt(s, s.recs[r].handle) == Some(r);
    var exiting := s.recs[r].(phase := Exiting);
    assert s.recs[r := exiting][r := exiting.(state := Finished)] == s.recs[r := exiting.(state := Finished)];
  }

  /** All that a step of a th_kill may change of a record. */
  predicate Killed(before: Rec, after: Rec) {
    && after == before.(state := after.state, cancelAsked := after.cancelAsked, lock := after.lock)
    && (after.state == before.state || after.state.Cancelled?)
  }

  lemma KillStepShape(s: State, t: nat)
    requires Do(s, KillStep(t)).Next?
    ensures var u := Do(s, KillStep(t)).s;
            && u == s.(recs := u.recs, kills := u.kills) && |u.recs| == |s.recs|
            && (forall r :: 0 <= r < |s.recs| ==> Killed(s.recs[r], u.recs[r]))
            && (u.kills == s.kills - {t} || (t in u.kills && u.kills == s.kills[t := u.kills[t]]))
            && (t in u.kills ==> u.kills[t].h == s.kills[t].h)
            && (t in u.kills ==> u.kills[t].rid == s.kills[t].rid || u.kills[t].rid < |s.recs|)
  {
  }

  /** Its record is one of its handle. */
  lemma KillHandleOk(s: State, t: nat)
    requires SlotsOk(s) && CallsOk(s) && Do(s, KillStep(t)).Next?
    ensures var u := Do(s, KillStep(t)).s;
            t in u.kills ==> u.kills[t].rid < |s.recs| && s.recs[u.kills[t].rid].handle == s.kills[t].h
  {
  }

  lemma KillKeepsInv(s: State, t: nat)
    requires Inv(s) && Do(s, KillStep(t)).Next?
    ensures Inv(Do(s, KillStep(t)).s)
  {
    KillStepShape(s, t);
    var u := Do(s, KillStep(t)).s;
    forall r | 0 <= r < |u.recs|
      ensures RecOk(u.recs[r]) && u.recs[r].phase == s.recs[r].phase && u.recs[r].handle == s.recs[r].handle
    {
      assert RecOk(s.recs[r]) && Killed(s.recs[r], u.recs[r]);
    }
    KillHandleOk(s, t);
  }

  /** All that a look of a last show_thread may change of a record. */
  predicate LookedAt(before: Rec, after: Rec, own: bool) {
    && after == before.(phase := after.phase, lock := after.lock)
    && (own ==> (before.phase.Exiting? || before.phase.Showing?) && after.phase.Showing?)
    && (!own ==> after.phase == before.phase)
  }

  lemma LookShape(s: State, r: nat)
    requires Do(s, Look(r)).Next?
    ensures var u := Do(s, Look(r)).s;
            && r < |s.recs| == |u.recs| && u == s.(recs := u.recs)
            && forall q :: 0 <= q < |s.recs| ==> LookedAt(s.recs[q], u.recs[q], q == r)
  {
  }

  lemma LookKeepsInv(s: State, r: nat)
    requires Inv(s) && Do(s, Look(r)).Next?
    ensures Inv(Do(s, Look(r)).s)
  {
    LookShape(s, r);
    var u := Do(s, Look(r)).s;
    forall q | 0 <= q < |u.recs| ensures RecOk(u.recs[q]) && (Live(u.recs[q]) <==> Live(s.recs[q])) {
      assert RecOk(s.recs[q]) && LookedAt(s.recs[q], u.recs[q], q == r);
    }
  }

  lemma WorkerKeepsInv(s: State, step: Step)
    requires Inv(s) && (step.Start? || step.Exit? || step.Look? || step.DeliverCancel? || step.Leave?)
    requires Do(s, step).Next?
    ensures Inv(Do(s, step).s)
  {
    assert RecOk(s.recs[step.rid]);
    match step
    case Start(r) => SetRecKeepsInv(s, r, s.recs[r].(state := Running, phase := InBody));
    case Exit(r) =>
      ExitIsOwn(s, r);
      SetRecKeepsInv(s, r, s.recs[r].(state := Finished, phase := Exiting));
    case Look(r) => LookKeepsInv(s, r);
    case DeliverCancel(r) => SetRecKeepsInv(s, r, s.recs[r].(phase := Terminated));
    case Leave(r) => SetRecKeepsInv(s, r, s.recs[r].(phase := Terminated));
  }

  /** Every step keeps the invariant, and th_exit never meets a missing record. */
  lemma StepKeepsInv(s: State, step: Step)
    requires Inv(s)
    ensures Do(s, step).Fault? ==> step.KillStep? || step.Look?
    ensures Do(s, step).Next? ==> Inv(Do(s, step).s)
  {
    if step.Exit? && step.rid < |s.recs| && s.recs[step.rid].phase.InBody? {
      ExitIsOwn(s, step.rid);
    }
    if Do(s, step).Next? {
      match step
      case Publish => PublishKeepsInv(s);
      case KillBegin(_, _) =>
      case KillStep(t) => KillKeepsInv(s, t);
      case Scan => CallKeepsInv(s, step);
      case WaitBegin(_) => CallKeepsInv(s, step);
      case WaitShow(_) => CallKeepsInv(s, step);
      case WaitEnd(_) => CallKeepsInv(s, step);
      case WaitAbandon(_) => CallKeepsInv(s, step);
      case _ => WorkerKeepsInv(s, step);
    }
  }

  /** So does every run, and if one faults it is in a th_kill or a last show_thread. */
  lemma {:induction false} RunKeepsInv(s: State, steps: seq<Step>)
    requires Inv(s)
    ensures Run(Do, s, steps).Next? ==> Inv(Run(Do, s, steps).s)
    ensures Run(Do, s, steps).Fault? ==> exists i :: 0 <= i < |steps| && (steps[i].KillStep? || steps[i].Look?)
    decreases |steps|
  {
    if steps != [] {
      StepKeepsInv(s, steps[0]);
      if Do(s, steps[0]).Next? {
        RunKeepsInv(Do(s, steps[0]).s, steps[1..]);
        assert forall i :: 0 <= i < |steps| - 1 ==> steps[1..][i] == steps[i + 1];
      }
    }
  }

  /** Slot ownership in every interleaving, cleanups amid a th_kill included: the slot of a live
      worker holds its own record, so th_exit never faults and marks that record. */
  lemma SlotOwnership(steps: seq<Step>, r: nat)
    ensures Run(Do, Init(), steps).Next? ==>
              var s := Run(Do, Init(), steps).s;
              && (r < |s.recs| && Live(s.recs[r]) ==> RecordAt(s, s.recs[r].handle) == Some(r))
              && !Do(s, Exit(r)).Fault?
              && (Do(s, Exit(r)).Next? ==>
                    Do(s, Exit(r)).s == SetRec(s, r, s.recs[r].(state := Finished, phase := Exiting)))
  {
    RunKeepsInv(Init(), steps);
    if Run(Do, Init(), steps).Next? {
      var s := Run(Do, Init(), steps).s;
      if r < |s.recs| && s.recs[r].phase.InBody? {
        ExitIsOwn(s, r);
      }
    }
  }

  /** A record becomes FINISHED only by its own worker's exit, and no step revives a worker. */
  lemma FinishedByExit(s: State, step: Step, r: nat)
    requires Inv(s) && Do(s, step).Next? && r < |s.recs|
    ensures var t := Do(s, step).s;
            && |t.recs| == |s.recs| + (if step.Publish? then 1 else 0)
            && (t.recs[r].state.Finished? && !s.recs[r].state.Finished? ==> step == Exit(r) && s.recs[r].phase.InBody?)
            && (Live(t.recs[r]) ==> Live(s.recs[r]))
            && (s.recs[r].phase.Terminated? ==> t.recs[r].phase.Terminated?)
  {
    if step.Exit? {
      ExitIsOwn(s, step.rid);
    } else if step.KillStep? {
      KillStepShape(s, step.tid);
      assert Killed(s.recs[r], Do(s, step).s.recs[r]);
    } else if step.Look? {
      LookShape(s, step.rid);
      assert LookedAt(s.recs[r], Do(s, step).s.recs[r], r == step.rid);
    }
  }

  // ------------------------------------------------------- waiting too little

  /** The wait on `h` comes to its end after `steps` without having been given up. */
  predicate WaitLasts(steps: seq<Step>, h: int) {
    WaitEnd(h) !in steps && WaitAbandon(h) !in steps
  }

  lemma {:induction false} WaitStays(s: State, steps: seq<Step>, h: int)
    requires h in s.waits && Run(Do, s, steps).Next? && WaitLasts(steps, h)
    ensures var u := Run(Do, s, steps).s;
            h in u.waits && u.waits[h].rid == s.waits[h].rid && u.waits[h].joins == s.waits[h].joins
    decreases |steps|
  {
    if steps != [] {
      assert steps[0] in steps;
      WaitStays(Do(s, steps[0]).s, steps[1..], h);
    }
  }

  /** The moment a wait on `h` ends while its thread `r` is still there. */
  ghost predicate EndsEarly(s: State, steps: seq<Step>, h: int, r: nat) {
    && WaitLasts(steps, h)
    && Run(Do, s, [WaitBegin(h)] + steps).Next?
    && var t := Run(Do, s, [WaitBegin(h)] + steps).s;
       Do(t, WaitEnd(h)).Next? && r < |t.recs| && !t.recs[r].phase.Terminated?
  }

  lemma {:induction false} TerminatedStays(s: State, steps: seq<Step>, r: nat)
    requires Inv(s) && Run(Do, s, steps).Next? && r < |s.recs|
    ensures r < |Run(Do, s, steps).s.recs|
    ensures s.recs[r].phase.Terminated? ==> Run(Do, s, steps).s.recs[r].phase.Terminated?
    decreases |steps|
  {
    if steps != [] {
      StepKeepsInv(s, steps[0]);
      FinishedByExit(s, steps[0], r);
      TerminatedStays(Do(s, steps[0]).s, steps[1..], r);
    }
  }

  /** A FINISHED thread on its way out is not waited for. */
  lemma CanEndEarly(s: State, h: int, r: nat)
    requires Inv(s) && RecordAt(s, h) == Some(r) && Do(s, WaitBegin(h)).Next?
    requires s.recs[r].state.Finished? && !s.recs[r].phase.Terminated?
    ensures EndsEarly(s, [WaitShow(h)], h, r)
  {
    var t := Do(s, WaitBegin(h)).s;
    RunCons(Do, s, WaitBegin(h), [WaitShow(h)]);
    RunOne(Do, t, WaitShow(h));
  }

  /** th_wait should block until the thread terminates. From any state, a wait that can begin can
      end before that if and only if it finds the thread FINISHED but still on its way out. */
  lemma WaitEndsEarlyIff(s: State, h: int, r: nat)
    requires Inv(s) && RecordAt(s, h) == Some(r) && Do(s, WaitBegin(h)).Next?
    ensures (exists steps :: EndsEarly(s, steps, h, r)) <==>
            s.recs[r].state.Finished? && !s.recs[r].phase.Terminated?
  {
    var t := Do(s, WaitBegin(h)).s;
    CallKeepsInv(s, WaitBegin(h));
    if s.recs[r].state.Finished? && !s.recs[r].phase.Terminated? {
      CanEndEarly(s, h, r);
    }
    if steps :| EndsEarly(s, steps, h, r) {
      RunCons(Do, s, WaitBegin(h), steps);
      WaitStays(t, steps, h);
      TerminatedStays(t, steps, r);
      RunKeepsInv(t, steps);
      var u := Run(Do, t, steps).s;
      assert u.waits[h].rid == r && !u.waits[h].joins;
    }
  }

  // ----------------------------------------------------- handle conservation

  function Filled(slots: seq<Option<nat>>): nat {
    if slots == [] then 0 else (if slots[0].Some? then 1 else 0) + Filled(slots[1..])
  }

  lemma {:induction false} FilledUpdate(slots: seq<Option<nat>>, h: nat, v: Option<nat>)
    requires h < |slots|
    ensures Filled(slots[h := v]) == Filled(slots) - (if slots[h].Some? then 1 else 0) + (if v.Some? then 1 else 0)
    ensures Filled(slots) <= |slots|
  {
    if h == 0 {
      assert slots[h := v][1..] == slots[1..];
      if 1 < |slots| {
        FilledUpdate(slots[1..], 0, None);
      }
    } else {
      assert slots[h := v][1..] == slots[1..][h - 1 := v];
      FilledUpdate(slots[1..], h - 1, v);
    }
  }

  /** Completed th_execute and th_wait calls. */
  function Executed(steps: seq<Step>): nat {
    if steps == [] then 0 else (if steps[0].Publish? then 1 else 0) + Executed(steps[1..])
  }

  function Waited(steps: seq<Step>): nat {
    if steps == [] then 0 else (if steps[0].WaitEnd? then 1 else 0) + Waited(steps[1..])
  }

  lemma StepConserves(s: State, step: Step)
    requires Inv(s) && Do(s, step).Next?
    ensures Filled(Do(s, step).s.slots) + Waited([step]) == Filled(s.slots) + Executed([step])
  {
    assert [step][1..] == [];
    match step
    case Publish => FilledUpdate(s.slots, s.scan.value, Some(|s.recs|));
    case WaitEnd(h) => FilledUpdate(s.slots, h, None);
    case KillStep(t) => KillStepShape(s, t);
    case _ =>
  }

  /** Filled slots are the successful th_execute calls less the successful th_wait calls. */
  lemma {:induction false} HandlesConserved(s: State, steps: seq<Step>)
    requires Inv(s) && Run(Do, s, steps).Next?
    ensures Filled(Run(Do, s, steps).s.slots) + Waited(steps) == Filled(s.slots) + Executed(steps)
    ensures Filled(Run(Do, s, steps).s.slots) <= MAX_THREADS
    decreases |steps|
  {
    if steps == [] {
      FilledUpdate(s.slots, 0, s.slots[0]);
    } else {
      assert [steps[0]][1..] == [];
      StepKeepsInv(s, steps[0]);
      StepConserves(s, steps[0]);
      HandlesConserved(Do(s, steps[0]).s, steps[1..]);
    }
  }

  /** Live handles are distinct and carry their own number. */
  lemma HandlesDistinct(s: State, i: int, j: int)
    requires Inv(s) && i != j && RecordAt(s, i).Some? && RecordAt(s, j).Some?
    ensures RecordAt(s, i) != RecordAt(s, j) && s.recs[RecordAt(s, i).value].handle == i
  {
  }

  lemma StepKeepsSlot(s: State, step: Step, h: nat)
    requires Inv(s) && Do(s, step).Next? && RecordAt(s, h).Some? && step != WaitEnd(h)
    ensures RecordAt(Do(s, step).s, h) == RecordAt(s, h)
  {
    match step
    case Exit(q) => ExitIsOwn(s, q);
    case _ =>
  }

  lemma StepReplacesByLater(s: State, step: Step, h: nat, r: nat)
    requires Inv(s) && Do(s, step).Next? && r <= |s.recs|
    requires RecordAt(s, h).Some? ==> r <= RecordAt(s, h).value
    ensures r <= |Do(s, step).s.recs|
    ensures RecordAt(Do(s, step).s, h).Some? ==> r <= RecordAt(Do(s, step).s, h).value
  {
    if RecordAt(s, h).Some? && step != WaitEnd(h) {
      StepKeepsSlot(s, step, h);
    }
    if step.Exit? && step.rid < |s.recs| && s.recs[step.rid].phase.InBody? {
      ExitIsOwn(s, step.rid);
    } else if step.KillStep? {
      KillStepShape(s, step.tid);
    }
  }

  lemma {:induction false} ReplacedByLater(s: State, steps: seq<Step>, h: nat, r: nat)
    requires Inv(s) && Run(Do, s, steps).Next? && r <= |s.recs|
    requires RecordAt(s, h).Some? ==> r <= RecordAt(s, h).value
    ensures RecordAt(Run(Do, s, steps).s, h).Some? ==> r <= RecordAt(Run(Do, s, steps).s, h).value
    decreases |steps|
  {
    if steps != [] {
      StepKeepsInv(s, steps[0]);
      StepReplacesByLater(s, steps[0], h, r);
      ReplacedByLater(Do(s, steps[0]).s, steps[1..], h, r);
    }
  }

  /** A call that looks through its slot twice finds the record it found first if and only if no
      cleanup of that handle has come in between. */
  lemma {:induction false} SameRecordIff(s: State, steps: seq<Step>, h: nat)
    requires Inv(s) && Run(Do, s, steps).Next? && RecordAt(s, h).Some?
    ensures RecordAt(Run(Do, s, steps).s, h) == RecordAt(s, h) <==> WaitEnd(h) !in steps
    decreases |steps|
  {
    if steps != [] {
      var u := Do(s, steps[0]).s;
      StepKeepsInv(s, steps[0]);
      if steps[0] == WaitEnd(h) {
        ReplacedByLater(u, steps[1..], h, |u.recs|);
        assert |u.recs| == |s.recs|;
      } else {
        StepKeepsSlot(s, steps[0], h);
        SameRecordIff(u, steps[1..], h);
        assert WaitEnd(h) in steps <==> WaitEnd(h) in steps[1..];
      }
    }
  }

  lemma {:induction false} ScanHolds(s: State, steps: seq<Step>)
    requires s.scan.Some? && Run(Do, s, steps).Next? && Publish !in steps
    ensures Run(Do, s, steps).s.scan == s.scan
    decreases |steps|
  {
    if steps != [] {
      assert steps[0] in steps;
      ScanHolds(Do(s, steps[0]).s, steps[1..]);
    }
  }

  /** Each new handle is the lowest slot that was free at its search, whatever happens before the
      record is published there, and the slot is still free then. */
  lemma NewHandleIsLowestFree(s: State, between: seq<Step>)
    requires Inv(s) && s.scan.None? && Publish !in between
    requires Run(Do, s, [Scan] + between).Next? && LowestFree(s.slots, 0) < MAX_THREADS
    ensures var h := LowestFree(s.slots, 0);
            var t := Run(Do, s, [Scan] + between).s;
            && s.slots[h].None? && (forall j :: 0 <= j < h ==> s.slots[j].Some?)
            && RecordAt(t, h).None?
            && Do(t, Publish).Next? && RecordAt(Do(t, Publish).s, h) == Some(|t.recs|)
            && Do(t, Publish).s.recs[|t.recs|] == NewRec(h)
  {
    RunAppend(Do, s, [Scan], between);
    var u := Do(s, Scan).s;
    assert Run(Do, s, [Scan]) == Run(Do, u, []);
    ScanHolds(u, between);
    RunKeepsInv(s, [Scan] + between);
  }

  /** th_execute fails exactly when every slot is filled, and then changes nothing. */
  lemma SearchFailsIff(s: State)
    requires Inv(s) && s.scan.None?
    ensures Do(s, Scan).Next?
    ensures Do(s, Scan).s.scan.None? <==> forall h :: 0 <= h < MAX_THREADS ==> s.slots[h].Some?
    ensures Do(s, Scan).s.scan.None? ==> Do(s, Scan).s == s
  {
  }

  /** A handle whose waiter was cancelled in its join can be waited for anew, and nothing else has
      changed. */
  lemma WaitAgain(s: State, h: int, r: nat)
    requires Inv(s) && h in s.waits && RecordAt(s, h) == Some(r) && s.recs[r].lock.None?
    ensures Do(s, WaitBegin(h)).Blocked?
    ensures Do(s, WaitAbandon(h)).Next?
    ensures var t := Do(s, WaitAbandon(h)).s;
            && h !in t.waits && t == s.(waits := t.waits) && t.waits == s.waits - {h} && Do(t, WaitBegin(h)).Next?
  {
  }

  // ------------------------------------------------------- what a slot shows

  /** What the table shows of each slot: nothing, or the state of its record. */
  function SlotStates(s: State): (v: seq<Option<ThreadState>>)
    ensures |v| == |s.slots|
    ensures forall h :: 0 <= h < |v| ==>
              v[h] == match RecordAt(s, h) case Some(r) => Some(s.recs[r].state) case None => None
  {
    seq(|s.slots|, h => match RecordAt(s, h) case Some(r) => Some(s.recs[r].state) case None => None)
  }

  predicate Killable(v: Option<ThreadState>) {
    v == Some(Pending) || v == Some(Running)
  }

  function AfterKill(v: Option<ThreadState>): Option<ThreadState> {
    if Killable(v) then Some(Cancelled) else v
  }

  /** th_kill seen through the table. */
  function KillAt(v: seq<Option<ThreadState>>, h: int): seq<Option<ThreadState>> {
    if 0 <= h < |v| then v[h := AfterKill(v[h])] else v
  }
}
