/**
 A th_kill as a whole, in the transition system of `ThreadModel`: what its steps make of a record
 when nothing else happens in between, and when the worker's start does.
 */
module KillModel {
  import opened Options
  import opened Runs
  import opened ThreadModel

  // ---------------------------------------------------------------- its steps

  /** The call has its record's lock. */
  predicate Holding(pc: KillPc) {
    !pc.Fetch? && !pc.Acquire?
  }

  predicate Undecided(st: ThreadState) {
    st.Pending? || st.Running?
  }

  /** A th_kill in progress finds its slot filled, and from the fetch on by the record it fetched;
      its lock keeps others from deciding that record's state behind its tests. */
  predicate KillOk(s: State, t: nat)
    requires t in s.kills
  {
    var k := s.kills[t];
    && RecordAt(s, k.h).Some?
    && (!k.pc.Fetch? ==> RecordAt(s, k.h) == Some(k.rid))
    && (Holding(k.pc) ==> s.recs[RecordAt(s, k.h).value].lock == Some(Killer(t)))
    && (k.pc.TestFinished? ==> !s.recs[RecordAt(s, k.h).value].state.Cancelled?)
    && (k.pc.Cancel? || k.pc.Mark? ==> Undecided(s.recs[RecordAt(s, k.h).value].state))
  }

  /** ... and the lock of that record is there for it to take. */
  predicate MayGoOn(s: State, t: nat)
    requires t in s.kills
  {
    KillOk(s, t) && MayTake(s.recs[RecordAt(s, s.kills[t].h).value], Killer(t))
  }

  function KillSteps(t: nat, n: nat): (r: seq<Step>)
    ensures |r| == n && forall i :: 0 <= i < n ==> r[i] == KillStep(t)
  {
    if n == 0 then [] else [KillStep(t)] + KillSteps(t, n - 1)
  }

  /** The step is the write of a th_kill that succeeds on record `r`. */
  predicate KillsRecord(s: State, step: Step, r: nat) {
    && step.KillStep? && step.tid in s.kills && s.kills[step.tid].pc.Mark?
    && RecordAt(s, s.kills[step.tid].h) == Some(r)
  }

  /** Successful th_kill calls on record `r` during a run. */
  function Kills(s: State, steps: seq<Step>, r: nat): nat
    decreases |steps|
  {
    if steps == [] || !Do(s, steps[0]).Next? then 0
    else (if KillsRecord(s, steps[0], r) then 1 else 0) + Kills(Do(s, steps[0]).s, steps[1..], r)
  }

  /** A th_kill that has come to `pc` will still write CANCELLED. */
  predicate WillMark(rec: Rec, pc: KillPc) {
    match pc
    case Fetch => Undecided(rec.state)
    case Acquire => Undecided(rec.state)
    case TestCancelled => Undecided(rec.state)
    case TestFinished => Undecided(rec.state)
    case Cancel => true
    case Mark => true
    case _ => false
  }

  /** The record when the call has returned, if nothing else happens to it. */
  function Finish(rec: Rec, pc: KillPc): Rec {
    var marks := WillMark(rec, pc);
    rec.(state := if marks then Cancelled else rec.state,
         cancelAsked := rec.cancelAsked || (marks && !pc.Mark?),
         lock := None)
  }

  /** Steps a th_kill has still to make, at most. */
  function Left(pc: KillPc): nat {
    match pc
    case Fetch => SHOW_LOOKS + 8
    case Acquire => SHOW_LOOKS + 7
    case TestCancelled => SHOW_LOOKS + 6
    case TestFinished => SHOW_LOOKS + 5
    case Cancel => SHOW_LOOKS + 4
    case Mark => SHOW_LOOKS + 3
    case ShowCheck => SHOW_LOOKS + 2
    case Show(left) => left + 1
    case Release => 0
  }

  /** One step of a th_kill on its way to `Finish`. */
  lemma KillGoesOn(s: State, t: nat)
    requires t in s.kills && MayGoOn(s, t)
    ensures Do(s, KillStep(t)).Next?
    ensures var u := Do(s, KillStep(t)).s;
            var k, q := s.kills[t], RecordAt(s, s.kills[t].h).value;
            && u == s.(recs := s.recs[q := u.recs[q]], kills := u.kills)
            && (t in u.kills ==> MayGoOn(u, t))
            && (k.pc.Release? ==> u.kills == s.kills - {t} && u.recs[q] == Finish(s.recs[q], k.pc))
            && (!k.pc.Release? ==>
                  && t in u.kills && u.kills == s.kills[t := u.kills[t]] && u.kills[t].h == k.h
                  && Left(u.kills[t].pc) < Left(k.pc)
                  && Finish(u.recs[q], u.kills[t].pc) == Finish(s.recs[q], k.pc))
  {
  }

  lemma KillStepsOnce(s: State, t: nat, n: nat, r: nat)
    requires Do(s, KillStep(t)).Next?
    ensures Run(Do, s, KillSteps(t, n + 1)) == Run(Do, Do(s, KillStep(t)).s, KillSteps(t, n))
    ensures Kills(s, KillSteps(t, n + 1), r)
         == (if KillsRecord(s, KillStep(t), r) then 1 else 0) + Kills(Do(s, KillStep(t)).s, KillSteps(t, n), r)
  {
    assert KillSteps(t, n + 1)[1..] == KillSteps(t, n);
  }

  lemma FinishOnce(s: State, u: State, t: nat, q: nat, rec: Rec)
    requires q < |s.recs| == |u.recs| && t in u.kills
    requires u == s.(recs := s.recs[q := u.recs[q]], kills := s.kills[t := u.kills[t]])
    ensures SetRec(u, q, rec).(kills := u.kills - {t}) == SetRec(s, q, rec).(kills := s.kills - {t})
  {
    assert s.recs[q := u.recs[q]][q := rec] == s.recs[q := rec];
    assert s.kills[t := u.kills[t]] - {t} == s.kills - {t};
  }

  /** One such step is counted as a kill exactly when it is the one that marks. */
  lemma KillCounted(s: State, t: nat)
    requires t in s.kills && MayGoOn(s, t)
    ensures var q := RecordAt(s, s.kills[t].h).value;
            var u := Do(s, KillStep(t)).s;
            && Do(s, KillStep(t)).Next?
            && (if KillsRecord(s, KillStep(t), q) then 1 else 0)
             + (if t in u.kills && q < |u.recs| && WillMark(u.recs[q], u.kills[t].pc) then 1 else 0)
            == (if WillMark(s.recs[q], s.kills[t].pc) then 1 else 0)
  {
    KillGoesOn(s, t);
  }

  /** A th_kill that goes on alone returns, having turned its record into `Finish` of it. */
  lemma {:induction false} KillAlone(s: State, t: nat) returns (n: nat)
    requires t in s.kills && MayGoOn(s, t)
    ensures var k, q := s.kills[t], RecordAt(s, s.kills[t].h).value;
            && Run(Do, s, KillSteps(t, n)) == Next(SetRec(s, q, Finish(s.recs[q], k.pc)).(kills := s.kills - {t}))
            && Kills(s, KillSteps(t, n), q) == if WillMark(s.recs[q], k.pc) then 1 else 0
    decreases Left(s.kills[t].pc)
  {
    var k, q := s.kills[t], RecordAt(s, s.kills[t].h).value;
    KillGoesOn(s, t);
    KillCounted(s, t);
    var u := Do(s, KillStep(t)).s;
    if k.pc.Release? {
      n := 1;
      KillStepsOnce(s, t, 0, q);
    } else {
      var m := KillAlone(u, t);
      n := m + 1;
      KillStepsOnce(s, t, m, q);
      FinishOnce(s, u, t, q, Finish(s.recs[q], k.pc));
    }
  }

  /** What a whole th_kill does when nothing else happens in between. */
  function WholeKilled(s: State, h: int): State {
    match RecordAt(s, h)
    case Some(q) => SetRec(s, q, Finish(s.recs[q], Fetch))
    case None => s
  }

  /** A th_kill that has just made its check. */
  lemma KillChecked(s: State, t: nat, h: int)
    requires t !in s.kills && RecordAt(s, h).Some? && s.recs[RecordAt(s, h).value].lock.None?
    ensures var u, q := Do(s, KillBegin(t, h)), RecordAt(s, h).value;
            && u == Next(SetKill(s, t, Kill(h, q, Fetch))) && RecordAt(u.s, h) == Some(q) && MayGoOn(u.s, t)
            && forall rec :: SetRec(u.s, q, rec).(kills := u.s.kills - {t}) == SetRec(s, q, rec)
  {
    assert s.kills[t := Kill(h, RecordAt(s, h).value, Fetch)] - {t} == s.kills;
  }

  /** A whole th_kill, its record's lock being free. */
  lemma WholeKill(s: State, t: nat, h: int) returns (n: nat)
    requires t !in s.kills && (RecordAt(s, h).Some? ==> s.recs[RecordAt(s, h).value].lock.None?)
    ensures Run(Do, s, [KillBegin(t, h)] + KillSteps(t, n)) == Next(WholeKilled(s, h))
    ensures forall q :: RecordAt(s, h) == Some(q) ==>
              Kills(s, [KillBegin(t, h)] + KillSteps(t, n), q) == if Undecided(s.recs[q].state) then 1 else 0
  {
    n := 0;
    if RecordAt(s, h).Some? {
      KillChecked(s, t, h);
      n := KillAlone(Do(s, KillBegin(t, h)).s, t);
    }
    RunCons(Do, s, KillBegin(t, h), KillSteps(t, n));
    assert ([KillBegin(t, h)] + KillSteps(t, n))[1..] == KillSteps(t, n);
  }

  /** th_kill seen through the table of slot states: it succeeds exactly on a PENDING or RUNNING
      slot, which it turns to CANCELLED, and changes no other. */
  lemma KillSeen(s: State, t: nat, h: int) returns (n: nat)
    requires Inv(s) && t !in s.kills && (RecordAt(s, h).Some? ==> s.recs[RecordAt(s, h).value].lock.None?)
    ensures var run := [KillBegin(t, h)] + KillSteps(t, n);
            && Run(Do, s, run).Next? && SlotStates(Run(Do, s, run).s) == KillAt(SlotStates(s), h)
            && forall q :: RecordAt(s, h) == Some(q) ==>
                 (Kills(s, run, q) == 1 <==> 0 <= h < MAX_THREADS && Killable(SlotStates(s)[h]))
  {
    n := WholeKill(s, t, h);
    var u := WholeKilled(s, h);
    forall j | 0 <= j < MAX_THREADS ensures SlotStates(u)[j] == KillAt(SlotStates(s), h)[j] {
      if j != h && RecordAt(s, j).Some? && RecordAt(s, h).Some? {
        HandlesDistinct(s, j, h);
      }
    }
  }

  lemma {:induction false} KillsAppend(s: State, a: seq<Step>, b: seq<Step>, r: nat)
    requires Run(Do, s, a).Next?
    ensures Kills(s, a + b, r) == Kills(s, a, r) + Kills(Run(Do, s, a).s, b, r)
    decreases |a|
  {
    if a == [] {
      assert a + b == b;
    } else {
      assert (a + b)[1..] == a[1..] + b;
      KillsAppend(Do(s, a[0]).s, a[1..], b, r);
    }
  }

  /** A stretch of a run, and how often it kills `r`. */
  ghost predicate Comes(s: State, steps: seq<Step>, u: State, r: nat, kills: nat) {
    Run(Do, s, steps) == Next(u) && Kills(s, steps, r) == kills
  }

  lemma ComesOn(s: State, a: seq<Step>, u: State, b: seq<Step>, v: State, r: nat, i: nat, j: nat)
    requires Comes(s, a, u, r, i) && Comes(u, b, v, r, j)
    ensures Comes(s, a + b, v, r, i + j)
  {
    RunAppend(Do, s, a, b);
    KillsAppend(s, a, b, r);
  }

  lemma ComesOne(s: State, step: Step, r: nat)
    requires Do(s, step).Next?
    ensures Comes(s, [step], Do(s, step).s, r, if KillsRecord(s, step, r) then 1 else 0)
  {
    RunOne(Do, s, step);
    assert [step][1..] == [];
  }

  lemma SetRecFour(s: State, r: nat, a: Rec, b: Rec, c: Rec, d: Rec)
    requires r < |s.recs|
    ensures SetRec(SetRec(SetRec(SetRec(s, r, a), r, b), r, c), r, d) == SetRec(s, r, d)
  {
    assert s.recs[r := a][r := b][r := c][r := d] == s.recs[r := d];
  }

  /** A kill, the start, a kill and the exit, on the record of handle `h`. */
  function KilledTwice(t: nat, h: int, r: nat, n: nat, m: nat): seq<Step> {
    [KillBegin(t, h)] + KillSteps(t, n) + [Start(r)] + ([KillBegin(t, h)] + KillSteps(t, m)) + [Exit(r)]
  }

  lemma ExitAfterKill(s: State, h: int, r: nat)
    requires RecordAt(s, h) == Some(r) && s.recs[r] == Rec(h, Cancelled, InBody, true, None)
    ensures Do(s, Exit(r)) == Next(SetRec(s, r, Rec(h, Finished, Exiting, true, None)))
  {
    var exiting := s.recs[r].(phase := Exiting);
    assert s.recs[r := exiting][r := exiting.(state := Finished)] == s.recs[r := exiting.(state := Finished)];
  }

  /** The bound of two kills is met: the late start overwrites CANCELLED with RUNNING, which hides
      the first kill from the second; and a worker that gets to its exit overwrites CANCELLED with
      FINISHED. */
  lemma LateStartHidesKill(s: State, t: nat, h: int, r: nat) returns (n: nat, m: nat)
    requires Inv(s) && t !in s.kills
    requires RecordAt(s, h) == Some(r) && s.recs[r].state.Pending? && s.recs[r].lock.None?
    ensures Comes(s, KilledTwice(t, h, r, n, m), SetRec(s, r, Rec(h, Finished, Exiting, true, None)), r, 2)
  {
    assert RecOk(s.recs[r]) && s.recs[r].phase.Created? && s.recs[r].handle == h;
    n := WholeKill(s, t, h);
    var s1 := WholeKilled(s, h);
    var s2 := Do(s1, Start(r)).s;
    m := WholeKill(s2, t, h);
    var s3 := WholeKilled(s2, h);
    ExitAfterKill(s3, h, r);
    var s4 := Do(s3, Exit(r)).s;
    SetRecFour(s, r, s1.recs[r], s2.recs[r], s3.recs[r], s4.recs[r]);
    var a, b := [KillBegin(t, h)] + KillSteps(t, n), [KillBegin(t, h)] + KillSteps(t, m);
    ComesOne(s1, Start(r), r);
    ComesOne(s3, Exit(r), r);
    ComesOn(s, a, s1, [Start(r)], s2, r, 1, 0);
    ComesOn(s, a + [Start(r)], s2, b, s3, r, 1, 1);
    ComesOn(s, a + [Start(r)] + b, s3, [Exit(r)], s4, r, 2, 0);
  }

  // ------------------------------------------------------ a start in between

  /** A record `before` as it is when a th_kill alone has come to `pc`. */
  predicate Midway(before: Rec, now: Rec, pc: KillPc) {
    match pc
    case Fetch => now == before.(lock := now.lock)
    case Acquire => now == before.(lock := now.lock)
    case TestCancelled => now == before.(lock := now.lock)
    case TestFinished => now == before.(lock := now.lock) && !before.state.Cancelled?
    case Cancel => now == before.(lock := now.lock) && Undecided(before.state)
    case Mark => now == before.(lock := now.lock, cancelAsked := true) && Undecided(before.state)
    case _ => now == Finish(before, Fetch).(lock := now.lock)
  }

  lemma MidwayGoesOn(s: State, t: nat, before: Rec)
    requires t in s.kills && MayGoOn(s, t)
    requires Midway(before, s.recs[RecordAt(s, s.kills[t].h).value], s.kills[t].pc)
    ensures Do(s, KillStep(t)).Next?
    ensures var u := Do(s, KillStep(t)).s;
            t in u.kills ==> Midway(before, u.recs[RecordAt(s, s.kills[t].h).value], u.kills[t].pc)
  {
    KillGoesOn(s, t);
  }

  /** `u` is the state `s` during a th_kill by `t` of its record `q`, nothing else having happened. */
  ghost predicate DuringKill(s: State, u: State, t: nat, q: nat) {
    && q < |s.recs| == |u.recs| && t in u.kills && RecordAt(u, u.kills[t].h) == Some(q)
    && u == s.(recs := s.recs[q := u.recs[q]], kills := s.kills[t := u.kills[t]])
    && MayGoOn(u, t) && Midway(s.recs[q], u.recs[q], u.kills[t].pc)
  }

  lemma UpdatedTwice(s: State, u: State, v: State, t: nat, q: nat)
    requires q < |s.recs| == |u.recs| == |v.recs| && t in u.kills && t in v.kills
    requires u == s.(recs := s.recs[q := u.recs[q]], kills := s.kills[t := u.kills[t]])
    requires v == u.(recs := u.recs[q := v.recs[q]], kills := u.kills[t := v.kills[t]])
    ensures v == s.(recs := s.recs[q := v.recs[q]], kills := s.kills[t := v.kills[t]])
  {
    assert s.recs[q := u.recs[q]][q := v.recs[q]] == s.recs[q := v.recs[q]];
    assert s.kills[t := u.kills[t]][t := v.kills[t]] == s.kills[t := v.kills[t]];
  }

  lemma DuringKillGoesOn(s: State, u: State, t: nat, q: nat)
    requires DuringKill(s, u, t, q)
    ensures Do(u, KillStep(t)).Next?
    ensures t in Do(u, KillStep(t)).s.kills ==> DuringKill(s, Do(u, KillStep(t)).s, t, q)
  {
    KillGoesOn(u, t);
    MidwayGoesOn(u, t, s.recs[q]);
    var v := Do(u, KillStep(t)).s;
    if t in v.kills {
      UpdatedTwice(s, u, v, t, q);
    }
  }

  /** Some steps of a th_kill alone. */
  lemma {:induction false} KillPartly(s: State, u: State, t: nat, q: nat, m: nat)
    requires DuringKill(s, u, t, q)
    requires Run(Do, u, KillSteps(t, m)).Next? && t in Run(Do, u, KillSteps(t, m)).s.kills
    ensures DuringKill(s, Run(Do, u, KillSteps(t, m)).s, t, q)
    decreases m
  {
    if m != 0 {
      KillStepsOnce(u, t, m - 1, 0);
      DuringKillGoesOn(s, u, t, q);
      var v := Do(u, KillStep(t)).s;
      KillPartly(s, v, t, q, m - 1);
    }
  }

  function Started(rec: Rec): Rec {
    rec.(state := Running, phase := InBody)
  }

  /** The start comes before the kill, or after it. */
  lemma StartOrder(before: Rec, now: Rec, pc: KillPc)
    requires before.phase.Created? && RecOk(before) && before.lock.None? && Midway(before, now, pc)
    ensures || Finish(Started(now), pc) == Finish(Started(before), Fetch)
            || Finish(Started(now), pc) == Started(Finish(before, Fetch))
  {
  }

  lemma StartedAndFinished(s: State, u: State, t: nat, q: nat, rec: Rec)
    requires q < |s.recs| == |u.recs| && t in u.kills && t !in s.kills
    requires u == s.(recs := s.recs[q := u.recs[q]], kills := s.kills[t := u.kills[t]])
    ensures SetRec(SetRec(u, q, Started(u.recs[q])), q, rec).(kills := u.kills - {t}) == SetRec(s, q, rec)
  {
    assert s.recs[q := u.recs[q]][q := Started(u.recs[q])][q := rec] == s.recs[q := rec];
    assert s.kills[t := u.kills[t]] - {t} == s.kills;
  }

  lemma StartDuringKill(s: State, u: State, t: nat, q: nat) returns (n: nat)
    requires DuringKill(s, u, t, q) && u.recs[q].phase.Created? && t !in s.kills
    ensures Run(Do, u, [Start(q)] + KillSteps(t, n)) == Next(SetRec(s, q, Finish(Started(u.recs[q]), u.kills[t].pc)))
  {
    var w := Do(u, Start(q)).s;
    n := KillAlone(w, t);
    RunCons(Do, u, Start(q), KillSteps(t, n));
    StartedAndFinished(s, u, t, q, Finish(Started(u.recs[q]), u.kills[t].pc));
  }

  lemma KillBegins(s: State, t: nat, h: int, r: nat)
    requires t !in s.kills && RecordAt(s, h) == Some(r) && s.recs[r].lock.None?
    ensures Do(s, KillBegin(t, h)).Next? && DuringKill(s, Do(s, KillBegin(t, h)).s, t, r)
  {
    KillChecked(s, t, h);
    assert s.recs[r := s.recs[r]] == s.recs;
  }

  /** func_decorator writes RUNNING without the record's lock. Wherever the start falls between the
      steps of a th_kill, the outcome is that of one of the two whole orders. */
  lemma KillStartSerialise(s: State, t: nat, h: int, r: nat, m: nat) returns (n: nat)
    requires Inv(s) && t !in s.kills
    requires RecordAt(s, h) == Some(r) && s.recs[r].phase.Created? && s.recs[r].lock.None?
    requires var u := Run(Do, s, [KillBegin(t, h)] + KillSteps(t, m)); u.Next? && t in u.s.kills
    ensures var u := Run(Do, s, [KillBegin(t, h)] + KillSteps(t, m)).s;
            var end := Run(Do, u, [Start(r)] + KillSteps(t, n));
            || end == Next(SetRec(s, r, Finish(Started(s.recs[r]), Fetch)))
            || end == Next(SetRec(s, r, Started(Finish(s.recs[r], Fetch))))
  {
    KillBegins(s, t, h, r);
    var v := Do(s, KillBegin(t, h)).s;
    RunCons(Do, s, KillBegin(t, h), KillSteps(t, m));
    KillPartly(s, v, t, r, m);
    var u := Run(Do, v, KillSteps(t, m)).s;
    assert RecOk(s.recs[r]);
    StartOrder(s.recs[r], u.recs[r], u.kills[t].pc);
    n := StartDuringKill(s, u, t, r);
  }
}
