/**
 install_data with the contents of its segment: every word the workers store and every word the
 memset of clear_and_restart zeroes is a step of its own, interleaved with the control steps of
 `InstallData`. `base` and `zeroed` only record history: the segment when the latest worker was
 started, and the words that have been zeroed since and that it has not stored after that.
 */
module InstallRun {
  import opened Options
  import opened Runs
  import opened TaskReplay
  import I = InstallData
  import R = InstallRaces
  import T = ThreadModel

  /** The words a worker stores for one task: the memcpy of install_point, or the flag. */
  function TaskWrites(task: PointTask): seq<Write> {
    if !GoodIndex(task.index) then []
    else if task.delay >= 0 then
      [Write(task.index, ValidWord(task.point.isValid)), Write(task.index, XWord(task.point.x)),
       Write(task.index, YWord(task.point.y))]
    else [Write(task.index, ValidWord(0))]
  }

  function WritesOf(tasks: seq<PointTask>): seq<Write> {
    if tasks == [] then [] else WritesOf(tasks[..|tasks| - 1]) + TaskWrites(tasks[|tasks| - 1])
  }

  lemma {:induction false} PutAllAppend(seg: Segment, a: seq<Write>, b: seq<Write>)
    ensures PutAll(seg, a + b) == PutAll(PutAll(seg, a), b)
    decreases |b|
  {
    if b == [] {
      assert a + b == a;
    } else {
      assert (a + b)[..|a + b| - 1] == a + b[..|b| - 1];
      PutAllAppend(seg, a, b[..|b| - 1]);
    }
  }

  lemma TaskWritesPerform(seg: Segment, task: PointTask)
    ensures PutAll(seg, TaskWrites(task)) == Perform(seg, task)
  {
    if GoodIndex(task.index) {
      var w := TaskWrites(task);
      if task.delay >= 0 {
        assert w[..2][..1][..0] == [] && w[..2][..1] == [w[0]] && w[..2] == [w[0], w[1]];
        assert PutAll(seg, w[..2][..1]) == Put(seg, w[0]);
        assert PutAll(seg, w[..2]) == Put(Put(seg, w[0]), w[1]);
      } else {
        assert w[..0] == [];
      }
    }
  }

  /** Word by word, the list's stores amount to the replay. */
  lemma {:induction false} WritesReplay(seg: Segment, tasks: seq<PointTask>)
    ensures PutAll(seg, WritesOf(tasks)) == Replay(seg, tasks)
    decreases |tasks|
  {
    if tasks != [] {
      var front, t := tasks[..|tasks| - 1], tasks[|tasks| - 1];
      WritesReplay(seg, front);
      PutAllAppend(seg, WritesOf(front), TaskWrites(t));
      TaskWritesPerform(Replay(seg, front), t);
    }
  }

  /** Outside the indices some task installs the segment is as memset leaves it. */
  predicate DirtyOnlyWhereInstalled(seg: Segment, tasks: seq<PointTask>) {
    forall i :: 0 <= i < MAX_NUM_POINTS && !Installed(tasks, i) ==> seg[i] == ZERO
  }

  lemma {:induction false} StoresWhereInstalled(tasks: seq<PointTask>, k: nat)
    requires k < |WritesOf(tasks)|
    ensures Installed(tasks, WritesOf(tasks)[k].i) || WritesOf(tasks)[k].w == ValidWord(0)
    decreases |tasks|
  {
    var front, t := tasks[..|tasks| - 1], tasks[|tasks| - 1];
    if k < |WritesOf(front)| {
      StoresWhereInstalled(front, k);
      if j :| 0 <= j < |front| && Installs(front[j], WritesOf(front)[k].i) {
        assert Installs(tasks[j], WritesOf(front)[k].i);
      }
    } else {
      assert Installs(t, WritesOf(tasks)[k].i) || WritesOf(tasks)[k].w == ValidWord(0);
    }
  }

  // ------------------------------------------------------------------- words

  datatype Kind = ValidKind | XKind | YKind

  /** One machine word of the segment. */
  datatype Cell = Cell(i: nat, kind: Kind)

  function CellOf(w: Write): Cell {
    Cell(w.i, match w.w case ValidWord(_) => ValidKind case XWord(_) => XKind case YWord(_) => YKind)
  }

  /** What memset stores there. */
  function ZeroOf(c: Cell): Word {
    match c.kind case ValidKind => ValidWord(0) case XKind => XWord(0.0) case YKind => YWord(0.0)
  }

  function WordAt(seg: Segment, c: Cell): Word
    requires c.i < MAX_NUM_POINTS
  {
    match c.kind
    case ValidKind => ValidWord(seg[c.i].isValid)
    case XKind => XWord(seg[c.i].x)
    case YKind => YWord(seg[c.i].y)
  }

  function AllCells(): set<Cell> {
    set i: nat, k: Kind | i < MAX_NUM_POINTS :: Cell(i, k)
  }

  lemma InAllCells(c: Cell)
    ensures c in AllCells() <==> c.i < MAX_NUM_POINTS
  {
  }

  /** A write changes its own word and no other. */
  lemma PutWord(seg: Segment, w: Write, c: Cell)
    requires c.i < MAX_NUM_POINTS
    ensures WordAt(Put(seg, w), c) == if c == CellOf(w) then w.w else WordAt(seg, c)
  {
  }

  /** Segments are alike when their words are. */
  lemma WordsDecide(a: Segment, b: Segment)
    requires forall c: Cell :: c.i < MAX_NUM_POINTS ==> WordAt(a, c) == WordAt(b, c)
    ensures a == b
  {
    forall i | 0 <= i < MAX_NUM_POINTS ensures a[i] == b[i] {
      assert WordAt(a, Cell(i, ValidKind)) == WordAt(b, Cell(i, ValidKind));
      assert WordAt(a, Cell(i, XKind)) == WordAt(b, Cell(i, XKind));
      assert WordAt(a, Cell(i, YKind)) == WordAt(b, Cell(i, YKind));
    }
  }

  lemma ClearedWord(c: Cell)
    requires c.i < MAX_NUM_POINTS
    ensures WordAt(Cleared(), c) == ZeroOf(c)
  {
  }

  // -------------------------------------------------------------- the system

  /** `toClear`: the words the memset under way has still to store, if one is. */
  datatype State = State(prog: I.State, seg: Segment, progress: seq<nat>, toClear: set<Cell>,
                         base: Segment, zeroed: set<Cell>)

  datatype Step =
    | Control(step: I.Step)  // anything but an access to the segment
    | Store(rid: nat)        // a worker's next word
    | ZeroWord(c: Cell)      // a word of the memset, in any order

  /** The step of the program behind a step; the memset is over with its last word. */
  function ProgramStep(s: State, step: Step): I.Step {
    match step
    case Control(st) => st
    case Store(r) => I.Touch(r)
    case ZeroWord(c) => if s.toClear == {c} then I.Manager else I.Zero
  }

  /** A worker leaves its function only after its last store, and makes no more stores than the
      list has; the memset stores each word once. */
  predicate Enabled(s: State, step: Step, tasks: seq<PointTask>) {
    match step
    case Control(st) =>
      && !st.Touch? && !st.Zero? && !(st.Manager? && s.prog.mgr.Clearing?)
      && (st.Worker? && st.step.Exit? ==>
            st.step.rid < |s.progress| && s.progress[st.step.rid] == |WritesOf(tasks)|)
    case Store(r) => r < |s.progress| && s.progress[r] < |WritesOf(tasks)|
    case ZeroWord(c) => s.prog.mgr.Clearing? && c in s.toClear
  }

  /** What a step does to the segment and to its history; `p` is the program after it. */
  function Effect(s: State, step: Step, p: I.State, tasks: seq<PointTask>): State
    requires Enabled(s, step, tasks)
  {
    match step
    case Control(st) =>
      if I.LibraryStep(s.prog, st) == Some(T.Publish) then
        s.(prog := p, progress := s.progress + [0], base := s.seg, zeroed := {})
      else if st.CallBack? then s.(prog := p, toClear := AllCells())
      else s.(prog := p)
    case Store(r) =>
      var w := WritesOf(tasks)[s.progress[r]];
      s.(seg := Put(s.seg, w), progress := s.progress[r := s.progress[r] + 1], zeroed := s.zeroed - {CellOf(w)})
    case ZeroWord(c) =>
      s.(prog := p, seg := Put(s.seg, Write(c.i, ZeroOf(c))), toClear := s.toClear - {c}, zeroed := s.zeroed + {c})
  }

  function Do(s: State, step: Step, tasks: seq<PointTask>): Outcome<State> {
    if !Enabled(s, step, tasks) then Blocked
    else match I.Do(s.prog, ProgramStep(s, step))
      case Blocked => Blocked
      case Fault => Fault
      case Next(p) => Next(Effect(s, step, p, tasks))
  }

  function Start(seg: Segment): State {
    State(I.Init(), seg, [], {}, seg, {})
  }

  /** The step function of a program that installs `tasks`. */
  function Doing(tasks: seq<PointTask>): (State, Step) -> Outcome<State> {
    (s: State, step: Step) => Do(s, step, tasks)
  }

  /** The run of the program behind a run. */
  function ProgramRun(s: State, steps: seq<Step>, tasks: seq<PointTask>): seq<I.Step>
    decreases |steps|
  {
    if steps == [] then []
    else [ProgramStep(s, steps[0])] +
         match Do(s, steps[0], tasks)
         case Next(t) => ProgramRun(t, steps[1..], tasks)
         case _ => []
  }

  lemma TouchKeepsProgram(s: State, step: Step, tasks: seq<PointTask>)
    requires Do(s, step, tasks).Next?
    ensures I.Do(s.prog, ProgramStep(s, step)) == Next(Do(s, step, tasks).s.prog)
  {
  }

  /** Words aside, a run is a run of `InstallData`, faults included; so what is proved there of all
      runs, and of when they fault, is true here. */
  lemma {:induction false} RunIsProgramRun(s: State, steps: seq<Step>, tasks: seq<PointTask>)
    ensures Run(Doing(tasks), s, steps).Fault? ==> Run(I.Do, s.prog, ProgramRun(s, steps, tasks)).Fault?
    ensures Run(Doing(tasks), s, steps).Next? ==>
              Run(I.Do, s.prog, ProgramRun(s, steps, tasks)) == Next(Run(Doing(tasks), s, steps).s.prog)
    decreases |steps|
  {
    if steps != [] {
      var run := ProgramRun(s, steps, tasks);
      match Do(s, steps[0], tasks)
      case Next(t) =>
        assert run[0] == ProgramStep(s, steps[0]) && run[1..] == ProgramRun(t, steps[1..], tasks);
        TouchKeepsProgram(s, steps[0], tasks);
        RunIsProgramRun(t, steps[1..], tasks);
      case _ =>
    }
  }

  // -------------------------------------------------------------- invariant

  predicate WorkerOk(rec: T.Rec, latest: bool, progress: nat, stores: nat) {
    && (T.Live(rec) ==> latest)
    && progress <= stores
    && (rec.state.Finished? ==> progress == stores)
  }

  /** Only the latest worker is live, and a FINISHED one has made all its stores. */
  predicate WorkersOk(s: State, tasks: seq<PointTask>) {
    && |s.progress| == |s.prog.tm.recs|
    && forall r :: 0 <= r < |s.progress| ==>
         WorkerOk(s.prog.tm.recs[r], r == |s.progress| - 1, s.progress[r], |WritesOf(tasks)|)
  }

  /** The word as the latest worker's stores and the zeroing since its start leave it. */
  function Expected(s: State, tasks: seq<PointTask>, c: Cell): Word
    requires s.progress != [] && s.progress[|s.progress| - 1] <= |WritesOf(tasks)| && c.i < MAX_NUM_POINTS
  {
    if c in s.zeroed then ZeroOf(c) else WordAt(PutAll(s.base, WritesOf(tasks)[..s.progress[|s.progress| - 1]]), c)
  }

  ghost predicate SegmentOk(s: State, tasks: seq<PointTask>)
    requires WorkersOk(s, tasks)
  {
    && DirtyOnlyWhereInstalled(s.seg, tasks) && DirtyOnlyWhereInstalled(s.base, tasks)
    && s.zeroed <= AllCells() && s.toClear <= AllCells()
    && (s.progress != [] ==> forall c: Cell :: c.i < MAX_NUM_POINTS ==> WordAt(s.seg, c) == Expected(s, tasks, c))
  }

  ghost predicate Inv(s: State, tasks: seq<PointTask>) {
    I.Inv(s.prog) && WorkersOk(s, tasks) && SegmentOk(s, tasks) && (s.prog.mgr.Clearing? <==> s.toClear != {})
  }

  /** A worker is started only when no other is live. */
  lemma PublishKeepsInv(s: State, st: I.Step, tasks: seq<PointTask>)
    requires Inv(s, tasks) && Do(s, Control(st), tasks).Next? && I.LibraryStep(s.prog, st) == Some(T.Publish)
    requires I.Inv(Do(s, Control(st), tasks).s.prog)
    ensures Inv(Do(s, Control(st), tasks).s, tasks)
  {
    var t := Do(s, Control(st), tasks).s;
    I.RefinesThreadManager(s.prog, st);
    assert I.SlotsFrom(s.prog.tm, false);
    forall r: nat | r < |s.prog.tm.recs| ensures !T.Live(s.prog.tm.recs[r]) {
      I.EmptyMeansNoneLive(s.prog.tm, r);
    }
    assert PutAll(t.base, WritesOf(tasks)[..0]) == t.seg;
  }

  lemma NoRecords(tm: T.State, step: T.Step)
    requires tm.recs == [] && T.Do(tm, step).Next? && !step.Publish?
    ensures T.Do(tm, step).s.recs == []
  {
  }

  lemma ControlKeepsWorkers(s: State, st: I.Step, tasks: seq<PointTask>)
    requires Inv(s, tasks) && Do(s, Control(st), tasks).Next? && I.LibraryStep(s.prog, st) != Some(T.Publish)
    ensures WorkersOk(Do(s, Control(st), tasks).s, tasks)
  {
    I.RefinesThreadManager(s.prog, st);
    var lib := I.LibraryStep(s.prog, st);
    if lib.Some? {
      var recs, recs' := s.prog.tm.recs, Do(s, Control(st), tasks).s.prog.tm.recs;
      if recs == [] {
        NoRecords(s.prog.tm, lib.value);
      }
      forall r: nat | r < |recs|
        ensures |recs'| == |recs| && WorkerOk(recs'[r], r == |recs| - 1, s.progress[r], |WritesOf(tasks)|)
      {
        assert WorkerOk(recs[r], r == |recs| - 1, s.progress[r], |WritesOf(tasks)|);
        T.FinishedByExit(s.prog.tm, lib.value, r);
      }
    }
  }

  lemma ControlKeepsInv(s: State, st: I.Step, tasks: seq<PointTask>)
    requires Inv(s, tasks) && Do(s, Control(st), tasks).Next?
    ensures Inv(Do(s, Control(st), tasks).s, tasks)
  {
    I.StepKeepsInv(s.prog, st);
    if I.LibraryStep(s.prog, st) == Some(T.Publish) {
      PublishKeepsInv(s, st, tasks);
    } else {
      ControlKeepsWorkers(s, st, tasks);
      if st.CallBack? {
        InAllCells(Cell(0, ValidKind));
      }
    }
  }

  /** The stores of the latest worker, one more made. */
  lemma StoreExpected(s: State, r: nat, tasks: seq<PointTask>, c: Cell)
    requires s.progress != [] && r == |s.progress| - 1 && s.progress[r] < |WritesOf(tasks)| && c.i < MAX_NUM_POINTS
    requires WordAt(s.seg, c) == Expected(s, tasks, c)
    ensures Enabled(s, Store(r), tasks)
    ensures var t := Effect(s, Store(r), s.prog, tasks);
            t.progress != [] && t.progress[|t.progress| - 1] <= |WritesOf(tasks)|
            && WordAt(t.seg, c) == Expected(t, tasks, c)
  {
    var k, all := s.progress[r], WritesOf(tasks);
    assert all[..k + 1][..k] == all[..k];
    PutWord(s.seg, all[k], c);
    PutWord(PutAll(s.base, all[..k]), all[k], c);
  }

  lemma StoreKeepsDirty(seg: Segment, w: Write, tasks: seq<PointTask>)
    requires DirtyOnlyWhereInstalled(seg, tasks)
    requires Installed(tasks, w.i) || ClearsWord(w.w)
    ensures DirtyOnlyWhereInstalled(Put(seg, w), tasks)
  {
  }

  lemma StoreKeepsInv(s: State, r: nat, tasks: seq<PointTask>)
    requires Inv(s, tasks) && Do(s, Store(r), tasks).Next?
    ensures Inv(Do(s, Store(r), tasks).s, tasks)
  {
    var k, w := s.progress[r], WritesOf(tasks)[s.progress[r]];
    var t := Do(s, Store(r), tasks).s;
    assert T.Live(s.prog.tm.recs[r]) && T.RecOk(s.prog.tm.recs[r]);
    assert WorkerOk(s.prog.tm.recs[r], r == |s.progress| - 1, k, |WritesOf(tasks)|);
    StoresWhereInstalled(tasks, k);
    StoreKeepsDirty(s.seg, w, tasks);
    forall c: Cell | c.i < MAX_NUM_POINTS ensures WordAt(t.seg, c) == Expected(t, tasks, c) {
      StoreExpected(s, r, tasks, c);
    }
  }

  lemma ZeroKeepsInv(s: State, c: Cell, tasks: seq<PointTask>)
    requires Inv(s, tasks) && Do(s, ZeroWord(c), tasks).Next?
    ensures Inv(Do(s, ZeroWord(c), tasks).s, tasks)
  {
    var t, w := Do(s, ZeroWord(c), tasks).s, Write(c.i, ZeroOf(c));
    I.StepKeepsInv(s.prog, ProgramStep(s, ZeroWord(c)));
    StoreKeepsDirty(s.seg, w, tasks);
    InAllCells(c);
    assert t.prog.tm == s.prog.tm && WorkersOk(t, tasks);
    if s.progress != [] {
      forall d: Cell | d.i < MAX_NUM_POINTS ensures WordAt(t.seg, d) == Expected(t, tasks, d) {
        PutWord(s.seg, w, d);
      }
    }
  }

  /** Every step keeps the invariant: the segment is, word by word, what the latest worker's stores
      and the zeroing since its start make of the segment it started on. No store of a worker
      faults; one of the memset does exactly when the segment has been destroyed. */
  lemma StepKeepsInv(s: State, step: Step, tasks: seq<PointTask>)
    requires Inv(s, tasks)
    ensures step.Store? ==> !Do(s, step, tasks).Fault?
    ensures step.ZeroWord? && step.c in s.toClear ==> (Do(s, step, tasks).Fault? <==> !s.prog.attached)
    ensures Do(s, step, tasks).Next? ==> Inv(Do(s, step, tasks).s, tasks)
  {
    match step
    case Control(st) =>
      if Do(s, step, tasks).Next? {
        ControlKeepsInv(s, st, tasks);
      }
    case Store(r) =>
      I.StepKeepsInv(s.prog, I.Touch(r));
      if Do(s, step, tasks).Next? {
        StoreKeepsInv(s, r, tasks);
      }
    case ZeroWord(c) =>
      if Do(s, step, tasks).Next? {
        ZeroKeepsInv(s, c, tasks);
      }
  }

  lemma {:induction false} RunKeepsInv(s: State, steps: seq<Step>, tasks: seq<PointTask>)
    requires Inv(s, tasks)
    ensures Run(Doing(tasks), s, steps).Next? ==> Inv(Run(Doing(tasks), s, steps).s, tasks)
    decreases |steps|
  {
    if steps != [] {
      StepKeepsInv(s, steps[0], tasks);
      if Do(s, steps[0], tasks).Next? {
        RunKeepsInv(Do(s, steps[0], tasks).s, steps[1..], tasks);
      }
    }
  }

  // -------------------------------------------------------------- theorems

  /** The latest worker has finished. */
  predicate LatestFinished(s: State) {
    var recs := s.prog.tm.recs;
    recs != [] && recs[|recs| - 1].state.Finished?
  }

  lemma FinishedIff(s: State, tasks: seq<PointTask>)
    requires Inv(s, tasks) && Loaded(tasks) && LatestFinished(s)
    ensures s.seg == Replay(Cleared(), tasks) <==>
            forall c :: c in s.zeroed && c.i < MAX_NUM_POINTS ==> WordAt(Replay(Cleared(), tasks), c) == ZeroOf(c)
  {
    var r, all := |s.progress| - 1, WritesOf(tasks);
    assert WorkerOk(s.prog.tm.recs[r], true, s.progress[r], |all|);
    assert all[..|all|] == all;
    WritesReplay(s.base, tasks);
    ReplayFromDirty(s.base, tasks);
    assert forall c: Cell :: c.i < MAX_NUM_POINTS ==> WordAt(s.seg, c) == Expected(s, tasks, c);
    if forall c :: c in s.zeroed && c.i < MAX_NUM_POINTS ==> WordAt(Replay(Cleared(), tasks), c) == ZeroOf(c) {
      WordsDecide(s.seg, Replay(Cleared(), tasks));
    }
  }

  /** The program installs what its file says, and exactly when. In every interleaving of main,
      workers and signals, word by word, from a segment that is clear but where the list installs (a
      new one is clear): once the latest worker has finished, the segment is the full replay of the
      list from the cleared segment if and only if each word zeroed since that worker's start was
      stored again by it later or is zero in the replay; however many workers were cancelled
      half-way before and whatever they and earlier clears left. */
  lemma FinishedWorkerInstalledIff(seg: Segment, steps: seq<Step>, tasks: seq<PointTask>)
    requires Loaded(tasks) && DirtyOnlyWhereInstalled(seg, tasks)
    ensures Run(Doing(tasks), Start(seg), steps).Next? && LatestFinished(Run(Doing(tasks), Start(seg), steps).s) ==>
              var s := Run(Doing(tasks), Start(seg), steps).s;
              && s.zeroed <= AllCells()
              && (s.seg == Replay(Cleared(), tasks) <==>
                    forall c :: c in s.zeroed && c.i < MAX_NUM_POINTS ==>
                      WordAt(Replay(Cleared(), tasks), c) == ZeroOf(c))
  {
    RunKeepsInv(Start(seg), steps, tasks);
    if Run(Doing(tasks), Start(seg), steps).Next? && LatestFinished(Run(Doing(tasks), Start(seg), steps).s) {
      FinishedIff(Run(Doing(tasks), Start(seg), steps).s, tasks);
    }
  }

  // ------------------------------------------------ when a run faults, by words

  ghost predicate Steady(s: State, tasks: seq<PointTask>) {
    Inv(s, tasks) && R.Steady(s.prog)
  }

  /** Main cleans up a handle under a call that looks through it, or detaches the segment before or
      under the memset. */
  predicate Hazard(s: State, step: Step) {
    step.Control? && R.Hazard(s.prog, step.step)
  }

  predicate NotMain(step: Step) {
    step != Control(I.Main)
  }

  predicate Faulted(o: Outcome<State>) {
    o.Fault?
  }

  ghost function Words(tasks: seq<PointTask>): System<State, Step> {
    System(Doing(tasks), (s: State) => Steady(s, tasks), Hazard, NotMain, Faulted)
  }

  lemma StepKeepsSteady(s: State, step: Step, tasks: seq<PointTask>)
    requires Steady(s, tasks) && !Hazard(s, step)
    ensures !Do(s, step, tasks).Fault?
    ensures Do(s, step, tasks).Next? ==> Steady(Do(s, step, tasks).s, tasks)
  {
    StepKeepsInv(s, step, tasks);
    if !step.Store? {
      R.StepKeepsSteady(s.prog, ProgramStep(s, step));
    }
  }

  /** The memset's next word, or the program's step, comes to the fault the program's step does. */
  lemma FaultInWords(s: State, step: I.Step, tasks: seq<PointTask>) returns (word: Step)
    requires R.NotMain(step) && !step.Touch? && !step.Zero? && !(step.Worker? && step.step.Exit?)
    requires I.Do(s.prog, step).Fault? && (s.prog.mgr.Clearing? ==> s.toClear != {})
    ensures NotMain(word) && Do(s, word, tasks).Fault?
  {
    if step.Manager? && s.prog.mgr.Clearing? {
      var c :| c in s.toClear;
      word := ZeroWord(c);
    } else {
      word := Control(step);
    }
  }

  /** Every way the program runs into a fault is one in words. */
  lemma CulpritInWords(s: State, more: seq<I.Step>, tasks: seq<PointTask>) returns (words: seq<Step>)
    requires R.Culprit(more) && Run(I.Do, s.prog, more).Fault?
    requires s.prog.mgr.Clearing? ==> s.toClear != {}
    ensures Quiet(Words(tasks), words) && Run(Doing(tasks), s, words).Fault?
  {
    RunOne(I.Do, s.prog, more[0]);
    if I.Do(s.prog, more[0]).Fault? {
      var word := FaultInWords(s, more[0], tasks);
      RunOne(Doing(tasks), s, word);
      words := [word];
    } else {
      R.RunTwo(s.prog, more[0], I.Manager);
      assert |more| == 2 && more == [more[0], I.Manager];
      var t := Do(s, Control(more[0]), tasks).s;
      InAllCells(Cell(0, ValidKind));
      var word := FaultInWords(t, I.Manager, tasks);
      RunOne(Doing(tasks), t, word);
      RunCons(Doing(tasks), s, Control(more[0]), [word]);
      words := [Control(more[0])] + [word];
    }
  }

  lemma WordsCut(tasks: seq<PointTask>)
    ensures Cutting(Words(tasks))
  {
    var y := Words(tasks);
    forall s, a | y.inv(s) && !y.cuts(s, a) ensures Sound(y, y.do(s, a)) {
      StepKeepsSteady(s, a, tasks);
    }
    forall s, a | y.inv(s) && y.cuts(s, a) && y.do(s, a).Next? ensures ComesToBad(y, y.do(s, a).s) {
      StepKeepsInv(s, a, tasks);
      var more := R.HazardFaults(s.prog, a.step);
      var words := CulpritInWords(Do(s, a, tasks).s, more, tasks);
      assert Quiet(y, words) && y.bad(Run(y.do, y.do(s, a).s, words));
    }
  }

  lemma StartSteady(seg: Segment, tasks: seq<PointTask>)
    requires DirtyOnlyWhereInstalled(seg, tasks)
    ensures Steady(Start(seg), tasks)
  {
    R.InitSteady();
  }

  /** Exactly when install_data faults, word by word: a run leads to a store to the detached segment
      or to a NULL dereference in the library if and only if at some step of it main destroys the
      segment, or cleans up the handle, under another call; and without such a step it does not
      fault itself. */
  lemma FaultIff(seg: Segment, steps: seq<Step>, tasks: seq<PointTask>)
    requires DirtyOnlyWhereInstalled(seg, tasks)
    ensures NeverCuts(Words(tasks), Start(seg), steps) ==> !Run(Doing(tasks), Start(seg), steps).Fault?
    ensures Run(Doing(tasks), Start(seg), steps).Next? ==>
              (Leads(Words(tasks), Start(seg), steps) <==> !NeverCuts(Words(tasks), Start(seg), steps))
  {
    StartSteady(seg, tasks);
    WordsCut(tasks);
    if NeverCuts(Words(tasks), Start(seg), steps) {
      NeverCutsSound(Words(tasks), Start(seg), steps);
    }
    if Run(Doing(tasks), Start(seg), steps).Next? {
      LeadsIff(Words(tasks), Start(seg), steps);
    }
  }

  // ----------------------------------------------------- the spoiled replay

  /** No worker has stored anything, nor a memset under way. */
  predicate Untouched(s: State) {
    && (forall r :: 0 <= r < |s.progress| ==> s.progress[r] == 0)
    && s.toClear == if s.prog.mgr.Clearing? then AllCells() else {}
  }

  lemma PlainStep(s: State, st: I.Step, tasks: seq<PointTask>)
    requires Untouched(s) && R.Plain(st) && I.Do(s.prog, st).Next?
    ensures Do(s, Control(st), tasks).Next?
    ensures var t := Do(s, Control(st), tasks).s; t.prog == I.Do(s.prog, st).s && Untouched(t)
  {
  }

  /** Plain steps of the program can be made without any access to the segment. */
  lemma {:induction false} PlainRun(s: State, steps: seq<I.Step>, tasks: seq<PointTask>) returns (t: State)
    requires Untouched(s) && R.AllPlain(steps) && Run(I.Do, s.prog, steps).Next?
    ensures Reaches(Doing(tasks), s, t) && t.prog == Run(I.Do, s.prog, steps).s && Untouched(t)
    decreases |steps|
  {
    if steps == [] {
      t := s;
      assert Run(Doing(tasks), s, []) == Next(s);
    } else {
      PlainStep(s, steps[0], tasks);
      var u := Do(s, Control(steps[0]), tasks).s;
      t := PlainRun(u, steps[1..], tasks);
      var rest :| Run(Doing(tasks), u, rest) == Next(t);
      assert ([Control(steps[0])] + rest)[1..] == rest;
      assert Run(Doing(tasks), s, [Control(steps[0])] + rest) == Next(t);
    }
  }

  /** A worker inside its function can make all the stores it has left. */
  lemma {:induction false} StoreAll(s: State, t: State, r: nat, tasks: seq<PointTask>) returns (u: State)
    requires Reaches(Doing(tasks), s, t) && t.prog.attached
    requires r < |t.prog.tm.recs| && t.prog.tm.recs[r].phase.InBody? && r < |t.progress|
    requires t.progress[r] <= |WritesOf(tasks)|
    ensures Reaches(Doing(tasks), s, u) && u.prog == t.prog && u.toClear == t.toClear
    ensures |u.progress| == |t.progress| && u.progress[r] == |WritesOf(tasks)|
    decreases |WritesOf(tasks)| - t.progress[r]
  {
    if t.progress[r] == |WritesOf(tasks)| {
      u := t;
    } else {
      ReachesOn(Doing(tasks), s, t, Store(r));
      u := StoreAll(s, Do(t, Store(r), tasks).s, r, tasks);
    }
  }

  /** With the memset still under way, the worker can then finish on a word zeroed under it. */
  lemma ZeroThenFinish(s: State, t: State, r: nat, c: Cell, tasks: seq<PointTask>) returns (u: State)
    requires Reaches(Doing(tasks), s, t) && t.prog.attached && t.prog.mgr.Clearing? && T.Inv(t.prog.tm)
    requires t.toClear == AllCells() && c.i < MAX_NUM_POINTS
    requires r == |t.prog.tm.recs| - 1 && t.prog.tm.recs[r] == R.Inside() && r < |t.progress|
    requires t.progress[r] == |WritesOf(tasks)|
    ensures Reaches(Doing(tasks), s, u) && LatestFinished(u) && c in u.zeroed
  {
    InAllCells(c);
    var other := Cell(c.i, if c.kind.XKind? then YKind else XKind);
    InAllCells(other);
    assert other in t.toClear && t.toClear != {c};
    ReachesOn(Doing(tasks), s, t, ZeroWord(c));
    var v := Do(t, ZeroWord(c), tasks).s;
    T.ExitIsOwn(v.prog.tm, r);
    ReachesOn(Doing(tasks), s, v, Control(I.Worker(T.Exit(r))));
    u := Do(v, Control(I.Worker(T.Exit(r))), tasks).s;
  }

  /** The latest worker has finished and the segment is not the replay. */
  ghost predicate Spoiled(seg: Segment, steps: seq<Step>, tasks: seq<PointTask>) {
    var run := Run(Doing(tasks), Start(seg), steps);
    run.Next? && LatestFinished(run.s) && run.s.seg != Replay(Cleared(), tasks)
  }

  lemma RestartCanSpoil(seg: Segment, tasks: seq<PointTask>, c: Cell) returns (steps: seq<Step>)
    requires Loaded(tasks) && DirtyOnlyWhereInstalled(seg, tasks)
    requires c.i < MAX_NUM_POINTS && WordAt(Replay(Cleared(), tasks), c) != ZeroOf(c)
    ensures Spoiled(seg, steps, tasks)
  {
    var p := R.RestartCanPrecedeClear();
    var run :| Run(I.Do, I.Init(), run) == Next(p) && R.AllPlain(run);
    var a := PlainRun(Start(seg), run, tasks);
    var toA :| Run(Doing(tasks), Start(seg), toA) == Next(a);
    RunKeepsInv(Start(seg), toA, tasks);
    var r := |p.tm.recs| - 1;
    var b := StoreAll(Start(seg), a, r, tasks);
    var u := ZeroThenFinish(Start(seg), b, r, c, tasks);
    steps :| Run(Doing(tasks), Start(seg), steps) == Next(u);
    FinishedWorkerInstalledIff(seg, steps, tasks);
  }

  lemma NonZeroWord(seg: Segment) returns (c: Cell)
    requires seg != Cleared()
    ensures c.i < MAX_NUM_POINTS && WordAt(seg, c) != ZeroOf(c)
  {
    if forall c: Cell :: c.i < MAX_NUM_POINTS ==> WordAt(seg, c) == ZeroOf(c) {
      forall c: Cell | c.i < MAX_NUM_POINTS ensures WordAt(seg, c) == WordAt(Cleared(), c) {
        ClearedWord(c);
      }
      WordsDecide(seg, Cleared());
    }
    c :| c.i < MAX_NUM_POINTS && WordAt(seg, c) != ZeroOf(c);
  }

  /** Since a restarted worker need not wait for the clear, a run can end its latest worker on a
      segment that is not the replay: for every list and every such segment, exactly when the list
      leaves anything but a cleared segment at all. */
  lemma RestartSpoilsIff(seg: Segment, tasks: seq<PointTask>)
    requires Loaded(tasks) && DirtyOnlyWhereInstalled(seg, tasks)
    ensures (exists steps :: Spoiled(seg, steps, tasks)) <==> Replay(Cleared(), tasks) != Cleared()
  {
    if Replay(Cleared(), tasks) == Cleared() {
      forall steps ensures !Spoiled(seg, steps, tasks) {
        FinishedWorkerInstalledIff(seg, steps, tasks);
        forall c: Cell | c.i < MAX_NUM_POINTS ensures WordAt(Cleared(), c) == ZeroOf(c) {
          ClearedWord(c);
        }
      }
    } else {
      var c := NonZeroWord(Replay(Cleared(), tasks));
      var steps := RestartCanSpoil(seg, tasks, c);
    }
  }
}
