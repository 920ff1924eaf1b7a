/**
 The task list of src/bin/install_data/install_data.c, what replaying it does to the 20-point
 segment (src/lib/store/point.c), and why a restart may begin while the old worker still writes.
 Coordinates are reals; semaphores are off, so taking the segment's lock always succeeds.
 */
module TaskReplay {
  import L = LinkedList

  const MAX_NUM_POINTS: nat := 20

  datatype Point = Point(isValid: int, x: real, y: real)

  datatype PointTask = PointTask(index: int, delay: int, point: Point)

  const ZERO := Point(0, 0.0, 0.0)

  type Segment = s: seq<Point> | |s| == MAX_NUM_POINTS witness seq(MAX_NUM_POINTS, i => ZERO)

  /** What memset leaves. */
  function Cleared(): Segment {
    seq(MAX_NUM_POINTS, i => ZERO)
  }

  // ---------------------------------------------------------------- loading

  /** A line of the input file, as sscanf reads it. */
  datatype Line = Unreadable | Fields(index: int, x: real, y: real, delay: int)

  predicate GoodIndex(i: int) {
    0 <= i < MAX_NUM_POINTS
  }

  /** Every task is valid: its index is in range and it installs a valid point. */
  predicate Loaded(tasks: seq<PointTask>) {
    forall k :: 0 <= k < |tasks| ==> GoodIndex(tasks[k].index) && tasks[k].point.isValid == 1
  }

  /** create_entry over the whole file: unreadable lines and bad indices are skipped. */
  function Load(lines: seq<Line>): (tasks: seq<PointTask>)
    ensures Loaded(tasks)
  {
    if lines == [] then []
    else
      var rest := Load(lines[..|lines| - 1]);
      match lines[|lines| - 1]
      case Unreadable => rest
      case Fields(i, x, y, d) => if GoodIndex(i) then rest + [PointTask(i, d, Point(1, x, y))] else rest
  }

  /** No line affects how another is read, and the order of the file is kept. */
  lemma {:induction false} LoadAppend(a: seq<Line>, b: seq<Line>)
    ensures Load(a + b) == Load(a) + Load(b)
    decreases |b|
  {
    if b == [] {
      assert a + b == a;
    } else {
      var n := |b| - 1;
      assert (a + b)[..|a + b| - 1] == a + b[..n];
      LoadAppend(a, b[..n]);
    }
  }

  /** Task `k` is what line `pos[k]` says, the tasks come in the order of their lines, and every
      readable line with a good index has its task. */
  predicate FromLines(tasks: seq<PointTask>, lines: seq<Line>, pos: seq<nat>) {
    && |pos| == |tasks|
    && (forall k :: 0 <= k < |pos| ==>
          pos[k] < |lines|
          && lines[pos[k]] == Fields(tasks[k].index, tasks[k].point.x, tasks[k].point.y, tasks[k].delay))
    && (forall j, k :: 0 <= j < k < |pos| ==> pos[j] < pos[k])
    && forall n: nat :: n < |lines| && lines[n].Fields? && 0 <= lines[n].index < 20 ==> n in pos
  }

  /** A line skipped, or one with its task. */
  lemma FromLinesOn(tasks: seq<PointTask>, lines: seq<Line>, pos: seq<nat>, line: Line)
    requires FromLines(tasks, lines, pos)
    ensures !(line.Fields? && 0 <= line.index < 20) ==> FromLines(tasks, lines + [line], pos)
    ensures forall task: PointTask :: line == Fields(task.index, task.point.x, task.point.y, task.delay) ==>
              FromLines(tasks + [task], lines + [line], pos + [|lines|])
  {
    assert forall n: nat :: n < |lines| ==> (lines + [line])[n] == lines[n];
    assert forall n: nat :: n in pos || n == |lines| ==> n in pos + [|lines|];
  }

  /** The task list is the file's good lines, field by field and in order. */
  lemma {:induction false} LoadReadsLines(lines: seq<Line>) returns (pos: seq<nat>)
    ensures FromLines(Load(lines), lines, pos)
  {
    if lines == [] {
      pos := [];
    } else {
      var n := |lines| - 1;
      var front, tasks := lines[..n], Load(lines);
      pos := LoadReadsLines(front);
      FromLinesOn(Load(front), front, pos, lines[n]);
      assert front + [lines[n]] == lines;
      if |tasks| == |pos| + 1 {
        assert tasks == Load(front) + [tasks[|pos|]];
        pos := pos + [n];
      }
    }
  }

  // -------------------------------------------------------------- replaying

  function InstallPoint(seg: Segment, index: int, point: Point): Segment {
    if GoodIndex(index) then seg[index := point] else seg
  }

  function InvalidatePoint(seg: Segment, index: int): Segment {
    if GoodIndex(index) then seg[index := seg[index].(isValid := 0)] else seg
  }

  /** process_entry, after its sleep. */
  function Perform(seg: Segment, task: PointTask): Segment {
    if task.delay >= 0 then InstallPoint(seg, task.index, task.point) else InvalidatePoint(seg, task.index)
  }

  function Replay(seg: Segment, tasks: seq<PointTask>): Segment {
    if tasks == [] then seg else Perform(Replay(seg, tasks[..|tasks| - 1]), tasks[|tasks| - 1])
  }

  function Abs(d: int): nat {
    if d < 0 then -d else d
  }

  function Elapsed(tasks: seq<PointTask>): nat {
    if tasks == [] then 0 else Elapsed(tasks[..|tasks| - 1]) + Abs(tasks[|tasks| - 1].delay)
  }

  predicate Installs(task: PointTask, i: int) {
    task.index == i && task.delay >= 0
  }

  /** After any task list an index is valid iff its last task installs, its coordinates are those of
      its last install, and an index without a task is as it was. */
  lemma {:induction false} LastWriter(seg: Segment, tasks: seq<PointTask>, i: nat, k: nat)
    requires Loaded(tasks) && i < MAX_NUM_POINTS && k < |tasks|
    ensures var p := Replay(seg, tasks)[i];
            && (tasks[k].index == i && (forall j :: k < j < |tasks| ==> tasks[j].index != i) ==>
                  p.isValid == (if tasks[k].delay >= 0 then 1 else 0))
            && (Installs(tasks[k], i) && (forall j :: k < j < |tasks| ==> !Installs(tasks[j], i)) ==>
                  p.x == tasks[k].point.x && p.y == tasks[k].point.y)
    decreases |tasks|
  {
    var n := |tasks| - 1;
    if k < n {
      LastWriter(seg, tasks[..n], i, k);
    }
  }

  /** Only a task on an index changes it, and only an install changes its coordinates. */
  lemma {:induction false} UntouchedUnchanged(seg: Segment, tasks: seq<PointTask>, i: nat)
    requires Loaded(tasks) && i < MAX_NUM_POINTS
    ensures (forall k :: 0 <= k < |tasks| ==> tasks[k].index != i) ==> Replay(seg, tasks)[i] == seg[i]
    ensures (forall k :: 0 <= k < |tasks| ==> !Installs(tasks[k], i)) ==>
              Replay(seg, tasks)[i].x == seg[i].x && Replay(seg, tasks)[i].y == seg[i].y
    decreases |tasks|
  {
    if tasks != [] {
      UntouchedUnchanged(seg, tasks[..|tasks| - 1], i);
    }
  }

  // ------------------------------------------------------------- confluence

  predicate Installed(tasks: seq<PointTask>, i: int) {
    exists k :: 0 <= k < |tasks| && Installs(tasks[k], i)
  }

  predicate Touched(tasks: seq<PointTask>, i: int) {
    exists k :: 0 <= k < |tasks| && tasks[k].index == i
  }

  /** The part of a point that survives the task list: nothing where some task installs, the
      coordinates where tasks only invalidate, everything elsewhere. */
  predicate SameLeft(p: Point, q: Point, tasks: seq<PointTask>, i: int) {
    Installed(tasks, i) || (p.x == q.x && p.y == q.y && (Touched(tasks, i) || p == q))
  }

  lemma {:induction false} ReplayIndexIff(a: Segment, b: Segment, tasks: seq<PointTask>, i: nat)
    requires Loaded(tasks) && i < MAX_NUM_POINTS
    ensures Replay(a, tasks)[i] == Replay(b, tasks)[i] <==> SameLeft(a[i], b[i], tasks, i)
    decreases |tasks|
  {
    if tasks != [] {
      var n := |tasks| - 1;
      var front, t := tasks[..n], tasks[n];
      ReplayIndexIff(a, b, front, i);
      UntouchedUnchanged(a, front, i);
      UntouchedUnchanged(b, front, i);
      assert Installed(front, i) ==> Installed(tasks, i) by {
        if k :| 0 <= k < n && Installs(front[k], i) { assert Installs(tasks[k], i); }
      }
      assert Touched(front, i) ==> Touched(tasks, i) by {
        if k :| 0 <= k < n && front[k].index == i { assert tasks[k].index == i; }
      }
      assert Installed(tasks, i) ==> Installed(front, i) || Installs(t, i) by {
        if k :| 0 <= k <= n && Installs(tasks[k], i) { assert k < n ==> Installs(front[k], i); }
      }
      assert Touched(tasks, i) ==> Touched(front, i) || t.index == i by {
        if k :| 0 <= k <= n && tasks[k].index == i { assert k < n ==> front[k].index == i; }
      }
    }
  }

  /** Two segments replay to the same one exactly when they agree on everything the list leaves. */
  lemma ReplayConfluentIff(a: Segment, b: Segment, tasks: seq<PointTask>)
    requires Loaded(tasks)
    ensures Replay(a, tasks) == Replay(b, tasks) <==>
            forall i :: 0 <= i < MAX_NUM_POINTS ==> SameLeft(a[i], b[i], tasks, i)
  {
    forall i: nat | i < MAX_NUM_POINTS
      ensures Replay(a, tasks)[i] == Replay(b, tasks)[i] <==> SameLeft(a[i], b[i], tasks, i)
    {
      ReplayIndexIff(a, b, tasks, i);
    }
  }

  /** Replaying is insensitive to whatever is at the indices some task installs. */
  lemma ReplayFromDirty(dirty: Segment, tasks: seq<PointTask>)
    requires Loaded(tasks)
    requires forall i :: 0 <= i < MAX_NUM_POINTS && dirty[i] != Cleared()[i] ==> Installed(tasks, i)
    ensures Replay(dirty, tasks) == Replay(Cleared(), tasks)
  {
    ReplayConfluentIff(dirty, Cleared(), tasks);
  }

  // --------------------------------------------- clearing under a live writer

  /** One machine word of the segment being written. */
  datatype Word = ValidWord(v: int) | XWord(r: real) | YWord(r: real)

  datatype Write = Write(i: nat, w: Word)

  function Put(seg: Segment, w: Write): Segment {
    if |seg| <= w.i then seg
    else match w.w
      case ValidWord(v) => seg[w.i := seg[w.i].(isValid := v)]
      case XWord(r) => seg[w.i := seg[w.i].(x := r)]
      case YWord(r) => seg[w.i := seg[w.i].(y := r)]
  }

  function PutAll(seg: Segment, trace: seq<Write>): Segment {
    if trace == [] then seg else Put(PutAll(seg, trace[..|trace| - 1]), trace[|trace| - 1])
  }

  /** A word as memset writes it. */
  predicate ClearsWord(w: Word) {
    w == ValidWord(0) || w == XWord(0.0) || w == YWord(0.0)
  }

  /** A word the old worker writes for some task: part of the memcpy of an install, or the flag of
      an invalidation. */
  predicate WorkerWrites(tasks: seq<PointTask>, w: Write) {
    exists k :: 0 <= k < |tasks| && tasks[k].index == w.i &&
      (if tasks[k].delay >= 0
       then w.w == ValidWord(tasks[k].point.isValid) || w.w == XWord(tasks[k].point.x) || w.w == YWord(tasks[k].point.y)
       else w.w == ValidWord(0))
  }

  /** The words of one whole memset in any order, with any words of the old worker in between or
      after, torn or not. */
  predicate ClearUnderWriter(trace: seq<Write>, tasks: seq<PointTask>) {
    && (forall k :: 0 <= k < |trace| ==> ClearsWord(trace[k].w) || WorkerWrites(tasks, trace[k]))
    && forall i: nat :: i < MAX_NUM_POINTS ==>
         Write(i, ValidWord(0)) in trace && Write(i, XWord(0.0)) in trace && Write(i, YWord(0.0)) in trace
  }

  /** If only zeroes are written to a point, each of its words that is written ends as zero. */
  lemma {:induction false} OnlyZeroes(seg: Segment, trace: seq<Write>, i: nat)
    requires i < MAX_NUM_POINTS
    requires forall k :: 0 <= k < |trace| && trace[k].i == i ==> ClearsWord(trace[k].w)
    ensures var p := PutAll(seg, trace)[i];
            && (Write(i, ValidWord(0)) in trace ==> p.isValid == 0)
            && (Write(i, XWord(0.0)) in trace ==> p.x == 0.0)
            && (Write(i, YWord(0.0)) in trace ==> p.y == 0.0)
    decreases |trace|
  {
    if trace != [] {
      OnlyZeroes(seg, trace[..|trace| - 1], i);
      assert trace == trace[..|trace| - 1] + [trace[|trace| - 1]];
    }
  }

  /** The restart is confluent: from any segment, whatever of the old worker's writes land during
      or after the clear, replaying the whole list gives what it gives from the cleared segment. */
  lemma RestartConfluent(seg: Segment, trace: seq<Write>, tasks: seq<PointTask>)
    requires Loaded(tasks) && ClearUnderWriter(trace, tasks)
    ensures Replay(PutAll(seg, trace), tasks) == Replay(Cleared(), tasks)
  {
    var dirty := PutAll(seg, trace);
    forall i | 0 <= i < MAX_NUM_POINTS && !Installed(tasks, i) ensures dirty[i] == Cleared()[i] {
      forall k | 0 <= k < |trace| && trace[k].i == i ensures ClearsWord(trace[k].w) {
        if WorkerWrites(tasks, trace[k]) {
          var j :| 0 <= j < |tasks| && tasks[j].index == i &&
                   (if tasks[j].delay >= 0
                    then trace[k].w == ValidWord(tasks[j].point.isValid) || trace[k].w == XWord(tasks[j].point.x) ||
                         trace[k].w == YWord(tasks[j].point.y)
                    else trace[k].w == ValidWord(0));
          assert !Installs(tasks[j], i);
        }
      }
      OnlyZeroes(seg, trace, i);
    }
    ReplayFromDirty(dirty, tasks);
  }

  // --------------------------------------------------------------- the class

  /** A moment of the run: the logical time and the segment as it then is. */
  datatype Event = Event(time: nat, points: seq<Point>)

  class SharedSegment {
    const points: array<Point>

    ghost predicate Valid() {
      points.Length == MAX_NUM_POINTS
    }

    ghost function Contents(): Segment
      requires Valid()
      reads points
    {
      points[..]
    }

    constructor ()
      ensures Valid() && fresh(points) && Contents() == Cleared()
    {
      points := new Point[MAX_NUM_POINTS](i => ZERO);
    }

    /** install_point. */
    method Install(index: int, point: Point)
      requires Valid()
      modifies points
      ensures Contents() == InstallPoint(old(Contents()), index, point)
    {
      if index < 0 || index >= MAX_NUM_POINTS {
        return;
      }
      points[index] := point;
    }

    /** invalidate_point. */
    method Invalidate(index: int)
      requires Valid()
      modifies points
      ensures Contents() == InvalidatePoint(old(Contents()), index)
    {
      if index < 0 || index >= MAX_NUM_POINTS {
        return;
      }
      points[index] := points[index].(isValid := 0);
    }

    /** The memset of clear_and_restart. */
    method Clear()
      requires Valid()
      modifies points
      ensures Contents() == Cleared()
    {
      var i := 0;
      while i < points.Length
        invariant 0 <= i <= points.Length
        invariant forall k :: 0 <= k < i ==> points[k] == ZERO
      {
        points[i] := ZERO;
        i := i + 1;
      }
    }

    /** process_entry, after its sleep; it checks the index once more. */
    method ProcessEntry(task: PointTask)
      requires Valid()
      modifies points
      ensures Contents() == Perform(old(Contents()), task)
    {
      if task.index < 0 || task.index >= MAX_NUM_POINTS {
        return;
      }
      if task.delay >= 0 {
        Install(task.index, task.point);
      } else {
        Invalidate(task.index);
      }
    }

    /** Entry k of the log is the time of task k and the segment just after it. */
    static predicate Logged(log: seq<Event>, start: Segment, tasks: seq<PointTask>) {
      && |log| <= |tasks|
      && forall k :: 0 <= k < |log| ==> log[k] == Event(Elapsed(tasks[..k + 1]), Replay(start, tasks[..k + 1]))
    }

    static lemma LogNext(log: seq<Event>, start: Segment, tasks: seq<PointTask>, e: Event)
      requires Logged(log, start, tasks) && |log| < |tasks|
      requires e == Event(Elapsed(tasks[..|log| + 1]), Replay(start, tasks[..|log| + 1]))
      ensures Logged(log + [e], start, tasks)
    {
    }

    /** Each task waits for its delay, or for minus that, after the one before it. */
    static lemma TimesAdd(log: seq<Event>, start: Segment, tasks: seq<PointTask>, k: nat)
      requires Logged(log, start, tasks) && k < |log|
      ensures var prev := if k == 0 then 0 else log[k - 1].time;
              && prev <= log[k].time
              && (log[k].time - prev == tasks[k].delay || log[k].time - prev == -tasks[k].delay)
    {
      assert tasks[..k + 1][..k] == tasks[..k] && tasks[..k + 1][k] == tasks[k];
    }

    /** thread_entry_point: walks the task list, sleeping before each task. Task k takes effect at
        the sum of the absolute delays up to k, on what the tasks before it left. */
    method RunTasks(list: L.List<PointTask>) returns (log: seq<Event>)
      requires Valid() && list.Valid()
      modifies points
      ensures var tasks := list.State().items;
              && Contents() == Replay(old(Contents()), tasks)
              && |log| == |tasks| && Logged(log, old(Contents()), tasks)
    {
      log := [];
      var clock: nat := 0;
      var node := list.head;
      ghost var k: nat, tasks := 0, list.State().items;
      while node != null
        invariant k <= |list.spine| && node == if k < |list.spine| then list.spine[k] else null
        invariant list.Valid() && tasks == list.State().items
        invariant clock == Elapsed(tasks[..k]) && Contents() == Replay(old(Contents()), tasks[..k])
        invariant |log| == k && Logged(log, old(Contents()), tasks)
        decreases |list.spine| - k
      {
        var task := node.value;
        assert tasks[..k + 1][..k] == tasks[..k] && tasks[..k + 1][k] == task;
        clock := clock + Abs(task.delay);
        ProcessEntry(task);
        LogNext(log, old(Contents()), tasks, Event(clock, points[..]));
        log := log + [Event(clock, points[..])];
        node, k := node.next, k + 1;
      }
      assert tasks[..k] == tasks;
    }
  }
}
