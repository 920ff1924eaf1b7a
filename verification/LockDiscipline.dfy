/**
 The two-level recursive locking of src/lib/thread_mgr/thread_mgr.c, one lock operation at a time.
 Each library call is the script of lock operations, table accesses and joins its source text makes;
 any number of threads run any calls, interleaved operation by operation, and a thread may die
 anywhere (a cancellation delivered inside show_thread leaves a lock without a live owner).

 As in the source, a record's lock is named through Threads[th] each time: what a call releases is
 the lock of the record then in the slot, which need not be the one it took. The slots change as in
 `ThreadModel`, by publishing new records and by cleanups, both inside StoreLock.
 */
module LockDiscipline {
  import opened Options
  import T = ThreadModel

  datatype Lock = StoreLock | RecordLock(rid: nat)

  /** Take, Drop: StoreLock. Guard: the NULL check with which a call may return at once. Show:
      show_thread's check. Fetch, TakeFetched: pthread_mutex_lock(&Threads[h]->lock), which reads the
      pointer before it may block. DropAt: pthread_mutex_unlock(&Threads[h]->lock). */
  datatype Act =
    | Take
    | Drop
    | Guard(h: nat)
    | Show(h: nat)
    | Fetch(h: nat)
    | TakeFetched
    | DropAt(h: nat)
    | Join
    | Put(h: nat)
    | Clear(h: nat)

  // ---------------------------------------------------------------- scripts

  datatype Call =
    | Execute(h: nat, full: bool)
    | Decorate(h: nat)
    | Wait(h: nat, announced: bool, joins: bool)
    | Kill(h: nat)
    | Exit(h: nat)
    | ShowAll
    | GetName(h: nat)
    | GetState(h: nat)

  /** The record's lock for a moment. */
  function Section(h: nat): seq<Act> {
    [Fetch(h), TakeFetched, DropAt(h)]
  }

  function ShowFrom(h: nat): seq<Act>
    requires h <= T.MAX_THREADS
    decreases T.MAX_THREADS - h
  {
    if h == T.MAX_THREADS then [Drop] else [Show(h)] + ShowFrom(h + 1)
  }

  function Script(c: Call): seq<Act> {
    match c
    case Execute(h, full) => [Take, Drop] + if full then [] else [Take, Put(h), Drop]
    case Decorate(h) => [Take, Show(h), Drop]
    case Wait(h, announced, joins) =>
      [Guard(h)] + (Section(h) + ((if announced then [Show(h)] else []) +
      ((if joins then [Join] else []) + [Show(h), Take, Clear(h), Drop])))
    case Kill(h) => [Guard(h), Fetch(h), TakeFetched, Show(h), DropAt(h)]
    case Exit(h) => Section(h) + [Show(h)]
    case ShowAll => [Take] + ShowFrom(0)
    case GetName(h) => [Guard(h), Take, Drop]
    case GetState(h) => [Guard(h)] + Section(h)
  }

  // ------------------------------------------------------------- discipline

  /** The next operation does not go through a slot unchecked. */
  predicate NoFetch(todo: seq<Act>) {
    todo != [] ==> !todo[0].Fetch? && !todo[0].TakeFetched? && !todo[0].DropAt?
  }

  predicate NoTakeFetched(todo: seq<Act>) {
    todo != [] ==> !todo[0].TakeFetched?
  }

  /** What a script may do next: `store` if it has StoreLock, and `n` for how many locks it has taken
      through slot `at` less those it has released there. Locks nest StoreLock first and one record
      at a time, a join and StoreLock come with no lock held, and the script ends with none. */
  predicate Tidy(store: bool, at: nat, n: nat, todo: seq<Act>)
    decreases |todo|
  {
    if todo == [] then n == 0 && !store
    else
      var rest := todo[1..];
      (todo[0].Fetch? || NoTakeFetched(rest)) &&
      match todo[0]
      case Take => n == 0 && !store && NoFetch(rest) && Tidy(true, at, 0, rest)
      case Drop => n == 0 && store && Tidy(false, at, 0, rest)
      case Guard(h) => n == 0 && !store && Tidy(false, h, 0, rest)
      case Show(h) => (n == 0 || h == at) && (store ==> NoFetch(rest)) && Tidy(store, h, n, rest)
      case Fetch(h) =>
        && (n == 0 || h == at) && rest != [] && rest[0].TakeFetched?
        && (store ==> |rest| > 1 && rest[1] == DropAt(h)) && Tidy(store, h, n, rest)
      case TakeFetched => (store ==> rest != [] && rest[0] == DropAt(at)) && Tidy(store, at, n + 1, rest)
      case DropAt(h) =>
        (n == 0 || h == at) && (store ==> NoFetch(rest)) && Tidy(store, h, if n == 0 then 0 else n - 1, rest)
      case Join => n == 0 && !store && Tidy(false, at, 0, rest)
      case Put(h) => n == 0 && store && NoFetch(rest) && Tidy(true, at, 0, rest)
      case Clear(h) => n == 0 && store && NoFetch(rest) && Tidy(true, at, 0, rest)
  }

  lemma {:induction false} ShowFromTidy(h: nat, at: nat)
    requires h <= T.MAX_THREADS
    ensures NoFetch(ShowFrom(h)) && Tidy(true, at, 0, ShowFrom(h))
    decreases T.MAX_THREADS - h
  {
    if h == T.MAX_THREADS {
      assert [Drop][1..] == [];
    } else {
      ShowFromTidy(h + 1, h);
      assert ShowFrom(h)[1..] == ShowFrom(h + 1);
    }
  }

  /** A balanced section before a script. */
  lemma SectionTidy(store: bool, at: nat, h: nat, n: nat, rest: seq<Act>)
    requires NoTakeFetched(rest) && (n == 0 || h == at) && Tidy(store, h, n, rest) && (store ==> NoFetch(rest))
    ensures Tidy(store, at, n, Section(h) + rest)
  {
    var acts := Section(h) + rest;
    assert acts[1..] == [TakeFetched, DropAt(h)] + rest && acts[1..][1..] == [DropAt(h)] + rest;
    assert acts[1..][1..][1..] == rest;
    assert Tidy(store, h, n + 1, [DropAt(h)] + rest);
    assert Tidy(store, h, n, [TakeFetched, DropAt(h)] + rest);
  }

  lemma ShowTidy(at: nat, h: nat, n: nat, rest: seq<Act>)
    requires NoTakeFetched(rest) && (n == 0 || h == at) && Tidy(false, h, n, rest)
    ensures Tidy(false, at, n, [Show(h)] + rest)
  {
    assert ([Show(h)] + rest)[1..] == rest;
  }

  /** A cleanup or a publish in its StoreLock section, and nothing more. */
  lemma StoreTidy(at: nat, act: Act)
    requires act.Put? || act.Clear? || act.Show?
    ensures Tidy(false, at, 0, [Take, act, Drop])
    ensures Tidy(false, at, 0, [Take, Drop] + [Take, act, Drop]) && Tidy(false, at, 0, [Take, Drop])
  {
    var acts, both := [Take, act, Drop], [Take, Drop] + [Take, act, Drop];
    assert acts[1..] == [act, Drop] && acts[1..][1..] == [Drop] && [Drop][1..] == [] && [Take, Drop][1..] == [Drop];
    assert both[1..] == [Drop] + acts && both[1..][1..] == acts;
    assert forall k: nat :: Tidy(true, k, 0, [Drop]);
    assert forall k: nat :: Tidy(true, k, 0, [act, Drop]);
    assert forall k: nat :: Tidy(false, k, 0, acts);
    assert Tidy(true, at, 0, [Drop] + acts);
  }

  lemma WaitTidy(at: nat, h: nat, announced: bool, joins: bool)
    ensures Tidy(false, at, 0, Script(Wait(h, announced, joins)))
  {
    StoreTidy(h, Clear(h));
    var end := [Show(h), Take, Clear(h), Drop];
    assert end == [Show(h)] + [Take, Clear(h), Drop];
    ShowTidy(h, h, 0, [Take, Clear(h), Drop]);
    var join := (if joins then [Join] else []) + end;
    assert joins ==> join[1..] == end;
    assert !joins ==> join == end;
    assert Tidy(false, h, 0, join);
    var shown := (if announced then [Show(h)] else []) + join;
    ShowTidy(h, h, 0, join);
    assert !announced ==> shown == join;
    SectionTidy(false, h, h, 0, shown);
    assert ([Guard(h)] + (Section(h) + shown))[1..] == Section(h) + shown;
  }

  lemma KillTidy(at: nat, h: nat)
    ensures Tidy(false, at, 0, Script(Kill(h)))
  {
    var s := Script(Kill(h));
    assert s[1..] == [Fetch(h), TakeFetched, Show(h), DropAt(h)];
    assert s[1..][1..] == [TakeFetched, Show(h), DropAt(h)];
    assert s[1..][1..][1..] == [Show(h), DropAt(h)];
    assert s[1..][1..][1..][1..] == [DropAt(h)] && [DropAt(h)][1..] == [];
    assert Tidy(false, h, 1, [DropAt(h)]) && Tidy(false, h, 1, [Show(h), DropAt(h)]);
    assert Tidy(false, h, 0, [TakeFetched, Show(h), DropAt(h)]);
  }

  /** Every library call keeps the discipline. */
  lemma ScriptTidy(c: Call, at: nat)
    ensures Tidy(false, at, 0, Script(c)) && NoTakeFetched(Script(c))
  {
    match c
    case Execute(h, full) =>
      StoreTidy(at, Put(h));
      assert [Take, Drop] + [] == [Take, Drop];
    case Decorate(h) => StoreTidy(at, Show(h));
    case Wait(h, announced, joins) => WaitTidy(at, h, announced, joins);
    case Kill(h) => KillTidy(at, h);
    case Exit(h) =>
      ShowTidy(h, h, 0, []);
      assert [Show(h)] + [] == [Show(h)];
      SectionTidy(false, at, h, 0, [Show(h)]);
    case ShowAll =>
      ShowFromTidy(0, at);
      assert ([Take] + ShowFrom(0))[1..] == ShowFrom(0);
    case GetName(h) =>
      StoreTidy(h, Show(h));
      assert [Guard(h), Take, Drop][1..] == [Take, Drop];
    case GetState(h) =>
      SectionTidy(false, h, h, 0, []);
      assert Section(h) + [] == Section(h);
      assert ([Guard(h)] + Section(h))[1..] == Section(h);
  }

  // ------------------------------------------------- what each call takes

  /** th_kill, once past its check, takes the lock of the record in its slot before all else, and
      keeps it until it ends. */
  lemma KillKeepsLock(h: nat)
    ensures var s := Script(Kill(h));
            && 4 <= |s| && s[..3] == [Guard(h), Fetch(h), TakeFetched] && s[|s| - 1] == DropAt(h)
            && forall i :: 3 <= i < |s| - 1 ==> !s[i].DropAt? && !s[i].Guard?
  {
  }

  /** th_exit and get_thread_state touch their record with its lock, for a moment, and th_exit shows it
      after that. */
  lemma SectionsFirst(h: nat)
    ensures [Fetch(h), TakeFetched, DropAt(h)] <= Script(Exit(h)) && Show(h) in Script(Exit(h))[3..]
    ensures Script(GetState(h)) == [Guard(h), Fetch(h), TakeFetched, DropAt(h)]
  {
  }

  /** th_wait reads its record with its lock, joins with no lock if at all, shows the record after
      that, and empties its slot, its last access, with StoreLock. */
  lemma WaitOrder(h: nat, announced: bool, joins: bool)
    ensures var s := Script(Wait(h, announced, joins));
            && [Guard(h), Fetch(h), TakeFetched, DropAt(h)] <= s
            && 8 <= |s| && s[|s| - 4..] == [Show(h), Take, Clear(h), Drop]
            && (joins <==> Join in s) && (joins ==> s[|s| - 5] == Join)
            && Clear(h) !in s[..|s| - 4]
  {
    var s := Script(Wait(h, announced, joins));
    var front := [Guard(h)] + Section(h) + ((if announced then [Show(h)] else []) + (if joins then [Join] else []));
    assert s == front + [Show(h), Take, Clear(h), Drop];
    assert |front| == 4 + (if announced then 1 else 0) + (if joins then 1 else 0);
    assert s[|s| - 4..] == [Show(h), Take, Clear(h), Drop] && s[..|s| - 4] == front;
    assert joins ==> front[|front| - 1] == Join && s[|front| - 1] == Join;
  }

  lemma {:induction false} ShowFromIs(h: nat, i: nat)
    requires h <= i < T.MAX_THREADS
    ensures |ShowFrom(h)| == T.MAX_THREADS - h + 1
    ensures ShowFrom(h)[i - h] == Show(i) && ShowFrom(h)[T.MAX_THREADS - h] == Drop
    decreases T.MAX_THREADS - h
  {
    if h + 1 < T.MAX_THREADS {
      ShowFromIs(h + 1, if i == h then h + 1 else i);
    }
  }

  /** th_execute searches with StoreLock and publishes in its slot with StoreLock, func_decorator shows
      its record with it, and get_thread_name has it for a moment. */
  lemma StoreSections(h: nat)
    ensures Script(Execute(h, false)) == [Take, Drop, Take, Put(h), Drop] && Script(Execute(h, true)) == [Take, Drop]
    ensures Script(Decorate(h)) == [Take, Show(h), Drop] && Script(GetName(h)) == [Guard(h), Take, Drop]
  {
  }

  /** show_all_threads shows every slot, all in one section with StoreLock. */
  lemma ShowAllOrder(i: nat)
    requires i < T.MAX_THREADS
    ensures var s := Script(ShowAll);
            && |s| == T.MAX_THREADS + 2 && s[0] == Take && s[i + 1] == Show(i) && s[T.MAX_THREADS + 1] == Drop
  {
    var h := 0;
    ShowFromIs(h, i);
    assert Script(ShowAll) == [Take] + ShowFrom(h);
  }

  // --------------------------------------------------------------- the runs

  /** `want` is the record whose lock was fetched; `at` and `taken` are the place of the call in its
      script, as in `Tidy`. */
  datatype Thread = Thread(held: multiset<Lock>, want: nat, todo: seq<Act>, dead: bool, at: nat, taken: nat)

  /** `gone` says when a record was cleaned up, by a clock that counts cleanups. */
  datatype State = State(threads: map<nat, Thread>, slots: seq<Option<nat>>, records: nat,
                         gone: map<nat, nat>, clock: nat)

  datatype Step = Begin(tid: nat, call: Call) | Advance(tid: nat) | Die(tid: nat)

  function Slot(slots: seq<Option<nat>>, h: nat): Option<nat> {
    if h < |slots| then slots[h] else None
  }

  predicate HeldByOther(s: State, t: nat, l: Lock) {
    exists u :: u in s.threads && u != t && l in s.threads[u].held
  }

  function SetThread(s: State, t: nat, th: Thread): State {
    s.(threads := s.threads[t := th])
  }

  /** A cleanup of slot `h`. */
  function Cleaned(s: State, h: nat): State {
    if Slot(s.slots, h).None? then s
    else s.(slots := s.slots[h := None], gone := s.gone[s.slots[h].value := s.clock], clock := s.clock + 1)
  }

  /** A new record in slot `h`; one still there, which serialised calls of th_execute rule out, would
      be lost. */
  function Published(s: State, h: nat): State {
    if h < |s.slots| then Cleaned(s, h).(slots := s.slots[h := Some(s.records)], records := s.records + 1) else s
  }

  /** The next operation of a thread. None when it blocks on a lock, or dereferences NULL. The locks
      are recursive, and releasing a lock that is not owned only returns an error. */
  function Perform(s: State, t: nat): Option<State>
    requires t in s.threads && s.threads[t].todo != []
  {
    var th := s.threads[t];
    var on := th.(todo := th.todo[1..]);
    match th.todo[0]
    case Take =>
      if HeldByOther(s, t, StoreLock) then None
      else Some(SetThread(s, t, on.(held := th.held + multiset{StoreLock})))
    case Drop => Some(SetThread(s, t, on.(held := th.held - multiset{StoreLock})))
    case Guard(h) =>
      Some(SetThread(s, t, if Slot(s.slots, h).None? then th.(todo := [], at := h) else on.(at := h)))
    case Show(h) =>
      var shown := if Slot(s.slots, h).None? then [] else Section(h);
      Some(SetThread(s, t, on.(todo := shown + th.todo[1..], at := h)))
    case Fetch(h) =>
      if Slot(s.slots, h).None? then None
      else Some(SetThread(s, t, on.(want := Slot(s.slots, h).value, at := h)))
    case TakeFetched =>
      if HeldByOther(s, t, RecordLock(th.want)) then None
      else Some(SetThread(s, t, on.(held := th.held + multiset{RecordLock(th.want)}, taken := th.taken + 1)))
    case DropAt(h) =>
      if Slot(s.slots, h).None? then None
      else
        var left := if th.taken == 0 then 0 else th.taken - 1;
        var lock := RecordLock(Slot(s.slots, h).value);
        Some(SetThread(s, t, on.(held := th.held - multiset{lock}, at := h, taken := left)))
    case Join => Some(SetThread(s, t, on))
    case Put(h) => Some(SetThread(Published(s, h), t, on))
    case Clear(h) => Some(SetThread(Cleaned(s, h), t, on))
  }

  function Do(s: State, step: Step): Option<State> {
    match step
    case Begin(t, call) =>
      if t !in s.threads then Some(SetThread(s, t, Thread(multiset{}, 0, Script(call), false, 0, 0)))
      else if s.threads[t].todo == [] && !s.threads[t].dead
      then Some(SetThread(s, t, s.threads[t].(todo := Script(call))))
      else None
    case Advance(t) =>
      if t in s.threads && !s.threads[t].dead && s.threads[t].todo != [] then Perform(s, t) else None
    case Die(t) =>
      if t in s.threads then Some(SetThread(s, t, s.threads[t].(dead := true))) else None
  }

  function Init(): State {
    State(map[], seq(T.MAX_THREADS, i => None), 0, map[], 0)
  }

  function Run(s: State, steps: seq<Step>): Option<State>
    decreases |steps|
  {
    if steps == [] then Some(s)
    else match Do(s, steps[0])
      case Some(t) => Run(t, steps[1..])
      case None => None
  }

  /** The table changes here as it does in `ThreadModel`: any step there leaves it, publishes a new
      record in an empty slot, or empties a slot. */
  lemma TablesOfThreadModel(s: T.State, step: T.Step)
    requires T.Inv(s) && T.Do(s, step).Next?
    ensures var u := T.Do(s, step).s;
            match step
            case Publish => s.scan.Some? && Slot(s.slots, s.scan.value).None? &&
                            u.slots == s.slots[s.scan.value := Some(|s.recs|)] && |u.recs| == |s.recs| + 1
            case WaitEnd(h) => 0 <= h < |s.slots| && u.slots == s.slots[h := None] && |u.recs| == |s.recs|
            case _ => u.slots == s.slots && |u.recs| == |s.recs|
  {
    if step.Exit? {
      T.ExitIsOwn(s, step.rid);
    } else if step.KillStep? {
      T.KillStepShape(s, step.tid);
    }
  }

  // ----------------------------------------------------------- a call alone

  function Advances(t: nat, n: nat): (r: seq<Step>)
    ensures |r| == n && forall i :: 0 <= i < n ==> r[i] == Advance(t)
  {
    if n == 0 then [] else [Advance(t)] + Advances(t, n - 1)
  }

  /** A thread can die anywhere, with the locks it has, and does nothing after that. */
  lemma DeadKeepsLocks(s: State, t: nat, call: Call)
    requires t in s.threads
    ensures Do(s, Die(t)).Some?
    ensures var u := Do(s, Die(t)).value;
            && t in u.threads && u == SetThread(s, t, u.threads[t]) && u.threads[t].held == s.threads[t].held
            && Do(u, Advance(t)).None? && Do(u, Begin(t, call)).None?
  {
  }

  /** NULL-checked calls return at once from an empty slot. */
  lemma GuardReturns(s: State, t: nat, h: nat)
    requires t in s.threads && !s.threads[t].dead && s.threads[t].todo != [] && s.threads[t].todo[0] == Guard(h)
    ensures Do(s, Advance(t)).Some?
    ensures var th, th' := s.threads[t], Do(s, Advance(t)).value.threads[t];
            && th'.held == th.held
            && (Slot(s.slots, h).None? ==> th'.todo == [])
            && (Slot(s.slots, h).Some? ==> th'.todo == th.todo[1..])
  {
  }

  lemma RunAdvance(s: State, t: nat, n: nat)
    requires Do(s, Advance(t)).Some?
    ensures Run(s, Advances(t, n + 1)) == Run(Do(s, Advance(t)).value, Advances(t, n))
  {
    assert Advances(t, n + 1)[1..] == Advances(t, n);
  }

  /** The thread at the lock operations of show_thread, with so many of them done. */
  predicate InShow(s: State, u: State, t: nat, h: nat, done: nat)
    requires t in s.threads && t in u.threads && s.threads[t].todo != [] && Slot(s.slots, h).Some? && done <= 3
  {
    var th, lock := s.threads[t], RecordLock(Slot(s.slots, h).value);
    && u == SetThread(s, t, u.threads[t]) && !u.threads[t].dead
    && u.threads[t].todo == [Fetch(h), TakeFetched, DropAt(h)][done..] + th.todo[1..]
    && u.threads[t].held == (if done == 2 then th.held + multiset{lock} else th.held)
    && (done == 1 ==> RecordLock(u.threads[t].want) == lock)
  }

  lemma ShowGoesOn(s: State, u: State, t: nat, h: nat, done: nat)
    requires t in s.threads && t in u.threads && s.threads[t].todo != [] && Slot(s.slots, h).Some? && done < 3
    requires InShow(s, u, t, h, done) && !HeldByOther(s, t, RecordLock(Slot(s.slots, h).value))
    ensures Do(u, Advance(t)).Some? && t in Do(u, Advance(t)).value.threads
    ensures InShow(s, Do(u, Advance(t)).value, t, h, done + 1)
  {
    var rest, acts := s.threads[t].todo[1..], [Fetch(h), TakeFetched, DropAt(h)];
    assert (acts[done..] + rest)[0] == acts[done] && (acts[done..] + rest)[1..] == acts[done + 1..] + rest;
    assert s.threads[t := u.threads[t]][t := Do(u, Advance(t)).value.threads[t]] == Do(u, Advance(t)).value.threads;
  }

  lemma ShowBegins(s: State, t: nat, h: nat)
    requires t in s.threads && !s.threads[t].dead && s.threads[t].todo != [] && s.threads[t].todo[0] == Show(h)
    requires Slot(s.slots, h).Some?
    ensures Do(s, Advance(t)).Some? && t in Do(s, Advance(t)).value.threads
    ensures InShow(s, Do(s, Advance(t)).value, t, h, 0)
  {
    assert [Fetch(h), TakeFetched, DropAt(h)][0..] == Section(h);
  }

  /** A show of a record whose lock nobody else holds takes that lock, once more if it has it, and then
      gives it back. */
  lemma ShowTakesLock(s: State, t: nat, h: nat)
    requires t in s.threads && !s.threads[t].dead && s.threads[t].todo != [] && s.threads[t].todo[0] == Show(h)
    requires Slot(s.slots, h).Some? && !HeldByOther(s, t, RecordLock(Slot(s.slots, h).value))
    ensures var mid, end := Run(s, Advances(t, 3)), Run(s, Advances(t, 4));
            && mid.Some? && t in mid.value.threads && InShow(s, mid.value, t, h, 2)
            && end.Some? && t in end.value.threads && InShow(s, end.value, t, h, 3)
  {
    ShowBegins(s, t, h);
    var a := Do(s, Advance(t)).value;
    ShowGoesOn(s, a, t, h, 0);
    var b := Do(a, Advance(t)).value;
    ShowGoesOn(s, b, t, h, 1);
    var c := Do(b, Advance(t)).value;
    ShowGoesOn(s, c, t, h, 2);
    RunAdvance(c, t, 0);
    forall n: nat | n < 2 ensures Run(s, Advances(t, n + 3)) == Run(c, Advances(t, n)) {
      RunAdvance(b, t, n);
      RunAdvance(a, t, n + 1);
      RunAdvance(s, t, n + 2);
    }
  }

  /** A show of an empty slot does nothing. */
  lemma ShowOfNothing(s: State, t: nat, h: nat)
    requires t in s.threads && !s.threads[t].dead && s.threads[t].todo != [] && s.threads[t].todo[0] == Show(h)
    requires Slot(s.slots, h).None?
    ensures Do(s, Advance(t)) == Some(SetThread(s, t, s.threads[t].(todo := s.threads[t].todo[1..], at := h)))
  {
    assert [] + s.threads[t].todo[1..] == s.threads[t].todo[1..];
  }

  /** Going through the slots as they are, or as the script itself will have changed them, it finds no
      NULL. */
  predicate FindsFilled(slots: seq<Option<nat>>, records: nat, todo: seq<Act>)
    decreases |todo|
  {
    todo == [] ||
    var rest := todo[1..];
    match todo[0]
    case Guard(h) => Slot(slots, h).None? || FindsFilled(slots, records, rest)
    case Fetch(h) => Slot(slots, h).Some? && FindsFilled(slots, records, rest)
    case DropAt(h) => Slot(slots, h).Some? && FindsFilled(slots, records, rest)
    case Put(h) =>
      if h < |slots| then FindsFilled(slots[h := Some(records)], records + 1, rest)
      else FindsFilled(slots, records, rest)
    case Clear(h) => FindsFilled(if h < |slots| then slots[h := None] else slots, records, rest)
    case _ => FindsFilled(slots, records, rest)
  }

  /** Steps a script can take. */
  function Effort(todo: seq<Act>): nat
    decreases |todo|
  {
    if todo == [] then 0 else (if todo[0].Show? then 5 else 1) + Effort(todo[1..])
  }

  predicate OthersHoldNothing(s: State, t: nat) {
    forall u :: u in s.threads && u != t ==> s.threads[u].held == multiset{}
  }

  lemma ShowFindsFilled(slots: seq<Option<nat>>, records: nat, h: nat, rest: seq<Act>)
    requires Slot(slots, h).Some? && FindsFilled(slots, records, rest)
    ensures FindsFilled(slots, records, Section(h) + rest) && Effort(Section(h) + rest) == 3 + Effort(rest)
  {
    var acts := Section(h) + rest;
    assert acts[1..] == [TakeFetched, DropAt(h)] + rest && acts[1..][1..] == [DropAt(h)] + rest;
    assert acts[1..][1..][1..] == rest;
    assert Effort(acts[1..][1..]) == 1 + Effort(rest) && Effort(acts[1..]) == 2 + Effort(rest);
  }

  lemma AloneGoesOn(s: State, t: nat)
    requires t in s.threads && !s.threads[t].dead && s.threads[t].todo != [] && OthersHoldNothing(s, t)
    requires FindsFilled(s.slots, s.records, s.threads[t].todo)
    ensures Do(s, Advance(t)).Some?
    ensures var u := Do(s, Advance(t)).value;
            && t in u.threads && !u.threads[t].dead && OthersHoldNothing(u, t)
            && FindsFilled(u.slots, u.records, u.threads[t].todo)
            && Effort(u.threads[t].todo) < Effort(s.threads[t].todo)
  {
    var act, rest := s.threads[t].todo[0], s.threads[t].todo[1..];
    if act.Show? && Slot(s.slots, act.h).Some? {
      ShowFindsFilled(s.slots, s.records, act.h, rest);
    } else if act.Show? {
      assert [] + rest == rest;
    } else if act.Clear? && act.h < |s.slots| && s.slots[act.h].None? {
      assert s.slots[act.h := None] == s.slots;
    }
  }

  lemma {:induction false} AloneReturns(s: State, t: nat) returns (n: nat)
    requires t in s.threads && !s.threads[t].dead && OthersHoldNothing(s, t)
    requires FindsFilled(s.slots, s.records, s.threads[t].todo)
    ensures Run(s, Advances(t, n)).Some?
    ensures var u := Run(s, Advances(t, n)).value; t in u.threads && u.threads[t].todo == []
    decreases Effort(s.threads[t].todo)
  {
    n := 0;
    if s.threads[t].todo != [] {
      AloneGoesOn(s, t);
      n := AloneReturns(Do(s, Advance(t)).value, t);
      RunAdvance(s, t, n);
      n := n + 1;
    }
  }

  lemma {:induction false} ShowFromFinds(slots: seq<Option<nat>>, records: nat, h: nat)
    requires h <= T.MAX_THREADS
    ensures FindsFilled(slots, records, ShowFrom(h))
    decreases T.MAX_THREADS - h
  {
    if h < T.MAX_THREADS {
      ShowFromFinds(slots, records, h + 1);
      assert ShowFrom(h)[1..] == ShowFrom(h + 1);
    }
  }

  lemma NoSlotsFound(slots: seq<Option<nat>>, records: nat, todo: seq<Act>)
    requires forall i :: 0 <= i < |todo| ==> todo[i].Take? || todo[i].Drop? || todo[i].Show? || todo[i].Join?
    ensures FindsFilled(slots, records, todo)
  {
  }

  lemma SectionFinds(slots: seq<Option<nat>>, records: nat, h: nat, rest: seq<Act>)
    requires Slot(slots, h).Some? && FindsFilled(slots, records, rest)
    ensures FindsFilled(slots, records, Section(h) + rest)
  {
    ShowFindsFilled(slots, records, h, rest);
  }

  lemma WaitFinds(slots: seq<Option<nat>>, records: nat, h: nat, announced: bool, joins: bool)
    ensures FindsFilled(slots, records, Script(Wait(h, announced, joins)))
  {
    var end := [Show(h), Take, Clear(h), Drop];
    var emptied := if h < |slots| then slots[h := None] else slots;
    assert end[1..][1..][1..] == [Drop];
    NoSlotsFound(emptied, records, [Drop]);
    assert FindsFilled(slots, records, end[1..][1..]) && FindsFilled(slots, records, end);
    var join := (if joins then [Join] else []) + end;
    assert join == end || join[1..] == end;
    var shown := (if announced then [Show(h)] else []) + join;
    assert shown == join || shown[1..] == join;
    if Slot(slots, h).Some? {
      SectionFinds(slots, records, h, shown);
    }
    assert ([Guard(h)] + (Section(h) + shown))[1..] == Section(h) + shown;
  }

  lemma KillFinds(slots: seq<Option<nat>>, records: nat, h: nat)
    ensures FindsFilled(slots, records, Script(Kill(h)))
  {
    var s := Script(Kill(h));
    var end := [DropAt(h)];
    assert s[1..][1..][1..][1..] == end && end[1..] == [];
    if Slot(slots, h).Some? {
      assert FindsFilled(slots, records, end);
      assert FindsFilled(slots, records, s[1..][1..]);
    }
  }

  lemma PutFinds(slots: seq<Option<nat>>, records: nat, h: nat)
    ensures FindsFilled(slots, records, Script(Execute(h, false)))
  {
    var s := Script(Execute(h, false));
    assert s[1..][1..][1..][1..] == [Drop];
    forall put | put == slots || (h < |slots| && put == slots[h := Some(records)])
      ensures FindsFilled(put, records, [Drop]) && FindsFilled(put, records + 1, [Drop])
    {
      NoSlotsFound(put, records, [Drop]);
      NoSlotsFound(put, records + 1, [Drop]);
    }
    assert FindsFilled(slots, records, s[1..][1..][1..]);
    assert FindsFilled(slots, records, s[1..]);
  }

  /** Of the calls only th_exit trusts its slot to be filled. */
  lemma ScriptFinds(slots: seq<Option<nat>>, records: nat, c: Call)
    requires c.Exit? ==> Slot(slots, c.h).Some?
    ensures FindsFilled(slots, records, Script(c))
  {
    match c
    case Execute(h, full) =>
      if full {
        NoSlotsFound(slots, records, Script(c));
      } else {
        PutFinds(slots, records, h);
      }
    case Wait(h, announced, joins) => WaitFinds(slots, records, h, announced, joins);
    case Kill(h) => KillFinds(slots, records, h);
    case Exit(h) =>
      NoSlotsFound(slots, records, [Show(h)]);
      SectionFinds(slots, records, h, [Show(h)]);
    case ShowAll =>
      ShowFromFinds(slots, records, 0);
      assert Script(c)[1..] == ShowFrom(0);
    case GetState(h) =>
      if Slot(slots, h).Some? {
        SectionFinds(slots, records, h, []);
        assert Section(h) + [] == Section(h);
      }
      assert Script(c)[1..] == Section(h);
    case Decorate(h) => NoSlotsFound(slots, records, Script(c));
    case GetName(h) =>
      assert Script(c)[1..] == [Take, Drop];
      NoSlotsFound(slots, records, [Take, Drop]);
  }

  /** Every library call by a live thread returns, if no other thread has a lock or takes one in the
      meantime; th_exit, if its slot is filled. */
  lemma LoneCallReturns(s: State, t: nat, c: Call) returns (n: nat)
    requires t in s.threads && s.threads[t].todo == [] && !s.threads[t].dead && OthersHoldNothing(s, t)
    requires c.Exit? ==> Slot(s.slots, c.h).Some?
    ensures var end := Run(s, [Begin(t, c)] + Advances(t, n));
            end.Some? && t in end.value.threads && end.value.threads[t].todo == []
  {
    ScriptFinds(s.slots, s.records, c);
    var u := Do(s, Begin(t, c)).value;
    n := AloneReturns(u, t);
    assert ([Begin(t, c)] + Advances(t, n))[1..] == Advances(t, n);
  }

  // -------------------------------------------------------------- invariant

  /** No cleanup has taken the record. */
  predicate Alive(s: State, r: nat) {
    r !in s.gone
  }

  predicate TableOk(s: State) {
    && (forall h :: 0 <= h < |s.slots| && s.slots[h].Some? ==>
          s.slots[h].value < s.records && Alive(s, s.slots[h].value))
    && (forall h, k :: 0 <= h < k < |s.slots| && s.slots[h].Some? ==> s.slots[h] != s.slots[k])
    && (forall r :: r in s.gone ==> r < s.records && s.gone[r] < s.clock)
  }

  /** `r` was cleaned up before `q` was, if that was at all. */
  predicate GoneBefore(s: State, r: nat, q: nat) {
    r in s.gone && (q in s.gone ==> s.gone[r] < s.gone[q])
  }

  /** The lock it has fetched and not yet taken: of the record in the slot, unless cleaned up since;
      and every other record whose lock it holds has been cleaned up, earlier. */
  ghost predicate WantOk(s: State, th: Thread) {
    th.todo != [] && th.todo[0].TakeFetched? ==>
      && th.want < s.records && (Alive(s, th.want) ==> Slot(s.slots, th.at) == Some(th.want))
      && (forall r: nat :: RecordLock(r) in th.held && r != th.want ==> GoneBefore(s, r, th.want))
      && (StoreLock in th.held ==> Alive(s, th.want))
  }

  /** Inside StoreLock a slot that show_thread has found filled stays so. */
  predicate ShownOk(s: State, th: Thread) {
    StoreLock in th.held && th.todo != [] && (th.todo[0].Fetch? || th.todo[0].DropAt?) ==>
      Slot(s.slots, th.todo[0].h).Some?
  }

  /** Of the records not cleaned up, it holds at most that in its slot, as often as it has taken it. */
  ghost predicate HeldOk(s: State, th: Thread) {
    && th.held[StoreLock] <= 1
    && (forall r: nat :: RecordLock(r) in th.held ==> r < s.records)
    && (forall r: nat :: RecordLock(r) in th.held && Alive(s, r) ==>
          Slot(s.slots, th.at) == Some(r) && th.held[RecordLock(r)] <= th.taken)
  }

  ghost predicate ThreadOk(s: State, th: Thread) {
    && HeldOk(s, th) && WantOk(s, th) && ShownOk(s, th)
    && Tidy(StoreLock in th.held, th.at, th.taken, th.todo)
  }

  /** At most one thread owns each lock. */
  ghost predicate Exclusive(s: State) {
    forall t, u, l :: t in s.threads && u in s.threads && l in s.threads[t].held && l in s.threads[u].held ==> t == u
  }

  ghost predicate Inv(s: State) {
    Exclusive(s) && TableOk(s) && forall t :: t in s.threads ==> ThreadOk(s, s.threads[t])
  }

  lemma SectionFirst(h: nat, rest: seq<Act>)
    ensures (Section(h) + rest)[0] == Fetch(h)
  {
  }

  /** A step that leaves the table alone leaves the other threads as they were. */
  lemma SameTableOk(s: State, u: State, th: Thread)
    requires ThreadOk(s, th) && u.slots == s.slots && u.records == s.records && u.gone == s.gone && u.clock == s.clock
    ensures ThreadOk(u, th)
  {
  }

  /** A cleanup does not disturb a thread without StoreLock: a lock it holds or waits for becomes one
      of a record cleaned up, later than any before. */
  lemma CleanKeepsOk(s: State, h: nat, th: Thread)
    requires TableOk(s) && ThreadOk(s, th) && StoreLock !in th.held
    ensures ThreadOk(Cleaned(s, h), th) && TableOk(Cleaned(s, h))
  {
  }

  /** Nor does a new record. */
  lemma FillKeepsOk(s: State, h: nat, th: Thread)
    requires TableOk(s) && h < |s.slots| && s.slots[h].None? && ThreadOk(s, th) && StoreLock !in th.held
    ensures ThreadOk(s.(slots := s.slots[h := Some(s.records)], records := s.records + 1), th)
  {
  }

  lemma PublishKeepsOk(s: State, h: nat, th: Thread)
    requires TableOk(s) && ThreadOk(s, th) && StoreLock !in th.held
    ensures ThreadOk(Published(s, h), th)
  {
    if h < |s.slots| {
      CleanKeepsOk(s, h, th);
      FillKeepsOk(Cleaned(s, h), h, th);
      assert Cleaned(s, h).slots[h := Some(s.records)] == s.slots[h := Some(s.records)];
    }
  }

  lemma TableKept(s: State, h: nat)
    requires TableOk(s)
    ensures TableOk(Cleaned(s, h)) && TableOk(Published(s, h))
  {
  }

  /** The thread that makes the step. */
  lemma TableActKeepsOwn(s: State, t: nat)
    requires TableOk(s) && t in s.threads && ThreadOk(s, s.threads[t]) && s.threads[t].todo != []
    requires s.threads[t].todo[0].Put? || s.threads[t].todo[0].Clear?
    requires Perform(s, t).Some?
    ensures ThreadOk(Perform(s, t).value, Perform(s, t).value.threads[t])
  {
    var th := s.threads[t];
    assert th.taken == 0 && NoFetch(th.todo[1..]);
    assert forall r: nat :: RecordLock(r) in th.held ==> !Alive(s, r);
  }

  lemma StoreActKeepsOwn(s: State, t: nat)
    requires TableOk(s) && t in s.threads && ThreadOk(s, s.threads[t]) && s.threads[t].todo != []
    requires (s.threads[t].todo[0].Take? || s.threads[t].todo[0].Drop?) && Perform(s, t).Some?
    ensures ThreadOk(Perform(s, t).value, Perform(s, t).value.threads[t])
  {
  }

  lemma TakeKeepsOwn(s: State, t: nat)
    requires TableOk(s) && t in s.threads && ThreadOk(s, s.threads[t]) && s.threads[t].todo != []
    requires s.threads[t].todo[0].TakeFetched? && Perform(s, t).Some?
    ensures ThreadOk(Perform(s, t).value, Perform(s, t).value.threads[t])
  {
  }

  lemma DropKeepsOwn(s: State, t: nat)
    requires TableOk(s) && t in s.threads && ThreadOk(s, s.threads[t]) && s.threads[t].todo != []
    requires s.threads[t].todo[0].DropAt? && Perform(s, t).Some?
    ensures ThreadOk(Perform(s, t).value, Perform(s, t).value.threads[t])
  {
    assert forall r: nat :: RecordLock(r) in Perform(s, t).value.threads[t].held ==> RecordLock(r) in s.threads[t].held;
  }

  lemma ShowKeepsOwn(s: State, t: nat)
    requires TableOk(s) && t in s.threads && ThreadOk(s, s.threads[t]) && s.threads[t].todo != []
    requires s.threads[t].todo[0].Show? && Perform(s, t).Some?
    ensures ThreadOk(Perform(s, t).value, Perform(s, t).value.threads[t])
  {
    var th := s.threads[t];
    var h, rest := th.todo[0].h, th.todo[1..];
    assert [] + rest == rest;
    SectionTidy(StoreLock in th.held, h, h, th.taken, rest);
    SectionFirst(h, rest);
  }

  lemma LookKeepsOwn(s: State, t: nat)
    requires TableOk(s) && t in s.threads && ThreadOk(s, s.threads[t]) && s.threads[t].todo != []
    requires var act := s.threads[t].todo[0]; act.Guard? || act.Join?
    requires Perform(s, t).Some?
    ensures ThreadOk(Perform(s, t).value, Perform(s, t).value.threads[t])
  {
  }

  lemma FetchKeepsOwn(s: State, t: nat)
    requires TableOk(s) && t in s.threads && ThreadOk(s, s.threads[t]) && s.threads[t].todo != []
    requires s.threads[t].todo[0].Fetch? && Perform(s, t).Some?
    ensures ThreadOk(Perform(s, t).value, Perform(s, t).value.threads[t])
  {
  }

  lemma ActKeepsOwn(s: State, t: nat)
    requires TableOk(s) && t in s.threads && ThreadOk(s, s.threads[t]) && s.threads[t].todo != []
    requires Perform(s, t).Some?
    ensures ThreadOk(Perform(s, t).value, Perform(s, t).value.threads[t])
  {
    match s.threads[t].todo[0]
    case Take => StoreActKeepsOwn(s, t);
    case Drop => StoreActKeepsOwn(s, t);
    case TakeFetched => TakeKeepsOwn(s, t);
    case DropAt(_) => DropKeepsOwn(s, t);
    case Show(_) => ShowKeepsOwn(s, t);
    case Fetch(_) => FetchKeepsOwn(s, t);
    case Put(_) => TableActKeepsOwn(s, t);
    case Clear(_) => TableActKeepsOwn(s, t);
    case _ => LookKeepsOwn(s, t);
  }

  function TableAfter(s: State, act: Act): State {
    if act.Put? then Published(s, act.h) else if act.Clear? then Cleaned(s, act.h) else s
  }

  /** A step changes its own thread, and the table only by a publish or a cleanup. */
  lemma ActShape(s: State, t: nat)
    requires t in s.threads && s.threads[t].todo != [] && Perform(s, t).Some?
    ensures var act, u := s.threads[t].todo[0], Perform(s, t).value;
            && t in u.threads && u.threads == s.threads[t := u.threads[t]]
            && u == TableAfter(s, act).(threads := u.threads)
  {
  }

  lemma OthersGainNothing(s: State, t: nat)
    requires t in s.threads && s.threads[t].todo != [] && Perform(s, t).Some? && t in Perform(s, t).value.threads
    requires !s.threads[t].todo[0].Take? && !s.threads[t].todo[0].TakeFetched?
    ensures Perform(s, t).value.threads[t].held <= s.threads[t].held
  {
  }

  lemma HeldAfterTake(held: multiset<Lock>, l: Lock)
    ensures forall m :: m in held + multiset{l} && m !in held ==> m == l
  {
  }

  /** It gains only a lock that no other thread has. */
  lemma ActGains(s: State, t: nat, l: Lock)
    requires t in s.threads && s.threads[t].todo != [] && Perform(s, t).Some? && t in Perform(s, t).value.threads
    requires l in Perform(s, t).value.threads[t].held && l !in s.threads[t].held
    ensures !HeldByOther(s, t, l)
  {
    var th := s.threads[t];
    if th.todo[0].Take? {
      HeldAfterTake(th.held, StoreLock);
    } else if th.todo[0].TakeFetched? {
      HeldAfterTake(th.held, RecordLock(th.want));
    } else {
      OthersGainNothing(s, t);
    }
  }

  /** Only a thread with StoreLock changes the table, and the locks of the others stay as they were. */
  lemma ActKeepsOthers(s: State, t: nat, x: nat)
    requires Exclusive(s) && TableOk(s) && t in s.threads && ThreadOk(s, s.threads[t]) && s.threads[t].todo != []
    requires Perform(s, t).Some? && x in s.threads && x != t && ThreadOk(s, s.threads[x])
    ensures x in Perform(s, t).value.threads && Perform(s, t).value.threads[x] == s.threads[x]
    ensures ThreadOk(Perform(s, t).value, s.threads[x])
  {
    ActShape(s, t);
    var act, u, th := s.threads[t].todo[0], Perform(s, t).value, s.threads[x];
    assert act.Put? || act.Clear? ==> StoreLock in s.threads[t].held && StoreLock !in th.held;
    if act.Put? {
      PublishKeepsOk(s, act.h, th);
      SameTableOk(Published(s, act.h), u, th);
    } else if act.Clear? {
      CleanKeepsOk(s, act.h, th);
      SameTableOk(Cleaned(s, act.h), u, th);
    } else {
      SameTableOk(s, u, th);
    }
  }

  lemma SameTable(s: State, u: State)
    requires TableOk(s) && u.slots == s.slots && u.records == s.records && u.gone == s.gone && u.clock == s.clock
    ensures TableOk(u)
  {
  }

  lemma ActKeepsTable(s: State, t: nat)
    requires TableOk(s) && t in s.threads && s.threads[t].todo != [] && Perform(s, t).Some?
    ensures TableOk(Perform(s, t).value)
  {
    ActShape(s, t);
    var act, u := s.threads[t].todo[0], Perform(s, t).value;
    if act.Put? || act.Clear? {
      TableKept(s, act.h);
      SameTable(TableAfter(s, act), u);
    } else {
      SameTable(s, u);
    }
  }

  lemma ActKeepsExclusive(s: State, t: nat)
    requires Exclusive(s) && t in s.threads && s.threads[t].todo != [] && Perform(s, t).Some?
    ensures Exclusive(Perform(s, t).value)
  {
    ActShape(s, t);
    var u := Perform(s, t).value;
    forall x, l | x in u.threads && x != t && l in u.threads[x].held && l in u.threads[t].held ensures false {
      if l !in s.threads[t].held {
        ActGains(s, t, l);
      }
    }
  }

  lemma AdvanceKeepsInv(s: State, t: nat)
    requires Inv(s) && Do(s, Advance(t)).Some?
    ensures Inv(Do(s, Advance(t)).value)
  {
    ActShape(s, t);
    ActKeepsTable(s, t);
    ActKeepsExclusive(s, t);
    var u := Do(s, Advance(t)).value;
    assert ThreadOk(s, s.threads[t]);
    forall x | x in u.threads ensures ThreadOk(u, u.threads[x]) {
      assert ThreadOk(s, s.threads[x]);
      if x == t {
        ActKeepsOwn(s, t);
      } else {
        ActKeepsOthers(s, t, x);
      }
    }
  }

  lemma BeginKeepsOk(s: State, t: nat, call: Call)
    requires Inv(s) && Do(s, Begin(t, call)).Some?
    ensures ThreadOk(Do(s, Begin(t, call)).value, Do(s, Begin(t, call)).value.threads[t])
  {
    var th := Do(s, Begin(t, call)).value.threads[t];
    if t in s.threads {
      assert ThreadOk(s, s.threads[t]);
    }
    ScriptTidy(call, th.at);
  }

  lemma BeginShape(s: State, t: nat, call: Call)
    requires Do(s, Begin(t, call)).Some?
    ensures var u := Do(s, Begin(t, call)).value;
            && t in u.threads && u == s.(threads := s.threads[t := u.threads[t]])
            && u.threads[t].held == if t in s.threads then s.threads[t].held else multiset{}
  {
  }

  /** Changing one thread alone, without giving it locks. */
  lemma ShapeKeepsInv(s: State, u: State, t: nat)
    requires Inv(s) && t in u.threads && u == s.(threads := s.threads[t := u.threads[t]])
    requires u.threads[t].held == if t in s.threads then s.threads[t].held else multiset{}
    requires ThreadOk(u, u.threads[t])
    ensures Inv(u)
  {
    forall x | x in u.threads ensures ThreadOk(u, u.threads[x]) {
      if x != t {
        SameTableOk(s, u, s.threads[x]);
      }
    }
    SameTable(s, u);
  }

  lemma BeginKeepsInv(s: State, t: nat, call: Call)
    requires Inv(s) && Do(s, Begin(t, call)).Some?
    ensures Inv(Do(s, Begin(t, call)).value)
  {
    BeginKeepsOk(s, t, call);
    BeginShape(s, t, call);
    var u := Do(s, Begin(t, call)).value;
    ShapeKeepsInv(s, u, t);
  }

  lemma DieKeepsOk(s: State, th: Thread)
    requires ThreadOk(s, th)
    ensures ThreadOk(s, th.(dead := true))
  {
  }

  lemma DieKeepsInv(s: State, t: nat)
    requires Inv(s) && t in s.threads
    ensures Inv(Do(s, Die(t)).value)
  {
    var u := Do(s, Die(t)).value;
    DieKeepsOk(s, s.threads[t]);
    SameTableOk(s, u, u.threads[t]);
    ShapeKeepsInv(s, u, t);
  }

  lemma StepKeepsInv(s: State, step: Step)
    requires Inv(s) && Do(s, step).Some?
    ensures Inv(Do(s, step).value)
  {
    match step
    case Begin(t, call) => BeginKeepsInv(s, t, call);
    case Advance(t) => AdvanceKeepsInv(s, t);
    case Die(t) => DieKeepsInv(s, t);
  }

  lemma {:induction false} RunKeepsInv(s: State, steps: seq<Step>)
    requires Inv(s) && Run(s, steps).Some?
    ensures Inv(Run(s, steps).value)
    decreases |steps|
  {
    if steps != [] {
      StepKeepsInv(s, steps[0]);
      RunKeepsInv(Do(s, steps[0]).value, steps[1..]);
    }
  }

  // --------------------------------------------------------------- theorems

  /** The thread is in a call. */
  predicate About(s: State, t: nat) {
    t in s.threads && !s.threads[t].dead && s.threads[t].todo != []
  }

  lemma InitKeepsInv(steps: seq<Step>)
    ensures Run(Init(), steps).Some? ==> Inv(Run(Init(), steps).value)
  {
    if Run(Init(), steps).Some? {
      RunKeepsInv(Init(), steps);
    }
  }

  /** In every reachable state: a thread that takes StoreLock, or is at a join, holds no lock of a
      record but of ones cleaned up under it; one that takes a record's lock holds, besides, only
      StoreLock and that record's; and a thread outside the library holds neither StoreLock nor the
      lock of a record still there. */
  lemma NestingAndJoins(s: State, steps: seq<Step>, t: nat, r: nat)
    requires Run(Init(), steps) == Some(s) && t in s.threads && RecordLock(r) in s.threads[t].held && Alive(s, r)
    ensures s.threads[t].todo != []
    ensures !s.threads[t].todo[0].Take? && !s.threads[t].todo[0].Join?
    ensures s.threads[t].todo[0].TakeFetched? ==> s.threads[t].want == r
  {
    InitKeepsInv(steps);
    assert ThreadOk(s, s.threads[t]);
  }

  /** StoreLock is the outer lock: a thread that has it is in a call that will take it no second
      time, and outside the library no thread has it. */
  lemma StoreLockIsOuter(s: State, steps: seq<Step>, t: nat)
    requires Run(Init(), steps) == Some(s) && t in s.threads && StoreLock in s.threads[t].held
    ensures s.threads[t].todo != [] && !s.threads[t].todo[0].Take? && !s.threads[t].todo[0].Join?
  {
    InitKeepsInv(steps);
    assert ThreadOk(s, s.threads[t]);
  }

  /** The lock a thread is about to take. */
  function Wanted(s: State, t: nat): Option<Lock> {
    if !About(s, t) then None
    else match s.threads[t].todo[0]
      case Take => Some(StoreLock)
      case TakeFetched => Some(RecordLock(s.threads[t].want))
      case _ => None
  }

  /** `t` is blocked on a lock that `u` holds. */
  predicate WaitsFor(s: State, t: nat, u: nat) {
    Wanted(s, t).Some? && u in s.threads && u != t && Wanted(s, t).value in s.threads[u].held
  }

  /** Locks of records cleaned up rank by the time of the cleanup, below StoreLock, and that below
      the locks of the records still there. */
  function Rank(s: State, l: Lock): nat {
    match l
    case StoreLock => s.clock
    case RecordLock(r) => if r in s.gone then s.gone[r] else s.clock + 1
  }

  function WantedRank(s: State, t: nat): nat {
    match Wanted(s, t) case Some(l) => Rank(s, l) case None => 0
  }

  /** If the owner of a lock waits itself, it waits for a lock of higher rank. */
  lemma OwnerWantsHigher(s: State, t: nat, u: nat, v: nat)
    requires Inv(s) && WaitsFor(s, t, u) && WaitsFor(s, u, v)
    ensures WantedRank(s, t) < WantedRank(s, u)
  {
    assert ThreadOk(s, s.threads[t]) && ThreadOk(s, s.threads[u]);
    assert Wanted(s, t).value in s.threads[u].held && Wanted(s, u).value !in s.threads[u].held;
  }

  ghost predicate WaitPath(s: State, path: seq<nat>) {
    2 <= |path| && forall i :: 0 <= i < |path| - 1 ==> WaitsFor(s, path[i], path[i + 1])
  }

  /** Along a chain of waiters the wanted locks rise in rank. */
  lemma {:induction false} RanksRise(s: State, path: seq<nat>, next: nat)
    requires Inv(s) && WaitPath(s, path) && WaitsFor(s, path[|path| - 1], next)
    ensures WantedRank(s, path[0]) < WantedRank(s, path[|path| - 1])
    decreases |path|
  {
    assert WaitsFor(s, path[0], path[1]);
    if |path| == 2 {
      OwnerWantsHigher(s, path[0], path[1], next);
    } else {
      assert WaitsFor(s, path[1], path[2]);
      OwnerWantsHigher(s, path[0], path[1], path[2]);
      var rest := path[1..];
      forall i | 0 <= i < |rest| - 1 ensures WaitsFor(s, rest[i], rest[i + 1]) {
        assert WaitsFor(s, path[i + 1], path[i + 2]);
      }
      RanksRise(s, rest, next);
    }
  }

  /** No wait-for cycle among lock waiters, in any reachable state: whatever cleanups fall inside
      other calls, whatever locks these leave behind, and whoever has died holding one. */
  lemma NoWaitCycle(s: State, steps: seq<Step>, path: seq<nat>)
    requires Run(Init(), steps) == Some(s) && WaitPath(s, path)
    ensures path[0] != path[|path| - 1]
  {
    InitKeepsInv(steps);
    if path[0] == path[|path| - 1] {
      assert WaitsFor(s, path[0], path[1]);
      RanksRise(s, path, path[1]);
    }
  }

  /** A thread that holds the lock of a record still there is in a call on its slot and goes on. */
  lemma RecordOwnerAdvances(s: State, v: nat, r: nat)
    requires Inv(s) && v in s.threads && RecordLock(r) in s.threads[v].held && Alive(s, r) && !s.threads[v].dead
    ensures Do(s, Advance(v)).Some?
  {
    assert ThreadOk(s, s.threads[v]);
  }

  /** A thread that holds StoreLock goes on, unless it waits for the lock of a record still there. */
  lemma StoreOwnerAdvances(s: State, u: nat)
    requires Inv(s) && u in s.threads && StoreLock in s.threads[u].held && !s.threads[u].dead
    ensures Do(s, Advance(u)).Some? ||
            (s.threads[u].todo != [] && s.threads[u].todo[0].TakeFetched? && Alive(s, s.threads[u].want) &&
             HeldByOther(s, u, RecordLock(s.threads[u].want)))
  {
    assert ThreadOk(s, s.threads[u]);
  }

  /** As long as no cleanup has left a lock behind and no dead thread keeps one, whenever a thread is
      blocked on a lock, some thread that owns a lock can go on; it is not at a join, nor about to
      dereference NULL. */
  lemma SomeOwnerAdvances(s: State, t: nat, u: nat)
    requires Inv(s) && WaitsFor(s, t, u)
    requires forall v, l :: v in s.threads && l in s.threads[v].held ==>
               !s.threads[v].dead && (l.RecordLock? ==> Alive(s, l.rid))
    ensures exists v :: v in s.threads && s.threads[v].held != multiset{} && Do(s, Advance(v)).Some?
  {
    var l := Wanted(s, t).value;
    if l.RecordLock? {
      RecordOwnerAdvances(s, u, l.rid);
    } else {
      StoreOwnerAdvances(s, u);
      if Do(s, Advance(u)).None? {
        var m := RecordLock(s.threads[u].want);
        var v :| v in s.threads && v != u && m in s.threads[v].held;
        RecordOwnerAdvances(s, v, m.rid);
      }
    }
  }
}
