/**
 The table of signal callbacks in src/lib/thread_mgr/thread_mgr.c: a hash table of 15 cells for the
 signals 1..15 that can be caught. It is an exact map even under deletion, because no two of its keys
 share a home.
 */
module SignalTable {
  import opened Options
  import opened HashTable

  const MAX_SIGNAL: nat := 15

  /** SignalHandlers: None before the first install. */
  type Handlers<F> = Option<Cells<F>>

  /** sigaddset refuses numbers below 1; the library itself refuses those above 15. */
  predicate Accepted(signum: Int32) {
    1 <= signum <= MAX_SIGNAL
  }

  const SIGKILL: Int32 := 9

  /** sigaction moreover refuses SIGKILL, which sigprocmask silently leaves alone. */
  predicate Installable(signum: Int32) {
    Accepted(signum) && signum != SIGKILL
  }

  /** th_install_signal_handler, its foreign calls succeeding on the signals they accept. */
  function Install<F>(t: Handlers<F>, signum: Int32, callback: F): (Handlers<F>, bool)
    requires t.Some? ==> 0 < |t.value|
  {
    if !Installable(signum) then (t, false)
    else
      var cells := if t.None? then seq(MAX_SIGNAL, i => None) else t.value;
      (Some(Insert(cells, signum, callback)), true)
  }

  function Uninstall<F>(t: Handlers<F>, signum: Int32): (Handlers<F>, bool)
    requires t.Some? ==> 0 < |t.value|
  {
    if !Accepted(signum) || t.None? then (t, false) else (Some(Delete(t.value, signum)), true)
  }

  // ------------------------------------------------------------------- runs

  datatype Op<F> = InstallOp(signum: Int32, callback: F) | UninstallOp(signum: Int32)

  function Run<F>(t: Handlers<F>, ops: seq<Op<F>>): (r: Handlers<F>)
    requires t.Some? ==> 0 < |t.value|
    ensures r.Some? ==> 0 < |r.value|
    decreases |ops|
  {
    if ops == [] then t
    else Run(match ops[0]
             case InstallOp(n, f) => Install(t, n, f).0
             case UninstallOp(n) => Uninstall(t, n).0, ops[1..])
  }

  /** The same operations on an ordinary map. */
  function MapRun<F>(m: map<Int32, F>, ops: seq<Op<F>>): map<Int32, F>
    decreases |ops|
  {
    if ops == [] then m
    else MapRun(match ops[0]
                case InstallOp(n, f) => if Installable(n) then m[n := f] else m
                case UninstallOp(n) => m - {n}, ops[1..])
  }

  /** Every key sits in its home cell, and the cells hold exactly the map. */
  ghost predicate Exact<F>(t: Handlers<F>, m: map<Int32, F>) {
    && (forall n :: n in m ==> Installable(n))
    && match t
       case None => m == map[]
       case Some(c) =>
         && |c| == MAX_SIGNAL
         && (forall i: nat :: i < |c| && c[i].Some? ==>
               c[i].value.key in m && Home(c[i].value.key, |c|) == i && c[i].value.value == m[c[i].value.key])
         && (forall n :: n in m ==> c[Home(n, |c|)].Some?)
  }

  /** Signals 1..15 have fifteen different homes. */
  lemma HomesDistinct(a: Int32, b: Int32)
    requires Accepted(a) && Accepted(b) && Home(a, MAX_SIGNAL) == Home(b, MAX_SIGNAL)
    ensures a == b
  {
  }

  /** So every probe stops at once, full table or not, and a lookup is a look at the map. */
  lemma ProbeStopsAtHome<F>(c: Cells<F>, m: map<Int32, F>, n: Int32)
    requires Exact(Some(c), m) && Accepted(n)
    ensures Probe(c, n) == Some(Home(n, |c|))
    ensures Lookup(c, n) == if n in m then Some(HashNode(n, m[n])) else None
  {
    var h := Home(n, |c|);
    assert Offset(h, 0, |c|) == h;
    if c[h].Some? {
      HomesDistinct(c[h].value.key, n);
    }
  }

  /** What the manager thread finds for a signal. */
  function Callback<F>(t: Handlers<F>, n: Int32): Option<F>
    requires t.Some? ==> 0 < |t.value|
  {
    if t.Some? && Lookup(t.value, n).Some? then Some(Lookup(t.value, n).value.value) else None
  }

  lemma CallbackIsMap<F>(t: Handlers<F>, m: map<Int32, F>, n: Int32)
    requires Exact(t, m) && 1 <= n <= 15
    ensures Callback(t, n) == if n in m then Some(m[n]) else None
  {
    if t.Some? {
      ProbeStopsAtHome(t.value, m, n);
    }
  }

  lemma InstallExact<F>(t: Handlers<F>, m: map<Int32, F>, n: Int32, f: F)
    requires Exact(t, m)
    ensures Exact(Install(t, n, f).0, if Installable(n) then m[n := f] else m)
  {
    if Installable(n) {
      var c: Cells<F> := if t.None? then seq(MAX_SIGNAL, i => None) else t.value;
      assert Exact(Some(c), m);
      ProbeStopsAtHome(c, m, n);
      forall k | k in m && k != n ensures Home(k, |c|) != Home(n, |c|) {
        if Home(k, |c|) == Home(n, |c|) {
          HomesDistinct(k, n);
        }
      }
    }
  }

  lemma UninstallExact<F>(t: Handlers<F>, m: map<Int32, F>, n: Int32)
    requires Exact(t, m)
    ensures Exact(Uninstall(t, n).0, m - {n})
  {
    if Accepted(n) && t.Some? {
      ProbeStopsAtHome(t.value, m, n);
      forall k | k in m && k != n ensures Home(k, MAX_SIGNAL) != Home(n, MAX_SIGNAL) {
        if Home(k, MAX_SIGNAL) == Home(n, MAX_SIGNAL) {
          HomesDistinct(k, n);
        }
      }
    } else {
      assert m - {n} == m;
    }
  }

  /** An install is taken for the signals 1 to 15 without SIGKILL and no others, and the manager
      thread then finds the callback. */
  lemma InstallTakes<F>(t: Handlers<F>, m: map<Int32, F>, n: Int32, f: F)
    requires Exact(t, m)
    ensures 1 <= n <= 15 && n != 9 ==>
              && Install(t, n, f).1 && Install(t, n, f).0.Some?
              && Lookup(Install(t, n, f).0.value, n) == Some(HashNode(n, f))
    ensures !(1 <= n <= 15 && n != 9) ==> Install(t, n, f) == (t, false)
    ensures forall j: Int32 :: 1 <= j <= 15 && j != n ==>
              Callback(Install(t, n, f).0, j) == Callback(t, j)
  {
    InstallExact(t, m, n, f);
    var u, m' := Install(t, n, f).0, if Installable(n) then m[n := f] else m;
    if u.Some? && 1 <= n <= 15 {
      ProbeStopsAtHome(u.value, m', n);
    }
    forall j: Int32 | 1 <= j <= 15 && j != n ensures Callback(u, j) == Callback(t, j) {
      CallbackIsMap(t, m, j);
      CallbackIsMap(u, m', j);
    }
  }

  /** An uninstall is taken for the signals 1 to 15 once the table is there, and forgets just that
      signal. */
  lemma UninstallForgets<F>(t: Handlers<F>, m: map<Int32, F>, n: Int32)
    requires Exact(t, m)
    ensures Uninstall(t, n).1 <==> 1 <= n <= 15 && t.Some?
    ensures !Uninstall(t, n).1 ==> Uninstall(t, n).0 == t
    ensures Uninstall(t, n).1 ==> Uninstall(t, n).0.Some? && Lookup(Uninstall(t, n).0.value, n).None?
    ensures forall j: Int32 :: 1 <= j <= 15 && j != n ==> Callback(Uninstall(t, n).0, j) == Callback(t, j)
  {
    UninstallExact(t, m, n);
    var u := Uninstall(t, n).0;
    if t.Some? && 1 <= n <= 15 {
      ProbeStopsAtHome(u.value, m - {n}, n);
    }
    forall j: Int32 | 1 <= j <= 15 && j != n ensures Callback(u, j) == Callback(t, j) {
      CallbackIsMap(t, m, j);
      CallbackIsMap(u, m - {n}, j);
    }
  }

  /** Over every sequence of installs and uninstalls the table is the map of installed callbacks,
      and looking up any signal returns exactly its callback. */
  lemma {:induction false} RunIsMap<F>(t: Handlers<F>, m: map<Int32, F>, ops: seq<Op<F>>)
    requires Exact(t, m)
    ensures Exact(Run(t, ops), MapRun(m, ops))
    decreases |ops|
  {
    if ops != [] {
      match ops[0]
      case InstallOp(n, f) =>
        InstallExact(t, m, n, f);
        RunIsMap(Install(t, n, f).0, if Installable(n) then m[n := f] else m, ops[1..]);
      case UninstallOp(n) =>
        UninstallExact(t, m, n);
        RunIsMap(Uninstall(t, n).0, m - {n}, ops[1..]);
    }
  }

  lemma LookupAfterRun<F>(ops: seq<Op<F>>, n: Int32)
    requires Accepted(n)
    ensures var t := Run(None, ops);
            var m := MapRun(map[], ops);
            && (t.None? ==> n !in m)
            && (t.Some? ==> Lookup(t.value, n) == if n in m then Some(HashNode(n, m[n])) else None)
  {
    RunIsMap(None, map[], ops);
    if Run<F>(None, ops).Some? {
      ProbeStopsAtHome(Run<F>(None, ops).value, MapRun(map[], ops), n);
    }
  }

  // --------------------------------------------------------------- the class

  class SignalHandlers<F> {
    var table: Hash?<F>

    ghost function State(): (t: Handlers<F>)
      reads this, table, if table == null then {} else {table.cells}
      ensures t.Some? ==> table != null && |t.value| == table.cells.Length
    {
      if table == null then None else Some(table.Table())
    }

    ghost predicate Valid()
      reads this, table, if table == null then {} else {table.cells}
    {
      table != null ==> table.cells.Length == MAX_SIGNAL
    }

    constructor ()
      ensures Valid() && State() == None
    {
      table := null;
    }

    /** th_install_signal_handler. */
    method InstallHandler(signum: Int32, callback: F, ghost m: map<Int32, F>) returns (ok: bool)
      requires Valid() && Exact(State(), m)
      modifies this, if table == null then {} else {table.cells}
      ensures Valid() && (State(), ok) == Install(old(State()), signum, callback)
    {
      if signum > MAX_SIGNAL || signum < 1 || signum == SIGKILL {
        return false;
      }
      if table == null {
        table := new Hash(MAX_SIGNAL);
      }
      assert Exact(State(), m);
      ProbeStopsAtHome(table.Table(), m, signum);
      table.Put(signum, callback);
      ok := true;
    }

    /** th_uninstall_signal_handler. */
    method UninstallHandler(signum: Int32, ghost m: map<Int32, F>) returns (ok: bool)
      requires Valid() && Exact(State(), m)
      modifies if table == null then {} else {table.cells}
      ensures Valid() && (State(), ok) == Uninstall(old(State()), signum)
    {
      if signum > MAX_SIGNAL || signum < 1 || table == null {
        return false;
      }
      ProbeStopsAtHome(table.Table(), m, signum);
      var found := table.Remove(signum);
      ok := true;
    }

    /** The lookup of mgr_thread for a signal read from the pipe. */
    method HandlerOf(signum: Int32, ghost m: map<Int32, F>) returns (r: Option<F>)
      requires Valid() && Exact(State(), m) && Accepted(signum) && table != null
      ensures r == if signum in m then Some(m[signum]) else None
    {
      ProbeStopsAtHome(table.Table(), m, signum);
      var item := table.Get(signum);
      r := if item.Some? then Some(item.value.value) else None;
    }
  }
}
