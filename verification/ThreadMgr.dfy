/**
 The sequential side of thread_mgr.c on its real structures: the array Threads[] of record pointers,
 the records whose state field is overwritten in place, and the scanning loops with their 32-bit
 and-fold of the results {0, -1}. What each call does is stated through `View`, the table of slot
 states that `ThreadModel` also shows of its states.
 */
module ThreadMgr {
  import opened Options
  import opened ThreadModel

  const THD_OK: bv32 := 0
  const THD_ERROR: bv32 := 0xFFFF_FFFF

  class ThreadInfo {
    const handle: nat
    var state: ThreadState

    constructor (handle: nat)
      ensures this.handle == handle && state == Pending
    {
      this.handle := handle;
      state := Pending;
    }
  }

  class ThreadTable {
    const threads: array<ThreadInfo?>

    ghost predicate Valid()
      reads threads
    {
      && threads.Length == MAX_THREADS
      && forall h :: 0 <= h < threads.Length && threads[h] != null ==> threads[h].handle == h
    }

    ghost function Records(): set<object>
      reads threads
    {
      set h: int | 0 <= h < threads.Length && threads[h] != null :: threads[h]
    }

    ghost function View(): (v: seq<Option<ThreadState>>)
      reads threads, Records()
      ensures |v| == threads.Length
      ensures forall h :: 0 <= h < |v| ==> v[h] == if threads[h] == null then None else Some(threads[h].state)
    {
      seq(threads.Length, h requires 0 <= h < threads.Length reads threads, Records() =>
        if threads[h] == null then None else Some(threads[h].state))
    }

    constructor ()
      ensures Valid() && fresh(threads) && View() == seq(MAX_THREADS, h => None)
    {
      threads := new ThreadInfo?[MAX_THREADS](h => null);
    }

    /** get_next_handle: the lowest free slot, or THD_ERROR. */
    method GetNextHandle() returns (idx: int)
      requires Valid()
      ensures idx == -1 <==> forall h :: 0 <= h < MAX_THREADS ==> View()[h].Some?
      ensures idx != -1 ==> 0 <= idx < MAX_THREADS && View()[idx].None? && forall h :: 0 <= h < idx ==> View()[h].Some?
    {
      idx := 0;
      while idx < MAX_THREADS
        invariant 0 <= idx <= MAX_THREADS
        invariant forall h :: 0 <= h < idx ==> View()[h].Some?
      {
        if threads[idx] == null {
          assert View()[idx].None?;
          return;
        }
        idx := idx + 1;
      }
      idx := -1;
    }

    /** th_execute, when no other call runs between its search and its publish. */
    method ThExecute() returns (handle: int)
      requires Valid()
      modifies threads
      ensures Valid()
      ensures handle == -1 ==> forall h :: 0 <= h < MAX_THREADS ==> old(View())[h].Some?
      ensures handle == -1 ==> View() == old(View())
      ensures handle != -1 ==>
                && 0 <= handle < MAX_THREADS && old(View())[handle].None?
                && (forall h :: 0 <= h < handle ==> old(View())[h].Some?)
                && View() == old(View())[handle := Some(Pending)]
    {
      handle := GetNextHandle();
      ghost var before := View();
      if handle == -1 {
        return;
      }
      assert before[handle].None? && before == old(View());
      var info := new ThreadInfo(handle);
      threads[handle] := info;
    }

    /** th_kill. */
    method ThKill(th: int) returns (r: bv32)
      requires Valid()
      modifies Records()
      ensures View() == KillAt(old(View()), th)
      ensures r == if 0 <= th < MAX_THREADS && Killable(old(View())[th]) then THD_OK else THD_ERROR
    {
      if 0 <= th < MAX_THREADS && threads[th] != null {
        var info := threads[th];
        if info.state == Cancelled || info.state == Finished {
          return THD_ERROR;
        }
        info.state := Cancelled;
        return THD_OK;
      }
      r := THD_ERROR;
    }

    /** th_kill_all: OK iff some slot was PENDING or RUNNING, and none is afterwards. */
    method ThKillAll() returns (ret: bv32)
      requires Valid()
      modifies Records()
      ensures ret == THD_OK || ret == THD_ERROR
      ensures ret == THD_OK <==> exists h :: 0 <= h < MAX_THREADS && Killable(old(View())[h])
      ensures forall h :: 0 <= h < MAX_THREADS ==> View()[h] == AfterKill(old(View())[h]) && !Killable(View()[h])
    {
      ret := THD_ERROR;
      var idx := 0;
      while idx < MAX_THREADS
        invariant 0 <= idx <= MAX_THREADS
        invariant ret == THD_OK || ret == THD_ERROR
        invariant ret == THD_OK <==> exists h :: 0 <= h < idx && Killable(old(View())[h])
        invariant forall h :: 0 <= h < idx ==> View()[h] == AfterKill(old(View())[h])
        invariant forall h :: idx <= h < MAX_THREADS ==> View()[h] == old(View())[h]
      {
        var r := ThKill(idx);
        ret := ret & r;
        idx := idx + 1;
      }
    }

    /** What other threads do while this one is in a join: workers start and finish, in any order. */
    method WorkersRun()
      requires Valid()
      modifies Records()
    {
      var h := 0;
      while h < MAX_THREADS
        invariant 0 <= h <= MAX_THREADS
      {
        if threads[h] != null {
          if * {
            threads[h].state := Running;
          } else if * {
            threads[h].state := Finished;
          }
        }
        h := h + 1;
      }
    }

    /** th_wait, its worker terminating: the slot is emptied, whichever way the record went. */
    method ThWait(th: int) returns (r: bv32)
      requires Valid()
      modifies threads, Records()
      ensures Valid()
      ensures r == if 0 <= th < MAX_THREADS && old(threads[th]) != null then THD_OK else THD_ERROR
      ensures forall h :: 0 <= h < MAX_THREADS ==> threads[h] == if h == th then null else old(threads[h])
    {
      if 0 <= th < MAX_THREADS && threads[th] != null {
        var state := threads[th].state;
        if state != Finished {
          WorkersRun();
        }
        threads[th] := null;
        return THD_OK;
      }
      r := THD_ERROR;
    }

    /** th_wait_all, with no concurrent calls: every slot is emptied, OK iff some slot was filled. */
    method ThWaitAll() returns (ret: bv32)
      requires Valid()
      modifies threads, Records()
      ensures Valid() && (ret == THD_OK || ret == THD_ERROR)
      ensures ret == THD_OK <==> exists h :: 0 <= h < MAX_THREADS && old(View())[h].Some?
      ensures View() == seq(MAX_THREADS, h => None)
    {
      ret := THD_ERROR;
      var idx := 0;
      while idx < MAX_THREADS
        invariant 0 <= idx <= MAX_THREADS && Valid()
        invariant ret == THD_OK || ret == THD_ERROR
        invariant ret == THD_OK <==> exists h :: 0 <= h < idx && old(View())[h].Some?
        invariant forall h :: 0 <= h < MAX_THREADS ==> threads[h] == if h < idx then null else old(threads[h])
      {
        assert old(View())[idx].Some? <==> old(threads[idx]) != null;
        var r := ThWait(idx);
        ret := ret & r;
        idx := idx + 1;
      }
    }
  }
}
