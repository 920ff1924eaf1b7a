/**
 The shared-memory bookkeeping of src/lib/shmlib/shared_mem.c: a hash of key -> segment, each with
 a list of attached addresses, which must agree with what the kernel has attached.

 The kernel is the map `attached` from each address connect_shm attached to the key of its segment,
 and the answers the kernel gives are arguments of the operations.
 */
module SharedMemory {
  import opened Options
  import opened HashTable
  import L = LinkedList

  const MAX_SEGMENTS: nat := 4096

  datatype Segment = Segment(key: Int32, shmId: int, size: int, list: L.ListState<int>)

  /** `made`: SegmentNodes is not NULL; until then `cells` is all empty. */
  datatype ShmState = ShmState(cells: Cells<Segment>, attached: map<int, Int32>, made: bool)

  // ------------------------------------------------------------- operations

  /** What shmget, shmat and (when semaphores are in use) semget answer to connect_shm. */
  datatype ConnectReply = NoSegment | NoAttach | Attached(shmId: int, addr: int, lockOk: bool)

  function Found(c: Cells<Segment>, key: Int32): Option<Segment>
    requires 0 < |c|
  {
    match Lookup(c, key)
    case Some(node) => Some(node.value)
    case None => None
  }

  /** The segment whose list connect_shm pushes to. */
  function Target(c: Cells<Segment>, key: Int32, size: int, shmId: int): Segment
    requires 0 < |c|
  {
    match Found(c, key)
    case Some(seg) => seg
    case None => Segment(key, shmId, size, L.ListState([], -1, 0))
  }

  /** The lookup ends, and the push does not go through a NULL tail. */
  predicate ConnectDefined(s: ShmState, key: Int32, size: int, reply: ConnectReply) {
    && 0 < |s.cells|
    && (reply.Attached? ==>
          && Probe(s.cells, key).Some?
          && var list := Target(s.cells, key, size, reply.shmId).list;
             L.TailInList(list) && L.CanPush(list))
  }

  function Connect(s: ShmState, key: Int32, size: int, reply: ConnectReply): (ShmState, Option<int>)
    requires ConnectDefined(s, key, size, reply)
  {
    if !reply.Attached? then (s.(made := true), None)
    else
      var attached := s.attached[reply.addr := key];
      if Found(s.cells, key).None? && !reply.lockOk then (s.(attached := attached, made := true), None)
      else
        var seg := Target(s.cells, key, size, reply.shmId);
        var seg' := seg.(list := L.Push(seg.list, reply.addr));
        (ShmState(Insert(s.cells, key, seg'), attached, true), Some(reply.addr))
  }

  /** First cell, from `i` on, whose segment lists the address. */
  function FindCell(c: Cells<Segment>, addr: int, i: nat): (r: nat)
    requires i <= |c|
    ensures i <= r <= |c|
    ensures forall j: nat :: i <= j < r && c[j].Some? ==> addr !in c[j].value.value.list.items
    ensures r < |c| ==> c[r].Some? && addr in c[r].value.value.list.items
    decreases |c| - i
  {
    if i == |c| then i
    else if c[i].Some? && addr in c[i].value.value.list.items then i
    else FindCell(c, addr, i + 1)
  }

  /** find_key_for_address, whose "not found" is the key -1. */
  function FindKey(c: Cells<Segment>, addr: int): Int32 {
    var i := FindCell(c, addr, 0);
    if i < |c| then c[i].value.value.key else -1
  }

  function Detach(s: ShmState, addr: int, shmdtOk: bool): (ShmState, bool)
    requires 0 < |s.cells|
  {
    var key := FindKey(s.cells, addr);
    if key == -1 || !shmdtOk then (s, false)
    else
      var attached := s.attached - {addr};
      match Found(s.cells, key)
      case None => (s.(attached := attached), true)
      case Some(seg) =>
        (s.(cells := Insert(s.cells, key, seg.(list := L.Remove(seg.list, addr))), attached := attached), true)
  }

  /** The loop of destroy_shm over the addresses `pending`; shmdt fails for those in `fails`. */
  function Walk(s: ShmState, pending: seq<int>, fails: set<int>): (r: ShmState)
    requires 0 < |s.cells|
    ensures 0 < |r.cells|
    decreases |pending|
  {
    if pending == [] then s else Walk(Detach(s, pending[0], pending[0] !in fails).0, pending[1..], fails)
  }

  /** How shmctl(IPC_RMID) ends: removed, already gone (EINVAL), or any other error. */
  datatype Removal = Removed | Gone | Refused

  function Destroy(s: ShmState, key: Int32, fails: set<int>, rm: Removal): (ShmState, bool)
    requires 0 < |s.cells|
  {
    match Found(s.cells, key)
    case None => (s, false)
    case Some(seg) =>
      var s' := Walk(s, seg.list.items, fails);
      if rm.Refused? then (s', false) else (s'.(cells := Delete(s'.cells, key)), rm.Removed?)
  }

  // -------------------------------------------------------------- invariants

  ghost predicate SegmentOk(key: Int32, seg: Segment, attached: map<int, Int32>) {
    && seg.key == key != -1
    && L.TailInList(seg.list) && L.Distinct(seg.list.items)
    && forall a :: a in seg.list.items ==> a in attached && attached[a] == key
  }

  ghost predicate SegmentsOk(m: map<Int32, Segment>, attached: map<int, Int32>) {
    forall k :: k in m ==> SegmentOk(k, m[k], attached)
  }

  ghost predicate AllListed(m: map<Int32, Segment>, attached: map<int, Int32>) {
    && (forall k :: k in m ==> L.SizeIsLength(m[k].list))
    && forall a :: a in attached ==> attached[a] in m && a in m[attached[a]].list.items
  }

  /** Each key has one reachable node, and every listed address is attached under that key (so no
      address is listed twice anywhere). */
  ghost predicate ListedAreAttached(s: ShmState) {
    && WellFormed(s.cells)
    && SegmentsOk(Contents(s.cells), s.attached)
  }

  /** Moreover every attached address is listed, and each list's size is its length. */
  ghost predicate Agrees(s: ShmState) {
    && ListedAreAttached(s)
    && AllListed(Contents(s.cells), s.attached)
  }

  lemma FoundIsEntry(c: Cells<Segment>, key: Int32)
    requires WellFormed(c)
    ensures key in Contents(c) ==> Found(c, key) == Some(Contents(c)[key]) && Probe(c, key).Some?
    ensures key !in Contents(c) ==> Found(c, key).None?
  {
    LookupRefinesMap(c, key);
  }

  /** find_key_for_address returns the one key that lists the address, and -1 exactly when none does. */
  lemma FindKeyExact(s: ShmState, addr: int)
    requires ListedAreAttached(s)
    ensures forall k :: k in Contents(s.cells) && addr in Contents(s.cells)[k].list.items ==>
              FindKey(s.cells, addr) == k
    ensures FindKey(s.cells, addr) != -1 ==>
              && FindKey(s.cells, addr) in Contents(s.cells)
              && addr in Contents(s.cells)[FindKey(s.cells, addr)].list.items
  {
    var c, m := s.cells, Contents(s.cells);
    var r := FindCell(c, addr, 0);
    if r < |c| {
      assert StoredAt(c, r, c[r].value.key);
    }
    forall k | k in m && addr in m[k].list.items ensures FindKey(c, addr) == k {
      var i: nat :| StoredAt(c, i, k);
    }
  }

  /** Replacing the segment of a stored key keeps every key in its cell. */
  lemma ReplaceKeepsKeys(c: Cells<Segment>, key: Int32, seg: Segment)
    requires WellFormed(c) && key in Contents(c)
    ensures SameKeys(c, Insert(c, key, seg)) && WellFormed(Insert(c, key, seg))
    ensures Contents(Insert(c, key, seg)) == Contents(c)[key := seg]
  {
    FoundIsEntry(c, key);
    InsertRefinesMap(c, key, seg);
    assert c[Probe(c, key).value].Some?;
  }

  // ------------------------------------------------------------------- steps

  /** What connect_shm needs of its caller and the kernel. */
  ghost predicate ConnectRule(s: ShmState, key: Int32, size: int, reply: ConnectReply) {
    && key != -1
    && ConnectDefined(s, key, size, reply)
    && (reply.Attached? ==> reply.addr !in s.attached)
  }

  /** ... and what it needs for the bookkeeping to stay exact. */
  predicate ConnectExactRule(s: ShmState, key: Int32, size: int, reply: ConnectReply)
    requires 0 < |s.cells|
  {
    reply.Attached? ==>
      && (Found(s.cells, key).Some? || reply.lockOk)
      && L.TailIsLast(Target(s.cells, key, size, reply.shmId).list)
  }

  /** Pushing a new address keeps the segments sound, and exact when the list's tail is last. */
  lemma PushedOk(m: map<Int32, Segment>, attached: map<int, Int32>, key: Int32, seg: Segment, addr: int)
    requires SegmentsOk(m, attached) && SegmentOk(key, seg, attached) && addr !in attached
    requires (key in m ==> m[key] == seg) && (key !in m ==> seg.list.items == [])
    requires L.CanPush(seg.list)
    ensures var m' := m[key := seg.(list := L.Push(seg.list, addr))];
            && SegmentsOk(m', attached[addr := key])
            && (AllListed(m, attached) && L.SizeIsLength(seg.list) ==>
                  (AllListed(m', attached[addr := key]) <==> L.TailIsLast(seg.list)))
  {
    L.PushAppendsIff(seg.list, addr);
    var seg' := seg.(list := L.Push(seg.list, addr));
    assert SegmentOk(key, seg', attached[addr := key]);
    forall k | k in m && k != key ensures SegmentOk(k, m[k], attached[addr := key]) {
      assert SegmentOk(k, m[k], attached);
    }
  }

  /** An address that is attached and not pushed is listed nowhere. */
  lemma NotPushed(m: map<Int32, Segment>, attached: map<int, Int32>, key: Int32, addr: int)
    requires SegmentsOk(m, attached) && addr !in attached
    ensures SegmentsOk(m, attached[addr := key]) && !AllListed(m, attached[addr := key])
  {
    forall k | k in m ensures SegmentOk(k, m[k], attached[addr := key]) && addr !in m[k].list.items {
      assert SegmentOk(k, m[k], attached);
    }
    assert attached[addr := key][addr] == key;
  }

  lemma ConnectKeeps(s: ShmState, key: Int32, size: int, reply: ConnectReply)
    requires ListedAreAttached(s) && ConnectRule(s, key, size, reply)
    ensures ListedAreAttached(Connect(s, key, size, reply).0)
    ensures Agrees(s) ==> (Agrees(Connect(s, key, size, reply).0) <==> ConnectExactRule(s, key, size, reply))
  {
    if reply.Attached? {
      var m := Contents(s.cells);
      FoundIsEntry(s.cells, key);
      if Found(s.cells, key).Some? || reply.lockOk {
        var seg := Target(s.cells, key, size, reply.shmId);
        assert SegmentOk(key, seg, s.attached);
        PushedOk(m, s.attached, key, seg, reply.addr);
        InsertRefinesMap(s.cells, key, seg.(list := L.Push(seg.list, reply.addr)));
      } else {
        NotPushed(m, s.attached, key, reply.addr);
      }
    }
  }

  /** The entry of `key`, old or new, lists the address last, and the other entries are as they were. */
  ghost predicate Listed(s: ShmState, t: ShmState, key: Int32, size: int, shmId: int, addr: int)
    requires UniqueKeys(s.cells)
  {
    var m := Contents(s.cells);
    && UniqueKeys(t.cells) && key in Contents(t.cells)
    && var seg := Contents(t.cells)[key];
       && Contents(t.cells) == m[key := seg]
       && seg.list.items != [] && seg.list.items[|seg.list.items| - 1] == addr
       && (key in m ==> seg.key == m[key].key && seg.shmId == m[key].shmId && seg.size == m[key].size)
       && (key !in m ==> seg.key == key && seg.shmId == shmId && seg.size == size && seg.list.items == [addr])
  }

  /** What connect_shm returns for any key, and what it stores: NULL exactly when the kernel refuses or
      a first connect gets no semaphore, else the new address, which it lists under the key; a first
      connect records the segment's id and size, a later one keeps those it finds. */
  lemma ConnectReturns(s: ShmState, key: Int32, size: int, reply: ConnectReply)
    requires WellFormed(s.cells) && ConnectDefined(s, key, size, reply)
    ensures var (t, r) := Connect(s, key, size, reply);
            && t.made
            && (r.None? <==> !reply.Attached? || (key !in Contents(s.cells) && !reply.lockOk))
            && (!reply.Attached? ==> t == s.(made := true))
            && (reply.Attached? ==> t.attached == s.attached[reply.addr := key])
            && (r.None? ==> t.cells == s.cells)
            && (r.Some? ==> r.value == reply.addr && Listed(s, t, key, size, reply.shmId, reply.addr))
  {
    FoundIsEntry(s.cells, key);
    if reply.Attached? && Connect(s, key, size, reply).1.Some? {
      var seg := Target(s.cells, key, size, reply.shmId);
      L.PushKeepsToTail(seg.list, reply.addr);
      InsertRefinesMap(s.cells, key, seg.(list := L.Push(seg.list, reply.addr)));
    }
  }

  function WithList(m: map<Int32, Segment>, key: Int32, list: L.ListState<int>): map<Int32, Segment>
    requires key in m
  {
    m[key := m[key].(list := list)]
  }

  /** Unlisting an address that is detached keeps the segments sound, and exact if they were. */
  lemma RemovedOk(m: map<Int32, Segment>, attached: map<int, Int32>, key: Int32, addr: int)
    requires SegmentsOk(m, attached) && key in m && addr in m[key].list.items
    ensures var m' := WithList(m, key, L.Remove(m[key].list, addr));
            && SegmentsOk(m', attached - {addr})
            && (AllListed(m, attached) ==> AllListed(m', attached - {addr}))
  {
    var seg := m[key];
    assert SegmentOk(key, seg, attached);
    L.RemoveFromDistinct(seg.list, addr);
    L.RemoveTail(seg.list, addr);
    forall k | k in m && k != key ensures SegmentOk(k, m[k], attached - {addr}) {
      assert SegmentOk(k, m[k], attached);
    }
  }

  /** A detach of a listed address: that address leaves its own list and the kernel, nothing else. */
  lemma DetachExact(s: ShmState, key: Int32, addr: int)
    requires ListedAreAttached(s) && key in Contents(s.cells) && addr in Contents(s.cells)[key].list.items
    ensures var (s', ok) := Detach(s, addr, true);
            && ok && s'.attached == s.attached - {addr}
            && ListedAreAttached(s') && SameKeys(s.cells, s'.cells)
            && Contents(s'.cells) == WithList(Contents(s.cells), key, L.Remove(Contents(s.cells)[key].list, addr))
            && (Agrees(s) ==> Agrees(s'))
  {
    var seg := Contents(s.cells)[key];
    FindKeyExact(s, addr);
    FoundIsEntry(s.cells, key);
    assert SegmentOk(key, seg, s.attached);
    ReplaceKeepsKeys(s.cells, key, seg.(list := L.Remove(seg.list, addr)));
    RemovedOk(Contents(s.cells), s.attached, key, addr);
  }

  lemma DetachKeeps(s: ShmState, addr: int, shmdtOk: bool)
    requires ListedAreAttached(s)
    ensures ListedAreAttached(Detach(s, addr, shmdtOk).0)
    ensures Agrees(s) ==> Agrees(Detach(s, addr, shmdtOk).0)
    ensures Detach(s, addr, shmdtOk).1 <==> shmdtOk && FindKey(s.cells, addr) != -1
    ensures !Detach(s, addr, shmdtOk).1 ==> Detach(s, addr, shmdtOk).0 == s
  {
    FindKeyExact(s, addr);
    if FindKey(s.cells, addr) != -1 && shmdtOk {
      DetachExact(s, FindKey(s.cells, addr), addr);
    }
  }

  /** The addresses among `pending` whose shmdt succeeds. */
  function Gone(pending: seq<int>, fails: set<int>): set<int> {
    set a | a in pending && a !in fails
  }

  /** `t` is `s` after a walk over `pending`, a stretch of the list of `key`. */
  ghost predicate Walked(s: ShmState, t: ShmState, key: Int32, pending: seq<int>, fails: set<int>)
    requires ListedAreAttached(s) && key in Contents(s.cells)
  {
    && ListedAreAttached(t) && SameKeys(s.cells, t.cells)
    && Contents(t.cells) == WithList(Contents(s.cells), key, L.RemoveEach(Contents(s.cells)[key].list, pending, fails))
    && t.attached == s.attached - Gone(pending, fails)
    && (Agrees(s) ==> Agrees(t))
  }

  lemma WithListTwice(m: map<Int32, Segment>, key: Int32, one: L.ListState<int>, two: L.ListState<int>)
    requires key in m
    ensures WithList(WithList(m, key, one), key, two) == WithList(m, key, two)
  {
  }

  lemma WalkSteps(l: L.ListState<int>, a: int, rest: seq<int>, fails: set<int>, attached: map<int, Int32>)
    ensures a in fails ==> L.RemoveEach(l, [a] + rest, fails) == L.RemoveEach(l, rest, fails)
    ensures a in fails ==> Gone([a] + rest, fails) == Gone(rest, fails)
    ensures a !in fails ==> L.RemoveEach(l, [a] + rest, fails) == L.RemoveEach(L.Remove(l, a), rest, fails)
    ensures a !in fails ==> attached - Gone([a] + rest, fails) == (attached - {a}) - Gone(rest, fails)
  {
    assert ([a] + rest)[1..] == rest;
    assert Gone([a] + rest, fails) == (if a in fails then {} else {a}) + Gone(rest, fails);
  }

  lemma WalkedOn(s: ShmState, t: ShmState, u: ShmState, key: Int32, a: int, rest: seq<int>, fails: set<int>)
    requires ListedAreAttached(s) && key in Contents(s.cells) && a !in fails
    requires ListedAreAttached(t) && SameKeys(s.cells, t.cells)
    requires Contents(t.cells) == WithList(Contents(s.cells), key, L.Remove(Contents(s.cells)[key].list, a))
    requires t.attached == s.attached - {a}
    requires Agrees(s) ==> Agrees(t)
    requires Walked(t, u, key, rest, fails)
    ensures Walked(s, u, key, [a] + rest, fails)
  {
    var list := Contents(s.cells)[key].list;
    SameKeysTransitive(s.cells, t.cells, u.cells);
    WalkSteps(list, a, rest, fails, s.attached);
    WithListTwice(Contents(s.cells), key, L.Remove(list, a), L.RemoveEach(L.Remove(list, a), rest, fails));
  }

  lemma WalkedPast(s: ShmState, u: ShmState, key: Int32, a: int, rest: seq<int>, fails: set<int>)
    requires ListedAreAttached(s) && key in Contents(s.cells) && a in fails
    requires Walked(s, u, key, rest, fails)
    ensures Walked(s, u, key, [a] + rest, fails)
  {
    WalkSteps(Contents(s.cells)[key].list, a, rest, fails, s.attached);
  }

  lemma DetachInWalk(s: ShmState, key: Int32, front: seq<int>, a: int, rest: seq<int>)
    requires ListedAreAttached(s) && key in Contents(s.cells)
    requires Contents(s.cells)[key].list.items == front + [a] + rest
    ensures var t := Detach(s, a, true).0;
            && ListedAreAttached(t) && SameKeys(s.cells, t.cells) && key in Contents(t.cells)
            && Contents(t.cells) == WithList(Contents(s.cells), key, L.Remove(Contents(s.cells)[key].list, a))
            && Contents(t.cells)[key].list.items == front + rest
            && t.attached == s.attached - {a} && (Agrees(s) ==> Agrees(t))
  {
    var list := Contents(s.cells)[key].list;
    assert list.items[|front|] == a;
    DetachExact(s, key, a);
    assert SegmentOk(key, Contents(s.cells)[key], s.attached);
    L.RemoveStep(list, front, a, rest);
  }

  /** The destroy walk visits the original attachments one by one although each visit unlinks the
      node visited: what is left is the list with each successful detach removed. */
  lemma {:induction false} WalkExact(s: ShmState, key: Int32, front: seq<int>, pending: seq<int>, fails: set<int>)
    requires ListedAreAttached(s) && key in Contents(s.cells)
    requires Contents(s.cells)[key].list.items == front + pending
    ensures Walked(s, Walk(s, pending, fails), key, pending, fails)
    decreases |pending|
  {
    var list := Contents(s.cells)[key].list;
    if pending == [] {
      assert Contents(s.cells) == WithList(Contents(s.cells), key, list);
    } else {
      var a, rest := pending[0], pending[1..];
      assert pending == [a] + rest && list.items == front + [a] + rest;
      var t := Detach(s, a, a !in fails).0;
      if a in fails {
        WalkExact(s, key, front + [a], rest, fails);
        WalkedPast(s, Walk(t, rest, fails), key, a, rest, fails);
      } else {
        DetachInWalk(s, key, front, a, rest);
        WalkExact(t, key, front, rest, fails);
        WalkedOn(s, t, Walk(t, rest, fails), key, a, rest, fails);
      }
    }
  }

  /** What the walk of destroy_shm does to a sound list: the survivors are, in order, exactly the
      addresses whose shmdt failed, and `tail` ends at the last node exactly when nothing was
      removed or the last attachment's detach succeeded. */
  lemma WalkSurvivors(s: ShmState, key: Int32, fails: set<int>)
    requires ListedAreAttached(s) && key in Contents(s.cells) && L.SizeIsLength(Contents(s.cells)[key].list)
    ensures var list := Contents(s.cells)[key].list;
            var t := Walk(s, list.items, fails);
            && ListedAreAttached(t) && (Agrees(s) ==> Agrees(t)) && key in Contents(t.cells)
            && L.WalkOutcome(list, Contents(t.cells)[key].list, fails)
  {
    var list := Contents(s.cells)[key].list;
    assert list.items == [] + list.items;
    WalkExact(s, key, [], list.items, fails);
    assert L.WalkOutcome(list, L.RemoveEach(list, list.items, fails), fails) by {
      assert SegmentOk(key, Contents(s.cells)[key], s.attached);
      L.WalkOverAll(list, fails);
    }
  }

  /** Deleting `key` frees a cell that lies on the path of no other stored key. */
  predicate CutsNone(c: Cells<Segment>, key: Int32)
    requires 0 < |c|
  {
    match Probe(c, key)
    case Some(p) => forall i: nat :: i < |c| && i != p && c[i].Some? ==> !OnPath(c[i].value.key, p, i, |c|)
    case None => true
  }

  lemma CutsNoneSameKeys(c: Cells<Segment>, d: Cells<Segment>, key: Int32)
    requires 0 < |c| && SameKeys(c, d)
    ensures Probe(c, key) == Probe(d, key) && (CutsNone(c, key) <==> CutsNone(d, key))
  {
    ProbeSameKeys(c, d, key, 0);
    if Probe(c, key).Some? {
      var p := Probe(c, key).value;
      forall i: nat | i < |c| && i != p && c[i].Some?
        ensures OnPath(c[i].value.key, p, i, |c|) <==> d[i].Some? && OnPath(d[i].value.key, p, i, |c|)
      {
      }
    }
  }

  lemma DeleteEntry(t: ShmState, key: Int32)
    requires ListedAreAttached(t) && key in Contents(t.cells)
    ensures var c' := Delete(t.cells, key);
            && UniqueKeys(c') && (WellFormed(c') <==> CutsNone(t.cells, key))
            && Contents(c') == Contents(t.cells) - {key}
  {
    FoundIsEntry(t.cells, key);
    var p := Probe(t.cells, key).value;
    assert t.cells[p].Some? && t.cells[p].value.key == key;
    DeleteKeepsWellFormedIff(t.cells, p);
    DeleteRefinesMap(t.cells, p);
  }

  /** Dropping a key keeps the others sound, and exact unless an address of its list is still attached. */
  lemma UnlistedOk(m: map<Int32, Segment>, attached: map<int, Int32>, key: Int32, fails: set<int>)
    requires SegmentsOk(m, attached) && key in m
    ensures var attached' := attached - Gone(m[key].list.items, fails);
            && SegmentsOk(m - {key}, attached')
            && (AllListed(m, attached) ==>
                  (AllListed(m - {key}, attached') <==> forall a :: a in m[key].list.items ==> a !in fails))
  {
    var items, m' := m[key].list.items, m - {key};
    var attached' := attached - Gone(items, fails);
    assert SegmentOk(key, m[key], attached);
    forall k | k in m' ensures SegmentOk(k, m'[k], attached') {
      assert SegmentOk(k, m[k], attached);
    }
    if AllListed(m, attached) {
      if a :| a in items && a in fails {
        assert a in attached' && attached'[a] == key;
      }
    }
  }

  lemma WithListElsewhere(m: map<Int32, Segment>, key: Int32, list: L.ListState<int>)
    requires key in m
    ensures WithList(m, key, list) - {key} == m - {key}
  {
  }

  /** The state between the walk of destroy_shm and its shmctl. */
  lemma WalkLeaves(s: ShmState, key: Int32, fails: set<int>)
    requires ListedAreAttached(s) && key in Contents(s.cells)
    ensures var items := Contents(s.cells)[key].list.items;
            var t := Walk(s, items, fails);
            && ListedAreAttached(t) && key in Contents(t.cells)
            && t.attached == s.attached - Gone(items, fails)
            && Contents(t.cells) - {key} == Contents(s.cells) - {key}
            && (CutsNone(t.cells, key) <==> CutsNone(s.cells, key))
            && (Agrees(s) ==> Agrees(t))
  {
    var m := Contents(s.cells);
    var items := m[key].list.items;
    assert items == [] + items;
    WalkExact(s, key, [], items, fails);
    var t := Walk(s, items, fails);
    CutsNoneSameKeys(s.cells, t.cells, key);
    WithListElsewhere(m, key, L.RemoveEach(m[key].list, items, fails));
  }

  /** destroy_shm of a known key: the return value, what stays attached, and exactly when the
      bookkeeping stays sound and stays exact. */
  lemma DestroyExact(s: ShmState, key: Int32, fails: set<int>, rm: Removal)
    requires ListedAreAttached(s) && key in Contents(s.cells)
    ensures var (s', ok) := Destroy(s, key, fails, rm);
            var items := Contents(s.cells)[key].list.items;
            && (ok <==> rm.Removed?)
            && s'.attached == s.attached - Gone(items, fails)
            && (ListedAreAttached(s') <==> rm.Refused? || CutsNone(s.cells, key))
            && (!rm.Refused? ==> UniqueKeys(s'.cells) && Contents(s'.cells) == Contents(s.cells) - {key})
            && (Agrees(s) && (rm.Refused? || CutsNone(s.cells, key)) ==>
                  (Agrees(s') <==> rm.Refused? || forall a :: a in items ==> a !in fails))
  {
    var items := Contents(s.cells)[key].list.items;
    FoundIsEntry(s.cells, key);
    var t := Walk(s, items, fails);
    WalkLeaves(s, key, fails);
    if !rm.Refused? {
      DeleteEntry(t, key);
      UnlistedOk(Contents(s.cells), s.attached, key, fails);
    }
  }

  /** destroy_shm of a key without an entry fails and does nothing; of one the kernel will not remove,
      it has only detached. */
  lemma DestroyFails(s: ShmState, key: Int32, fails: set<int>, rm: Removal)
    requires ListedAreAttached(s)
    ensures key !in Contents(s.cells) ==> Destroy(s, key, fails, rm) == (s, false)
    ensures key in Contents(s.cells) && rm.Refused? ==>
              var (t, ok) := Destroy(s, key, fails, rm);
              !ok && Walked(s, t, key, Contents(s.cells)[key].list.items, fails)
  {
    FoundIsEntry(s.cells, key);
    if key in Contents(s.cells) {
      var items := Contents(s.cells)[key].list.items;
      assert items == [] + items;
      WalkExact(s, key, [], items, fails);
    }
  }

  // ------------------------------------------------------------------- runs

  datatype Call =
    | ConnectCall(key: Int32, size: int, reply: ConnectReply)
    | DetachCall(addr: int, shmdtOk: bool)
    | DestroyCall(key: Int32, fails: set<int>, rm: Removal)

  /** The call dereferences no NULL: a connect has come first, a push finds its tail; and the kernel
      attaches at a new address. */
  predicate Defined(s: ShmState, call: Call) {
    0 < |s.cells| &&
    match call
    case ConnectCall(key, size, reply) =>
      ConnectDefined(s, key, size, reply) && (reply.Attached? ==> reply.addr !in s.attached)
    case DetachCall(_, _) => s.made
    case DestroyCall(_, _, _) => s.made
  }

  /** ... and it keeps to what the bookkeeping needs: the key is not -1, a destroy's lookup ends and
      the entry it deletes cuts off no other. */
  predicate Rule(s: ShmState, call: Call)
    requires Defined(s, call)
  {
    match call
    case ConnectCall(key, _, _) => key != -1
    case DetachCall(_, _) => true
    case DestroyCall(key, _, rm) => Probe(s.cells, key).Some? && (rm.Refused? || CutsNone(s.cells, key))
  }

  /** ... and to what the bookkeeping needs to stay exact. */
  predicate ExactRule(s: ShmState, call: Call)
    requires 0 < |s.cells|
  {
    match call
    case ConnectCall(key, size, reply) =>
      ConnectDefined(s, key, size, reply) && ConnectExactRule(s, key, size, reply)
    case DetachCall(_, _) => true
    case DestroyCall(key, fails, rm) =>
      rm.Refused? || Found(s.cells, key).None? || forall a :: a in Found(s.cells, key).value.list.items ==> a !in fails
  }

  function Apply(s: ShmState, call: Call): ShmState
    requires Defined(s, call)
  {
    match call
    case ConnectCall(key, size, reply) => Connect(s, key, size, reply).0
    case DetachCall(addr, ok) => Detach(s, addr, ok).0
    case DestroyCall(key, fails, rm) => Destroy(s, key, fails, rm).0
  }

  predicate RunDefined(s: ShmState, calls: seq<Call>)
    decreases |calls|
  {
    calls == [] || (Defined(s, calls[0]) && RunDefined(Apply(s, calls[0]), calls[1..]))
  }

  /** Every call of the run keeps to the rule, in the state it finds. */
  predicate RunRules(s: ShmState, calls: seq<Call>)
    requires RunDefined(s, calls)
    decreases |calls|
  {
    calls == [] || (Rule(s, calls[0]) && RunRules(Apply(s, calls[0]), calls[1..]))
  }

  predicate RunExactRules(s: ShmState, calls: seq<Call>)
    requires RunDefined(s, calls)
    decreases |calls|
  {
    calls == [] || (ExactRule(s, calls[0]) && RunExactRules(Apply(s, calls[0]), calls[1..]))
  }

  function RunCalls(s: ShmState, calls: seq<Call>): ShmState
    requires RunDefined(s, calls)
    decreases |calls|
  {
    if calls == [] then s else RunCalls(Apply(s, calls[0]), calls[1..])
  }

  lemma {:induction false} WalkKeepsMade(s: ShmState, pending: seq<int>, fails: set<int>)
    requires 0 < |s.cells|
    ensures Walk(s, pending, fails).made == s.made
    decreases |pending|
  {
    if pending != [] {
      WalkKeepsMade(Detach(s, pending[0], pending[0] !in fails).0, pending[1..], fails);
    }
  }

  /** SegmentNodes is there exactly when some connect_shm has been called, so a run that begins with
      a detach or a destroy goes through the NULL table. */
  lemma {:induction false} MadeByConnect(s: ShmState, calls: seq<Call>)
    requires RunDefined(s, calls)
    ensures RunCalls(s, calls).made <==> s.made || exists i :: 0 <= i < |calls| && calls[i].ConnectCall?
    ensures calls != [] && !calls[0].ConnectCall? ==> s.made
    decreases |calls|
  {
    if calls != [] {
      if calls[0].DestroyCall? && Found(s.cells, calls[0].key).Some? {
        WalkKeepsMade(s, Found(s.cells, calls[0].key).value.list.items, calls[0].fails);
      }
      MadeByConnect(Apply(s, calls[0]), calls[1..]);
      assert forall i :: 0 < i < |calls| ==> calls[i] == calls[1..][i - 1];
    }
  }

  // --------------------------------------------------------- lost addresses

  /** The address is attached, and find_key_for_address finds no key for it. */
  predicate Unlisted(s: ShmState, addr: int) {
    && 0 < |s.cells| && addr in s.attached
    && forall i: nat :: i < |s.cells| && s.cells[i].Some? && addr in s.cells[i].value.value.list.items ==>
         s.cells[i].value.value.key == -1
  }

  lemma UnlistedIsNotFound(s: ShmState, addr: int, ok: bool)
    requires Unlisted(s, addr)
    ensures Detach(s, addr, ok) == (s, false)
  {
  }

  lemma DetachKeepsUnlisted(s: ShmState, addr: int, other: int, ok: bool)
    requires Unlisted(s, addr)
    ensures Unlisted(Detach(s, other, ok).0, addr) && Detach(s, other, ok).0.attached[addr] == s.attached[addr]
  {
    UnlistedIsNotFound(s, addr, ok);
    var key := FindKey(s.cells, other);
    if key != -1 && ok && Found(s.cells, key).Some? {
      var p := Probe(s.cells, key).value;
      assert Detach(s, other, ok).0.cells == s.cells[p := Detach(s, other, ok).0.cells[p]];
    }
  }

  lemma {:induction false} WalkKeepsUnlisted(s: ShmState, addr: int, pending: seq<int>, fails: set<int>)
    requires Unlisted(s, addr)
    ensures Unlisted(Walk(s, pending, fails), addr) && Walk(s, pending, fails).attached[addr] == s.attached[addr]
    decreases |pending|
  {
    if pending != [] {
      DetachKeepsUnlisted(s, addr, pending[0], pending[0] !in fails);
      WalkKeepsUnlisted(Detach(s, pending[0], pending[0] !in fails).0, addr, pending[1..], fails);
    }
  }

  lemma CallKeepsUnlisted(s: ShmState, addr: int, call: Call)
    requires Defined(s, call) && Unlisted(s, addr)
    ensures Unlisted(Apply(s, call), addr) && Apply(s, call).attached[addr] == s.attached[addr]
  {
    match call
    case ConnectCall(key, size, reply) =>
    case DetachCall(other, ok) => DetachKeepsUnlisted(s, addr, other, ok);
    case DestroyCall(key, fails, rm) =>
      if Found(s.cells, key).Some? {
        WalkKeepsUnlisted(s, addr, Found(s.cells, key).value.list.items, fails);
      }
  }

  /** A lost address stays attached and lost, whatever is called. */
  lemma {:induction false} RunKeepsUnlisted(s: ShmState, addr: int, calls: seq<Call>)
    requires RunDefined(s, calls) && Unlisted(s, addr)
    ensures Unlisted(RunCalls(s, calls), addr) && RunCalls(s, calls).attached[addr] == s.attached[addr]
    decreases |calls|
  {
    if calls != [] {
      CallKeepsUnlisted(s, addr, calls[0]);
      RunKeepsUnlisted(Apply(s, calls[0]), addr, calls[1..]);
    }
  }

  lemma UnlistedDisagrees(s: ShmState, addr: int)
    requires Unlisted(s, addr)
    ensures !Agrees(s)
  {
  }

  /** An attached address that no entry lists is lost. */
  lemma NotInAnyList(s: ShmState, addr: int)
    requires ListedAreAttached(s) && addr in s.attached
    requires forall k :: k in Contents(s.cells) ==> addr !in Contents(s.cells)[k].list.items
    ensures Unlisted(s, addr)
  {
    assert forall i: nat :: i < |s.cells| && s.cells[i].Some? ==> StoredAt(s.cells, i, s.cells[i].value.key);
  }

  lemma CallKeeps(s: ShmState, call: Call)
    requires ListedAreAttached(s) && Defined(s, call) && Rule(s, call)
    ensures ListedAreAttached(Apply(s, call))
    ensures Agrees(s) ==> (Agrees(Apply(s, call)) <==> ExactRule(s, call))
  {
    match call
    case ConnectCall(key, size, reply) => ConnectKeeps(s, key, size, reply);
    case DetachCall(addr, ok) => DetachKeeps(s, addr, ok);
    case DestroyCall(key, fails, rm) =>
      FoundIsEntry(s.cells, key);
      if key in Contents(s.cells) {
        DestroyExact(s, key, fails, rm);
      }
  }

  /** A connect outside the stricter rule loses an address: the new one, or one after a stale tail. */
  lemma ConnectLoses(s: ShmState, key: Int32, size: int, reply: ConnectReply) returns (addr: int)
    requires Agrees(s) && ConnectRule(s, key, size, reply) && !ConnectExactRule(s, key, size, reply)
    ensures Unlisted(Connect(s, key, size, reply).0, addr)
  {
    var t := Connect(s, key, size, reply).0;
    ConnectKeeps(s, key, size, reply);
    FoundIsEntry(s.cells, key);
    var seg := Target(s.cells, key, size, reply.shmId);
    if Found(s.cells, key).None? && !reply.lockOk {
      addr := reply.addr;
      forall k | k in Contents(s.cells) ensures addr !in Contents(s.cells)[k].list.items {
        assert SegmentOk(k, Contents(s.cells)[k], s.attached);
      }
    } else {
      addr := seg.list.items[|seg.list.items| - 1];
      assert SegmentOk(key, seg, s.attached);
      InsertRefinesMap(s.cells, key, seg.(list := L.Push(seg.list, reply.addr)));
      forall k | k in Contents(t.cells) ensures addr !in Contents(t.cells)[k].list.items {
        assert k != key ==> SegmentOk(k, Contents(s.cells)[k], s.attached);
      }
    }
    NotInAnyList(t, addr);
  }

  /** So does a destroy that drops the list of an address whose shmdt failed. */
  lemma CallLoses(s: ShmState, call: Call) returns (addr: int)
    requires Agrees(s) && Defined(s, call) && Rule(s, call) && !ExactRule(s, call)
    ensures Unlisted(Apply(s, call), addr)
  {
    CallKeeps(s, call);
    match call
    case ConnectCall(key, size, reply) => addr := ConnectLoses(s, key, size, reply);
    case DestroyCall(key, fails, rm) =>
      FoundIsEntry(s.cells, key);
      var m := Contents(s.cells);
      addr :| addr in m[key].list.items && addr in fails;
      DestroyExact(s, key, fails, rm);
      forall k | k in m - {key} ensures addr !in m[k].list.items {
        assert SegmentOk(k, m[k], s.attached) && SegmentOk(key, m[key], s.attached);
      }
      NotInAnyList(Apply(s, call), addr);
  }

  /** Bookkeeping agrees with the kernel over every run: whatever shmdt and semget answer, what is
      listed is attached, once, under its own key; and after the run what is listed is exactly what is
      attached, and every size a length, if and only if every call of it kept the stricter rule. */
  lemma {:induction false} RunAgrees(s: ShmState, calls: seq<Call>)
    requires ListedAreAttached(s) && RunDefined(s, calls) && RunRules(s, calls)
    ensures ListedAreAttached(RunCalls(s, calls))
    ensures Agrees(s) ==> (Agrees(RunCalls(s, calls)) <==> RunExactRules(s, calls))
    decreases |calls|
  {
    if calls != [] {
      var t := Apply(s, calls[0]);
      CallKeeps(s, calls[0]);
      RunAgrees(t, calls[1..]);
      if Agrees(s) && !ExactRule(s, calls[0]) {
        var addr := CallLoses(s, calls[0]);
        RunKeepsUnlisted(t, addr, calls[1..]);
        UnlistedDisagrees(RunCalls(t, calls[1..]), addr);
      }
    }
  }

  lemma StartAgrees()
    ensures Agrees(ShmState(seq(MAX_SEGMENTS, i => None), map[], false))
  {
    var c: Cells<Segment> := seq(MAX_SEGMENTS, i => None);
    assert Contents(c) == map[] by {
      ContentsAre(c, map[]);
    }
  }

  lemma PutBack(m: map<Int32, Segment>, attached: map<int, Int32>, key: Int32, seg: Segment,
                list: L.ListState<int>, addr: int)
    requires addr !in attached
    ensures WithList(m[key := seg.(list := list)], key, seg.list) == m[key := seg]
    ensures key in m && m[key] == seg ==> m[key := seg] == m
    ensures attached[addr := key] - {addr} == attached
  {
  }

  lemma ConnectedMap(s: ShmState, key: Int32, size: int, reply: ConnectReply)
    requires ListedAreAttached(s) && ConnectRule(s, key, size, reply)
    requires reply.Attached? && (Found(s.cells, key).Some? || reply.lockOk)
    ensures var s1 := Connect(s, key, size, reply).0;
            var seg := Target(s.cells, key, size, reply.shmId);
            && ListedAreAttached(s1) && reply.addr !in seg.list.items
            && s1.attached == s.attached[reply.addr := key]
            && Contents(s1.cells) == Contents(s.cells)[key := seg.(list := L.Push(seg.list, reply.addr))]
  {
    var seg := Target(s.cells, key, size, reply.shmId);
    FoundIsEntry(s.cells, key);
    assert SegmentOk(key, seg, s.attached);
    ConnectKeeps(s, key, size, reply);
    InsertRefinesMap(s.cells, key, seg.(list := L.Push(seg.list, reply.addr)));
  }

  lemma PushThenRemove(l: L.ListState<int>, a: int)
    requires L.TailIsLast(l) && a !in l.items
    ensures L.Remove(L.Push(l, a), a) == l && a in L.Push(l, a).items
  {
    L.PushAppendsIff(l, a);
    L.IndexAfterPrefix(l.items, a, []);
    assert l.items + [a] + [] == L.Push(l, a).items;
    assert L.Push(l, a).items[..|l.items|] == l.items;
  }

  /** A connect followed by a detach of the address it returned puts everything back: the segment's
      list with its size and tail, every other segment, and the kernel; the key stays findable (a
      first connect leaves behind its node with an empty list). */
  lemma ConnectDetachRoundTrip(s: ShmState, key: Int32, size: int, reply: ConnectReply)
    requires ListedAreAttached(s) && ConnectRule(s, key, size, reply)
    requires reply.Attached? && (Found(s.cells, key).Some? || reply.lockOk)
    requires L.TailIsLast(Target(s.cells, key, size, reply.shmId).list)
    ensures var s1 := Connect(s, key, size, reply).0;
            var (s2, ok) := Detach(s1, reply.addr, true);
            && ok && s2.attached == s.attached && UniqueKeys(s2.cells)
            && Contents(s2.cells) == Contents(s.cells)[key := Target(s.cells, key, size, reply.shmId)]
            && (key in Contents(s.cells) ==> Contents(s2.cells) == Contents(s.cells))
            && Found(s2.cells, key) == Some(Target(s.cells, key, size, reply.shmId))
  {
    var m, seg := Contents(s.cells), Target(s.cells, key, size, reply.shmId);
    var s1 := Connect(s, key, size, reply).0;
    FoundIsEntry(s.cells, key);
    ConnectedMap(s, key, size, reply);
    PushThenRemove(seg.list, reply.addr);
    DetachExact(s1, key, reply.addr);
    var s2 := Detach(s1, reply.addr, true).0;
    PutBack(m, s.attached, key, seg, L.Push(seg.list, reply.addr), reply.addr);
    FoundIsEntry(s2.cells, key);
  }

  /** The address is attached under key -1 and lost. */
  predicate Stuck(s: ShmState, addr: int) {
    Unlisted(s, addr) && s.attached[addr] == -1
  }

  lemma ConnectedIsStuck(s: ShmState, size: int, reply: ConnectReply)
    requires ListedAreAttached(s) && ConnectDefined(s, -1, size, reply)
    requires reply.Attached? && reply.addr !in s.attached && reply.lockOk
    ensures Connect(s, -1, size, reply).1 == Some(reply.addr) && Stuck(Connect(s, -1, size, reply).0, reply.addr)
  {
    var s1, p := Connect(s, -1, size, reply).0, Probe(s.cells, -1).value;
    FoundIsEntry(s.cells, -1);
    forall k | k in Contents(s.cells) ensures k != -1 && reply.addr !in Contents(s.cells)[k].list.items {
      assert SegmentOk(k, Contents(s.cells)[k], s.attached);
    }
    assert forall i: nat :: i < |s.cells| && s.cells[i].Some? ==> StoredAt(s.cells, i, s.cells[i].value.key);
    assert s1.cells == s.cells[p := s1.cells[p]];
  }

  /** The key must not be -1, which reads as "not found": over every run of further calls, detaches
      and destroys included, an address connected under it stays attached, and no detach of it
      succeeds. */
  lemma KeyMinusOneNeverDetaches(s: ShmState, size: int, reply: ConnectReply, calls: seq<Call>)
    requires ListedAreAttached(s) && ConnectDefined(s, -1, size, reply)
    requires reply.Attached? && reply.addr !in s.attached && reply.lockOk
    requires RunDefined(Connect(s, -1, size, reply).0, calls)
    ensures Connect(s, -1, size, reply).1 == Some(reply.addr)
    ensures var t := RunCalls(Connect(s, -1, size, reply).0, calls);
            Stuck(t, reply.addr) && Detach(t, reply.addr, true) == (t, false)
  {
    ConnectedIsStuck(s, size, reply);
    RunKeepsUnlisted(Connect(s, -1, size, reply).0, reply.addr, calls);
    UnlistedIsNotFound(RunCalls(Connect(s, -1, size, reply).0, calls), reply.addr, true);
  }

  /** The `tail` must be last: from a stale one the round trip loses the addresses after it. */
  lemma StaleTailLosesAddresses(s: ShmState, key: Int32, size: int, reply: ConnectReply)
    requires ListedAreAttached(s) && ConnectRule(s, key, size, reply)
    requires reply.Attached? && (Found(s.cells, key).Some? || reply.lockOk)
    requires !L.TailIsLast(Target(s.cells, key, size, reply.shmId).list)
    ensures var s2 := Detach(Connect(s, key, size, reply).0, reply.addr, true).0;
            && Found(s2.cells, key).Some?
            && |Found(s2.cells, key).value.list.items| < |Target(s.cells, key, size, reply.shmId).list.items|
  {
    var s1 := Connect(s, key, size, reply).0;
    var seg := Target(s.cells, key, size, reply.shmId);
    ConnectedMap(s, key, size, reply);
    DetachExact(s1, key, reply.addr);
    FoundIsEntry(Detach(s1, reply.addr, true).0.cells, key);
    L.PushAppendsIff(seg.list, reply.addr);
    L.RemoveTail(L.Push(seg.list, reply.addr), reply.addr);
  }
}
