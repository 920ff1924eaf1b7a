/**
 shared_mem.c on its real structures: a hash table of segment nodes, each owning a linked list of
 attachments. Every entry point is proved to do to the heap what the function of the same name in
 `SharedMemory` does to its value.
 */
module ShmLibrary {
  import opened Options
  import opened HashTable
  import opened SharedMemory
  import L = LinkedList

  class SegmentNode {
    const key: Int32
    const shmId: int
    const size: int
    const attachments: L.List<int>

    constructor (key: Int32, shmId: int, size: int)
      ensures this.key == key && this.shmId == shmId && this.size == size
      ensures fresh(attachments) && attachments.Valid() && attachments.spine == []
      ensures attachments.State() == L.ListState([], -1, 0)
    {
      this.key, this.shmId, this.size := key, shmId, size;
      attachments := new L.List();
    }

    ghost function View(): Segment
      reads attachments
    {
      Segment(key, shmId, size, attachments.State())
    }
  }

  ghost predicate SameSegment(node: SegmentNode, seg: Segment, list: L.List?<int>) {
    list == node.attachments && seg.key == node.key && seg.shmId == node.shmId && seg.size == node.size
  }

  /** The table of segment nodes, its value, and the list objects of its cells belong together. */
  ghost predicate CellsValid(table: Cells<SegmentNode>, view: Cells<Segment>, lists: seq<L.List?<int>>) {
    && SameKeys(table, view) && |lists| == |view|
    && forall i: nat :: i < |view| && view[i].Some? ==> SameSegment(table[i].value.value, view[i].value.value, lists[i])
  }

  lemma InsertCells(table: Cells<SegmentNode>, view: Cells<Segment>, lists: seq<L.List?<int>>,
                    key: Int32, node: SegmentNode, seg: Segment)
    requires 0 < |view| && CellsValid(table, view, lists) && Probe(view, key).Some?
    requires SameSegment(node, seg, node.attachments)
    ensures Probe(table, key) == Probe(view, key)
    ensures CellsValid(Insert(table, key, node), Insert(view, key, seg),
                       lists[Probe(view, key).value := node.attachments])
  {
    ProbeSameKeys(view, table, key, 0);
  }

  lemma DeleteCells(table: Cells<SegmentNode>, view: Cells<Segment>, lists: seq<L.List?<int>>, key: Int32)
    requires 0 < |view| && CellsValid(table, view, lists) && Probe(view, key).Some?
    ensures Probe(table, key) == Probe(view, key)
    ensures CellsValid(Delete(table, key), Delete(view, key), lists[Probe(view, key).value := null])
  {
    ProbeSameKeys(view, table, key, 0);
  }

  function ReplaceList(view: Cells<Segment>, p: nat, list: L.ListState<int>): Cells<Segment>
    requires p < |view| && view[p].Some?
  {
    view[p := Some(view[p].value.(value := view[p].value.value.(list := list)))]
  }

  lemma ReplaceCells(table: Cells<SegmentNode>, view: Cells<Segment>, lists: seq<L.List?<int>>,
                     p: nat, list: L.ListState<int>)
    requires p < |view| && view[p].Some? && CellsValid(table, view, lists)
    ensures CellsValid(table, ReplaceList(view, p, list), lists)
  {
  }

  /** Overwriting the segment of a stored key only changes its cell. */
  lemma InsertIsReplace(c: Cells<Segment>, key: Int32, seg: Segment, list: L.ListState<int>)
    requires 0 < |c| && Probe(c, key).Some?
    ensures var p := Probe(c, key).value;
            && Insert(c, key, seg)[p].Some?
            && Insert(c, key, seg.(list := list)) == ReplaceList(Insert(c, key, seg), p, list)
    ensures Found(c, key) == Some(seg) ==> Insert(c, key, seg) == c
  {
  }

  class ShmLib {
    /** SegmentNodes: NULL until the first connect. */
    var nodes: Hash?<SegmentNode>
    /** What the kernel has attached, and the table as a value. */
    ghost var attached: map<int, Int32>
    ghost var view: Cells<Segment>
    /** The attachment list of each occupied cell, and all objects in use. */
    ghost var lists: seq<L.List?<int>>
    ghost var Repr: set<object>

    static ghost predicate NodesIn(l: L.List<int>, repr: set<object>)
      reads l
    {
      forall n :: n in l.spine ==> n in repr
    }

    static ghost predicate Sound(nodes: Hash?<SegmentNode>, view: Cells<Segment>, lists: seq<L.List?<int>>,
                                 repr: set<object>)
      reads repr
    {
      && |view| == |lists| == MAX_SEGMENTS
      && (nodes == null ==> view == seq(MAX_SEGMENTS, i => None))
      && (nodes != null ==> nodes in repr && nodes.cells in repr && CellsValid(nodes.Table(), view, lists))
      && (forall i: nat :: i < |lists| ==> (lists[i] != null <==> view[i].Some?))
      && (forall i: nat :: i < |lists| && lists[i] != null ==>
            && lists[i] in repr && NodesIn(lists[i], repr)
            && lists[i].Valid() && lists[i].State() == view[i].value.value.list)
      && (forall i: nat, j: nat :: i < j < |lists| && lists[i] != null ==> lists[i] != lists[j])
    }

    ghost predicate Valid()
      reads this, Repr
    {
      this !in Repr && Sound(nodes, view, lists, Repr)
    }

    ghost function State(): ShmState
      reads this
    {
      ShmState(view, attached, nodes != null)
    }

    constructor ()
      ensures Valid() && fresh(Repr) && State() == ShmState(seq(MAX_SEGMENTS, i => None), map[], false)
    {
      nodes := null;
      view, attached := seq(MAX_SEGMENTS, i => None), map[];
      lists := seq(MAX_SEGMENTS, i => null);
      Repr := {};
    }

    /** Changing the objects of one list leaves every other list valid and as it was. */
    twostate lemma OthersUntouched(list: L.List<int>)
      requires old(Valid()) && lists == old(lists) && old(Repr) <= Repr
      requires forall o :: o in old(Repr) && o != list && o !in old(list.spine) ==> unchanged(o)
      requires forall n :: n in old(list.spine) ==> n.owner == list
      ensures forall i: nat :: i < |lists| && lists[i] != null && lists[i] != list ==>
                lists[i].Valid() && NodesIn(lists[i], Repr) && lists[i].State() == old(view)[i].value.value.list
    {
      forall i: nat | i < |lists| && lists[i] != null && lists[i] != list
        ensures lists[i].Valid() && NodesIn(lists[i], Repr) && lists[i].State() == old(view)[i].value.value.list
      {
        var l := lists[i];
        assert old(l.Valid() && NodesIn(l, Repr) && l.State() == view[i].value.value.list);
        assert forall n :: n in old(l.spine) ==> n.owner == l;
        assert forall n :: n in old(l.spine) ==> unchanged(n);
        l.Untouched();
      }
    }

    /** Changing the objects of one list, and its state in the view, keeps the whole valid. */
    twostate lemma Reassemble(q: nat, new list: L.List<int>)
      requires old(Valid()) && q < |lists| && list == lists[q]
      requires nodes == old(nodes) && lists == old(lists) && old(Repr) <= Repr && this !in Repr
      requires forall o :: o in old(Repr) && o != list && o !in old(list.spine) ==> unchanged(o)
      requires forall n :: n in old(list.spine) ==> n.owner == list
      requires list.Valid() && NodesIn(list, Repr) && view == ReplaceList(old(view), q, list.State())
      ensures Valid()
    {
      OthersUntouched(list);
      if nodes != null {
        assert nodes.Table() == old(nodes.Table());
        ReplaceCells(nodes.Table(), old(view), lists, q, list.State());
      }
    }

    /** Pushes to the list of the segment in cell `p`. */
    method PushTo(ghost p: nat, list: L.List<int>, addr: int)
      requires Valid() && p < |lists| && list == lists[p] && L.CanPush(list.State())
      modifies this`view, this`Repr, list, list.spine
      ensures Valid() && fresh(Repr - old(Repr)) && old(Repr) <= Repr
      ensures view == ReplaceList(old(view), p, L.Push(old(view)[p].value.value.list, addr))
    {
      list.Owns();
      list.PushItem(addr);
      view := ReplaceList(view, p, list.State());
      Repr := Repr + set n | n in list.spine;
      Reassemble(p, list);
    }

    static ghost function SpineWithout(before: seq<L.ListNode<int>>, addr: int): seq<L.ListNode<int>> {
      var i := L.IndexOf(L.Values(before), addr);
      if i < |before| then before[..i] + before[i + 1..] else before
    }

    /** `after` is `before`, possibly without the first node that holds `addr`. */
    static ghost predicate SpineLess(before: seq<L.ListNode<int>>, after: seq<L.ListNode<int>>, addr: int) {
      after == before || after == SpineWithout(before, addr)
    }

    /** Removes from the list of the segment in cell `p`. */
    method RemoveFrom(ghost p: nat, list: L.List<int>, addr: int)
      requires Valid() && p < |lists| && list == lists[p]
      modifies this`view, list, list.spine
      ensures Valid()
      ensures view == ReplaceList(old(view), p, L.Remove(old(view)[p].value.value.list, addr))
      ensures SpineLess(old(list.spine), list.spine, addr)
    {
      list.Owns();
      var found := list.RemoveItem(addr);
      view := ReplaceList(view, p, list.State());
      Reassemble(p, list);
    }

    /** Enters a new segment, whose list is still empty. */
    method AddNode(key: Int32, node: SegmentNode)
      requires Valid() && nodes != null && Probe(view, key).Some? && view[Probe(view, key).value].None?
      requires node.attachments.Valid() && node.attachments.spine == []
      requires node.attachments !in Repr
      modifies this`view, this`Repr, this`lists, nodes.cells
      ensures Valid() && Repr == old(Repr) + {node.attachments}
      ensures view == Insert(old(view), key, node.View())
      ensures lists == old(lists)[Probe(old(view), key).value := node.attachments]
    {
      ghost var p := Probe(view, key).value;
      InsertCells(nodes.Table(), view, lists, key, node, node.View());
      nodes.Put(key, node);
      view := Insert(view, key, node.View());
      lists := lists[p := node.attachments];
      Repr := Repr + {node.attachments};
    }

    method NewTable()
      requires Valid()
      modifies this`nodes, this`Repr
      ensures Valid() && nodes != null && fresh(Repr - old(Repr)) && old(Repr) <= Repr
    {
      if nodes == null {
        nodes := new Hash(MAX_SEGMENTS);
        Repr := Repr + {nodes, nodes.cells};
      }
    }

    /** The list of the key's node, which is entered first if need be; NULL if its lock cannot be made. */
    method FindOrAdd(key: Int32, size: int, shmId: int, lockOk: bool) returns (list: L.List?<int>)
      requires Valid() && nodes != null && Probe(view, key).Some?
      modifies this`view, this`Repr, this`lists, nodes.cells
      ensures Valid() && fresh(Repr - old(Repr)) && old(Repr) <= Repr
      ensures list == null <==> Found(old(view), key).None? && !lockOk
      ensures list == null ==> view == old(view)
      ensures list != null ==>
                && list == lists[Probe(old(view), key).value]
                && view == Insert(old(view), key, Target(old(view), key, size, shmId))
    {
      ghost var p := Probe(view, key).value;
      ProbeSameKeys(view, nodes.Table(), key, 0);
      var item := nodes.Get(key);
      if item.Some? {
        assert view[p := view[p]] == view;
        return item.value.value.attachments;
      }
      var node := new SegmentNode(key, shmId, size);
      if !lockOk {
        return null;
      }
      AddNode(key, node);
      list := node.attachments;
    }

    /** Lists a new attachment under its key. */
    method Enter(key: Int32, size: int, shmId: int, addr: int, lockOk: bool) returns (ok: bool)
      requires Valid() && nodes != null && Probe(view, key).Some?
      requires L.TailInList(Target(view, key, size, shmId).list) && L.CanPush(Target(view, key, size, shmId).list)
      modifies this`view, this`Repr, this`lists, Repr
      ensures Valid() && fresh(Repr - old(Repr))
      ensures ok <==> Found(old(view), key).Some? || lockOk
      ensures var seg := Target(old(view), key, size, shmId);
              view == if ok then Insert(old(view), key, seg.(list := L.Push(seg.list, addr))) else old(view)
    {
      ghost var seg := Target(view, key, size, shmId);
      InsertIsReplace(view, key, seg, L.Push(seg.list, addr));
      ghost var p := Probe(view, key).value;
      var list := FindOrAdd(key, size, shmId, lockOk);
      ok := list != null;
      if ok {
        PushTo(p, list, addr);
      }
    }

    ghost method SetAttached(now: map<int, Int32>)
      requires Valid()
      modifies this`attached
      ensures Valid() && attached == now
    {
      attached := now;
    }

    /** connect_shm. */
    method ConnectShm(key: Int32, size: int, reply: ConnectReply) returns (r: Option<int>)
      requires Valid() && ConnectDefined(State(), key, size, reply)
      modifies this, Repr
      ensures Valid() && fresh(Repr - old(Repr)) && nodes != null
      ensures (State(), r) == Connect(old(State()), key, size, reply)
    {
      NewTable();
      if !reply.Attached? {
        return None;
      }
      SetAttached(attached[reply.addr := key]);
      var ok := Enter(key, size, reply.shmId, reply.addr, reply.lockOk);
      r := if ok then Some(reply.addr) else None;
    }

    method IsListed(list: L.List<int>, addr: int) returns (listed: bool)
      requires list.Valid()
      ensures listed <==> addr in list.State().items
    {
      var item := list.head;
      ghost var k := 0;
      while item != null
        invariant 0 <= k <= |list.spine|
        invariant item == if k < |list.spine| then list.spine[k] else null
        invariant addr !in list.State().items[..k]
        decreases |list.spine| - k
      {
        if item.value == addr {
          assert list.State().items[k] == addr;
          return true;
        }
        assert list.State().items[..k + 1] == list.State().items[..k] + [item.value];
        item, k := item.next, k + 1;
      }
      assert list.State().items[..k] == list.State().items;
      listed := false;
    }

    /** find_key_for_address. */
    method FindKeyForAddress(addr: int) returns (key: Int32)
      requires Valid() && nodes != null
      ensures key == FindKey(view, addr)
    {
      var i: nat := 0;
      while i < nodes.cells.Length
        invariant i <= |view| && FindCell(view, addr, i) == FindCell(view, addr, 0)
      {
        if nodes.cells[i].Some? {
          var segment := nodes.cells[i].value.value;
          var listed := IsListed(segment.attachments, addr);
          if listed {
            return segment.key;
          }
        }
        i := i + 1;
      }
      key := -1;
    }

    /** Unlists an address of a known key. */
    method Unlist(key: Int32, addr: int)
      requires Valid() && nodes != null && Probe(view, key).Some?
      modifies this`view, Repr
      ensures Valid()
      ensures view == match Found(old(view), key)
                      case Some(seg) => Insert(old(view), key, seg.(list := L.Remove(seg.list, addr)))
                      case None => old(view)
      ensures Found(old(view), key).Some? ==>
                var l := lists[Probe(old(view), key).value];
                l != null && SpineLess(old(l.spine), l.spine, addr)
    {
      ProbeSameKeys(view, nodes.Table(), key, 0);
      var item := nodes.Get(key);
      if item.Some? {
        ghost var p := Probe(view, key).value;
        ghost var seg := view[p].value.value;
        InsertIsReplace(view, key, seg, L.Remove(seg.list, addr));
        RemoveFrom(p, item.value.value.attachments, addr);
      }
    }

    /** detach_shm. */
    method DetachShm(addr: int, shmdtOk: bool) returns (ok: bool)
      requires Valid() && nodes != null
      requires FindKey(view, addr) != -1 && shmdtOk ==> Probe(view, FindKey(view, addr)).Some?
      modifies this`view, this`attached, Repr
      ensures Valid() && (State(), ok) == Detach(old(State()), addr, shmdtOk)
      ensures !ok ==> unchanged(this, Repr)
      ensures ok && Found(old(view), FindKey(old(view), addr)).Some? ==>
                var l := lists[Probe(old(view), FindKey(old(view), addr)).value];
                l != null && SpineLess(old(l.spine), l.spine, addr)
    {
      var key := FindKeyForAddress(addr);
      if key == -1 || !shmdtOk {
        return false;
      }
      SetAttached(attached - {addr});
      Unlist(key, addr);
      ok := true;
    }

    /** delete_hash_item on the segment table. */
    method DropEntry(key: Int32)
      requires Valid() && nodes != null && Probe(view, key).Some?
      modifies this`view, this`lists, nodes.cells
      ensures Valid() && view == Delete(old(view), key)
    {
      ghost var p := Probe(view, key).value;
      DeleteCells(nodes.Table(), view, lists, key);
      var found := nodes.Remove(key);
      view := Delete(view, key);
      lists := lists[p := null];
    }

    /** Cell `p` holds the node of `key`. */
    static ghost predicate HoldsAt(view: Cells<Segment>, key: Int32, p: nat) {
      && 0 < |view| && Probe(view, key) == Some(p) && p < |view| && view[p].Some?
    }

    static lemma DetachShmed(s: ShmState, key: Int32, p: nat, front: seq<int>, a: int, rest: seq<int>, ok: bool)
      requires ListedAreAttached(s) && HoldsAt(s.cells, key, p)
      requires s.cells[p].value.value.list.items == front + [a] + rest
      ensures var t := Detach(s, a, ok).0;
              && ListedAreAttached(t) && HoldsAt(t.cells, key, p)
              && t.cells[p].value.value.list.items == if ok then front + rest else front + [a] + rest
      ensures L.Distinct(front + [a] + rest) && FindKey(s.cells, a) == key
    {
      var list := s.cells[p].value.value.list;
      assert StoredAt(s.cells, p, key);
      assert SegmentOk(key, s.cells[p].value.value, s.attached);
      assert list.items[|front|] == a;
      FoundIsEntry(s.cells, key);
      FindKeyExact(s, a);
      if ok {
        DetachExact(s, key, a);
        L.RemoveStep(list, front, a, rest);
        var t := Detach(s, a, ok).0;
        ProbeSameKeys(s.cells, t.cells, key, 0);
        assert StoredAt(t.cells, p, key);
      }
    }

    static lemma SpineAfter(before: seq<L.ListNode<int>>, after: seq<L.ListNode<int>>,
                            front: seq<int>, a: int, rest: seq<int>)
      requires L.Values(before) == front + [a] + rest && L.Distinct(front + [a] + rest)
      requires SpineLess(before, after, a)
      ensures |after| == |before| ==> after == before
      ensures |after| < |before| ==> after == before[..|front|] + before[|front| + 1..]
    {
      assert a !in front by {
        assert (front + [a] + rest)[|front|] == a;
        assert forall i :: 0 <= i < |front| ==> (front + [a] + rest)[i] == front[i];
      }
      L.IndexAfterPrefix(front, a, rest);
    }

    /** One round of the destroy walk: the saved `next` is where the walk goes on, although the
        callee may have unlinked `item`. */
    method DetachVisited(ghost p: nat, list: L.List<int>, ghost key: Int32, ghost front: seq<int>, ghost rest: seq<int>,
                         item: L.ListNode<int>, fails: set<int>)
      returns (next: L.ListNode?<int>, ghost front': seq<int>)
      requires Valid() && nodes != null && ListedAreAttached(State())
      requires HoldsAt(view, key, p) && list == lists[p]
      requires list.State().items == front + [item.value] + rest
      requires item == list.spine[|front|]
      modifies this`view, this`attached, Repr
      ensures Valid() && ListedAreAttached(State())
      ensures State() == Detach(old(State()), item.value, item.value !in fails).0
      ensures HoldsAt(view, key, p)
      ensures list.State().items == front' + rest
      ensures next == if |front'| < |list.spine| then list.spine[|front'|] else null
    {
      next := item.next;
      ghost var was, spine := State(), list.spine;
      assert next == if |front| + 1 < |spine| then spine[|front| + 1] else null;
      DetachShmed(was, key, p, front, item.value, rest, item.value !in fails);
      var ok := DetachShm(item.value, item.value !in fails);
      front' := if item.value in fails then front + [item.value] else front;
      SpineAfter(spine, list.spine, front, item.value, rest);
    }

    static lemma SplitHead(front: seq<int>, pending: seq<int>)
      requires pending != []
      ensures front + pending == front + [pending[0]] + pending[1..]
      ensures (front + pending)[|front|] == pending[0]
    {
    }

    /** The loop of destroy_shm. `tried` records the shmdt calls in order. */
    method DetachAll(ghost p: nat, list: L.List<int>, ghost key: Int32, fails: set<int>) returns (tried: seq<int>)
      requires Valid() && nodes != null && ListedAreAttached(State())
      requires HoldsAt(view, key, p) && list == lists[p]
      modifies this`view, this`attached, Repr
      ensures Valid() && tried == old(list.State()).items
      ensures State() == Walk(old(State()), tried, fails)
      ensures HoldsAt(view, key, p)
    {
      tried := [];
      var item := list.head;
      ghost var all := list.State().items;
      ghost var front: seq<int>, pending := [], all;
      while item != null
        invariant Valid() && ListedAreAttached(State()) && HoldsAt(view, key, p)
        invariant list.State().items == front + pending
        invariant item == if |front| < |list.spine| then list.spine[|front|] else null
        invariant tried + pending == all
        invariant Walk(State(), pending, fails) == Walk(old(State()), all, fails)
        decreases |pending|
      {
        ghost var rest := pending[1..];
        SplitHead(front, pending);
        SplitHead(tried, pending);
        tried := tried + [item.value];
        item, front := DetachVisited(p, list, key, front, rest, item, fails);
        pending := rest;
      }
    }

    /** destroy_shm. */
    method DestroyShm(key: Int32, fails: set<int>, rm: Removal) returns (ok: bool, tried: seq<int>)
      requires Valid() && nodes != null && ListedAreAttached(State()) && Probe(view, key).Some?
      modifies this`view, this`attached, this`lists, Repr
      ensures Valid() && (State(), ok) == Destroy(old(State()), key, fails, rm)
      ensures tried == match Found(old(view), key)
                       case Some(seg) => seg.list.items
                       case None => []
    {
      ProbeSameKeys(view, nodes.Table(), key, 0);
      var item := nodes.Get(key);
      if item.None? {
        return false, [];
      }
      ghost var p := Probe(view, key).value;
      tried := DetachAll(p, item.value.value.attachments, key, fails);
      ok := rm.Removed?;
      if !rm.Refused? {
        DropEntry(key);
      }
    }
  }
}
