/**
 The singly linked list of src/lib/store/list.c, whose removal sets `tail` to the predecessor of
 the removed node even when that node was not last.

 `ListState` is the list as a value: the items met from `head` on, where `tail` points among them
 (-1 for NULL), and the `size` field. `Push` and `Remove` are what the two updating operations do
 to it. The class `List` at the end is the real pointer structure, proved against them.
 */
module LinkedList {
  import opened Options

  datatype ListState<T> = ListState(items: seq<T>, tail: int, size: int)

  predicate TailInList<T>(s: ListState<T>) {
    -1 <= s.tail < |s.items|
  }

  /** `tail` is the last node (NULL for the empty list). */
  predicate TailIsLast<T>(s: ListState<T>) {
    s.tail == |s.items| - 1
  }

  predicate SizeIsLength<T>(s: ListState<T>) {
    s.size == |s.items|
  }

  /** push_list_item writes through `tail` of a list that has a head; a NULL there is fatal. */
  predicate CanPush<T>(s: ListState<T>) {
    s.items == [] || 0 <= s.tail
  }

  /** The new node follows `tail`, so whatever came after `tail` is cut off. */
  function Push<T>(s: ListState<T>, v: T): ListState<T>
    requires TailInList(s) && CanPush(s)
  {
    if s.items == [] then ListState([v], 0, s.size + 1)
    else ListState(s.items[..s.tail + 1] + [v], s.tail + 1, s.size + 1)
  }

  /** Position of the first match, or the length when there is none. */
  function IndexOf<T(==)>(items: seq<T>, v: T): (i: nat)
    ensures i <= |items|
    ensures v !in items[..i]
    ensures i < |items| ==> items[i] == v
    ensures i < |items| <==> v in items
  {
    if items == [] || items[0] == v then 0
    else
      var i := IndexOf(items[1..], v) + 1;
      assert items[..i] == [items[0]] + items[1..][..i - 1];
      i
  }

  function Without<T(==)>(items: seq<T>, v: T): seq<T> {
    var i := IndexOf(items, v);
    if i == |items| then items else items[..i] + items[i + 1..]
  }

  function Remove<T(==)>(s: ListState<T>, v: T): ListState<T> {
    var i := IndexOf(s.items, v);
    if i == |s.items| then s
    else ListState(s.items[..i] + s.items[i + 1..], i - 1, s.size - 1)
  }

  /** After a successful removal `tail` is right exactly when the removed node was last, and the
      next push faults exactly when the first of several nodes was removed; a miss leaves the list
      alone; and the traversal and the size always show the removal. */
  lemma RemoveTail<T>(s: ListState<T>, v: T)
    requires TailInList(s)
    ensures TailInList(Remove(s, v))
    ensures Remove(s, v).items == Without(s.items, v)
    ensures v in s.items ==> (TailIsLast(Remove(s, v)) <==> IndexOf(s.items, v) == |s.items| - 1)
    ensures v in s.items ==> (CanPush(Remove(s, v)) <==> s.items[0] != v || |s.items| == 1)
    ensures v !in s.items ==> Remove(s, v) == s
    ensures Remove(s, v).size - |Remove(s, v).items| == s.size - |s.items|
  {
  }

  /** A push appends exactly when `tail` is last, and otherwise leaves `size` too large for good. */
  lemma PushAppendsIff<T>(s: ListState<T>, v: T)
    requires TailInList(s) && CanPush(s)
    ensures TailIsLast(Push(s, v)) && TailInList(Push(s, v))
    ensures Push(s, v).items == s.items + [v] <==> TailIsLast(s)
    ensures TailIsLast(s) ==> Push(s, v).size - |Push(s, v).items| == s.size - |s.items|
    ensures !TailIsLast(s) ==> Push(s, v).size - |Push(s, v).items| > s.size - |s.items|
  {
    if TailIsLast(s) {
      assert s.items[..s.tail + 1] == s.items;
    } else {
      assert |Push(s, v).items| < |s.items + [v]|;
    }
  }

  /** What a push keeps: the nodes up to `tail`, in order, with the new one after them. */
  lemma PushKeepsToTail<T>(s: ListState<T>, v: T)
    requires TailInList(s) && CanPush(s)
    ensures |Push(s, v).items| == s.tail + 2 && Push(s, v).items[s.tail + 1] == v && Push(s, v).size == s.size + 1
    ensures forall i :: 0 <= i <= s.tail ==> Push(s, v).items[i] == s.items[i]
  {
  }

  /** A push after a removal goes where the removed node was: the nodes after that are lost, and with
      the first of several removed there is no `tail` to push at. */
  lemma PushAfterRemove<T>(s: ListState<T>, v: T, w: T)
    requires TailInList(s) && v in s.items
    ensures CanPush(Remove(s, v)) <==> s.items[0] != v || |s.items| == 1
    ensures CanPush(Remove(s, v)) ==>
              exists i :: 0 <= i < |s.items| && s.items[i] == v && v !in s.items[..i]
                && Push(Remove(s, v), w).items == s.items[..i] + [w]
  {
    var i := IndexOf(s.items, v);
    if CanPush(Remove(s, v)) {
      assert Push(Remove(s, v), w).items == s.items[..i] + [w];
    }
  }

  // ------------------------------------------------------------------- runs

  datatype Op<T> = PushOp(v: T) | RemoveOp(v: T)

  /** A run of the list; None once a push dereferences a NULL tail. */
  function Run<T(==)>(s: ListState<T>, ops: seq<Op<T>>): (r: Option<ListState<T>>)
    requires TailInList(s)
    ensures r.Some? ==> TailInList(r.value)
    decreases |ops|
  {
    if ops == [] then Some(s)
    else match ops[0]
      case PushOp(v) => if CanPush(s) then Run(Push(s, v), ops[1..]) else None
      case RemoveOp(v) => Run(Remove(s, v), ops[1..])
  }

  /** The same run on an ordinary sequence. */
  function IdealRun<T(==)>(items: seq<T>, ops: seq<Op<T>>): seq<T>
    decreases |ops|
  {
    if ops == [] then items
    else match ops[0]
      case PushOp(v) => IdealRun(items + [v], ops[1..])
      case RemoveOp(v) => IdealRun(Without(items, v), ops[1..])
  }

  /** Every push of the run finds `tail` last (which an empty list always satisfies). */
  predicate EveryPushFindsTail<T(==)>(s: ListState<T>, ops: seq<Op<T>>)
    requires TailInList(s)
    decreases |ops|
  {
    ops == [] ||
    match ops[0]
    case PushOp(v) => TailIsLast(s) && EveryPushFindsTail(Push(s, v), ops[1..])
    case RemoveOp(v) => EveryPushFindsTail(Remove(s, v), ops[1..])
  }

  /** The nodes lost to bad pushes, `size` less the length, never come back. */
  lemma {:induction false} LossIsPermanent<T>(s: ListState<T>, ops: seq<Op<T>>)
    requires TailInList(s) && Run(s, ops).Some?
    ensures var t := Run(s, ops).value; s.size - |s.items| <= t.size - |t.items|
    decreases |ops|
  {
    if ops != [] {
      match ops[0]
      case PushOp(v) =>
        PushAppendsIff(s, v);
        LossIsPermanent(Push(s, v), ops[1..]);
      case RemoveOp(v) =>
        RemoveTail(s, v);
        LossIsPermanent(Remove(s, v), ops[1..]);
    }
  }

  /** A run from a sound list neither fails nor loses a node exactly when every push finds `tail`
      last, and such a run agrees with the run of the ordinary sequence. */
  lemma {:induction false} RunFaithfulIff<T>(s: ListState<T>, ops: seq<Op<T>>)
    requires TailInList(s) && SizeIsLength(s)
    ensures EveryPushFindsTail(s, ops) <==> Run(s, ops).Some? && SizeIsLength(Run(s, ops).value)
    ensures EveryPushFindsTail(s, ops) ==> Run(s, ops).value.items == IdealRun(s.items, ops)
    decreases |ops|
  {
    if ops != [] {
      match ops[0]
      case PushOp(v) =>
        if CanPush(s) {
          PushAppendsIff(s, v);
          if TailIsLast(s) {
            RunFaithfulIff(Push(s, v), ops[1..]);
          } else if Run(s, ops).Some? {
            LossIsPermanent(Push(s, v), ops[1..]);
          }
        }
      case RemoveOp(v) =>
        RemoveTail(s, v);
        RunFaithfulIff(Remove(s, v), ops[1..]);
    }
  }

  // --------------------------------------------- unlinking during traversal

  /** Removing, in order, those of `pending` that `keep` does not name. */
  function RemoveEach<T(==)>(s: ListState<T>, pending: seq<T>, keep: set<T>): ListState<T>
    decreases |pending|
  {
    if pending == [] then s
    else RemoveEach(if pending[0] in keep then s else Remove(s, pending[0]), pending[1..], keep)
  }

  function Survivors<T(==)>(items: seq<T>, keep: set<T>): (r: seq<T>)
    ensures forall x :: x in r ==> x in items && x in keep
    ensures forall x :: x in items && x in keep ==> x in r
  {
    if items == [] then [] else (if items[0] in keep then [items[0]] else []) + Survivors(items[1..], keep)
  }

  ghost predicate Distinct<T>(items: seq<T>) {
    forall i, j :: 0 <= i < j < |items| ==> items[i] != items[j]
  }

  lemma {:induction false} IndexAfterPrefix<T>(front: seq<T>, v: T, back: seq<T>)
    requires v !in front
    ensures IndexOf(front + [v] + back, v) == |front|
  {
    if front != [] {
      assert (front + [v] + back)[1..] == front[1..] + [v] + back;
      IndexAfterPrefix(front[1..], v, back);
    }
  }

  lemma FirstMatch<T>(items: seq<T>, v: T, i: nat)
    requires i < |items| && items[i] == v && v !in items[..i]
    ensures IndexOf(items, v) == i
  {
    assert items == items[..i] + [v] + items[i + 1..];
    IndexAfterPrefix(items[..i], v, items[i + 1..]);
  }

  lemma {:induction false} SurvivorsDistinct<T>(items: seq<T>, keep: set<T>)
    requires Distinct(items)
    ensures Distinct(Survivors(items, keep)) && |Survivors(items, keep)| <= |items|
    ensures Survivors(items, keep) == items <==> forall x :: x in items ==> x in keep
  {
    if items != [] {
      assert Distinct(items[1..]);
      SurvivorsDistinct(items[1..], keep);
      var r := Survivors(items[1..], keep);
      assert items[0] !in r;
      assert items == [items[0]] + items[1..];
      if items[0] !in keep {
        assert |Survivors(items, keep)| < |items|;
      }
    }
  }

  /** One removal in the middle of a walk over distinct items. */
  lemma RemoveStep<T>(s: ListState<T>, front: seq<T>, v: T, rest: seq<T>)
    requires s.items == front + [v] + rest && Distinct(s.items)
    ensures Remove(s, v) == ListState(front + rest, |front| - 1, s.size - 1)
    ensures Distinct(front + rest)
  {
    assert v !in front by {
      assert s.items[|front|] == v;
      assert forall i :: 0 <= i < |front| ==> s.items[i] == front[i];
    }
    IndexAfterPrefix(front, v, rest);
    assert s.items[..|front|] == front && s.items[|front| + 1..] == rest;
    assert forall i :: 0 <= i < |front + rest| ==> (front + rest)[i] == s.items[if i < |front| then i else i + 1];
  }

  /** Removing an item of a list of distinct items removes that item and nothing else. */
  lemma RemoveFromDistinct<T>(s: ListState<T>, v: T)
    requires Distinct(s.items)
    ensures Distinct(Remove(s, v).items)
    ensures forall x :: x in Remove(s, v).items <==> x in s.items && x != v
  {
    var i := IndexOf(s.items, v);
    if i < |s.items| {
      var front, rest := s.items[..i], s.items[i + 1..];
      assert s.items == front + [v] + rest;
      RemoveStep(s, front, v, rest);
      assert v == s.items[i] && v !in front;
      assert forall j :: 0 <= j < |rest| ==> rest[j] == s.items[i + 1 + j];
    }
  }

  lemma Regroup<T>(a: seq<T>, b: seq<T>, c: seq<T>)
    ensures a + (b + c) == (a + b) + c
  {
  }

  lemma SurvivorsStep<T>(front: seq<T>, pending: seq<T>, keep: set<T>)
    requires pending != []
    ensures front + pending == front + [pending[0]] + pending[1..]
    ensures pending[0] in keep ==>
              front + Survivors(pending, keep) == (front + [pending[0]]) + Survivors(pending[1..], keep)
    ensures pending[0] !in keep ==> Survivors(pending, keep) == Survivors(pending[1..], keep)
  {
    var v, rest := pending[0], pending[1..];
    assert pending == [v] + rest;
    Regroup(front, [v], rest);
    Regroup(front, [v], Survivors(rest, keep));
  }

  /** Walking a list of distinct items and removing some on the way leaves exactly the others, in
      order, with the right size. `front` is what earlier steps of the walk left behind. */
  lemma {:induction false} RemoveEachItems<T>(s: ListState<T>, front: seq<T>, pending: seq<T>, keep: set<T>)
    requires s.items == front + pending && Distinct(s.items) && TailInList(s) && SizeIsLength(s)
    ensures var r := RemoveEach(s, pending, keep);
            && r.items == front + Survivors(pending, keep)
            && TailInList(r) && SizeIsLength(r)
    decreases |pending|
  {
    if pending != [] {
      var v, rest := pending[0], pending[1..];
      SurvivorsStep(front, pending, keep);
      if v in keep {
        RemoveEachItems(s, front + [v], rest, keep);
      } else {
        RemoveStep(s, front, v, rest);
        RemoveEachItems(Remove(s, v), front, rest, keep);
      }
    }
  }

  /** Nothing removed: the list is untouched. Otherwise `tail` ends at the last node exactly when
      the last item was removed. */
  lemma {:induction false} RemoveEachTail<T>(s: ListState<T>, front: seq<T>, pending: seq<T>, keep: set<T>)
    requires s.items == front + pending && Distinct(s.items) && TailInList(s) && SizeIsLength(s)
    ensures (forall x :: x in pending ==> x in keep) ==> RemoveEach(s, pending, keep) == s
    ensures (exists x :: x in pending && x !in keep) ==>
              (TailIsLast(RemoveEach(s, pending, keep)) <==> pending[|pending| - 1] !in keep)
    decreases |pending|
  {
    if pending != [] {
      var v, rest := pending[0], pending[1..];
      SurvivorsStep(front, pending, keep);
      assert pending == [v] + rest;
      if v in keep {
        RemoveEachTail(s, front + [v], rest, keep);
      } else {
        RemoveStep(s, front, v, rest);
        RemoveEachTail(Remove(s, v), front, rest, keep);
      }
    }
  }

  /** What a walk over a whole list leaves: in order exactly the items kept, the right size, and,
      when `tail` was right, a right `tail` exactly if nothing was removed or the last item was. */
  ghost predicate WalkOutcome<T>(before: ListState<T>, after: ListState<T>, keep: set<T>) {
    && after.items == Survivors(before.items, keep)
    && TailInList(after) && SizeIsLength(after)
    && (TailIsLast(before) && before.items != [] ==>
          (TailIsLast(after) <==>
             (forall x :: x in before.items ==> x in keep) || before.items[|before.items| - 1] !in keep))
  }

  lemma WalkOverAll<T>(s: ListState<T>, keep: set<T>)
    requires Distinct(s.items) && TailInList(s) && SizeIsLength(s)
    ensures WalkOutcome(s, RemoveEach(s, s.items, keep), keep)
  {
    assert s.items == [] + s.items;
    assert [] + Survivors(s.items, keep) == Survivors(s.items, keep);
    RemoveEachItems(s, [], s.items, keep);
    RemoveEachTail(s, [], s.items, keep);
  }

  // -------------------------------------------------------------- the class

  class ListNode<T> {
    const value: T
    var next: ListNode?<T>
    /** The list the node was made for; no node is ever in two lists. */
    ghost const owner: object

    constructor (value: T, ghost owner: object)
      ensures this.value == value && next == null && this.owner == owner
    {
      this.value, this.owner := value, owner;
      next := null;
    }
  }

  function Values<T>(spine: seq<ListNode<T>>): (r: seq<T>)
    ensures |r| == |spine| && forall i :: 0 <= i < |spine| ==> r[i] == spine[i].value
  {
    seq(|spine|, i requires 0 <= i < |spine| => spine[i].value)
  }

  lemma ValuesWithout<T>(spine: seq<ListNode<T>>, i: nat)
    requires i < |spine|
    ensures var r := spine[..i] + spine[i + 1..];
            && |r| == |spine| - 1
            && (forall k :: 0 <= k < |r| ==> r[k] == spine[if k < i then k else k + 1])
            && Values(r) == Values(spine)[..i] + Values(spine)[i + 1..]
            && (Distinct(spine) ==> Distinct(r))
  {
    var r := spine[..i] + spine[i + 1..];
    assert forall k :: 0 <= k < |r| ==> r[k] == spine[if k < i then k else k + 1];
  }

  class List<T(==)> {
    var size: int
    var head: ListNode?<T>
    var tail: ListNode?<T>
    /** The nodes met from `head` on, and where `tail` is among them. */
    ghost var spine: seq<ListNode<T>>
    ghost var tailAt: int

    ghost predicate Valid()
      reads this, spine
    {
      && Distinct(spine)
      && (forall n :: n in spine ==> n.owner == this)
      && head == (if spine == [] then null else spine[0])
      && (forall i {:trigger spine[i].next} :: 0 <= i < |spine| ==>
            spine[i].next == if i + 1 < |spine| then spine[i + 1] else null)
      && -1 <= tailAt < |spine|
      && tail == if tailAt == -1 then null else spine[tailAt]
    }

    ghost function State(): ListState<T>
      reads this
    {
      ListState(Values(spine), tailAt, size)
    }

    /** A list none of whose objects changed is the list it was. */
    twostate lemma Untouched()
      requires old(Valid()) && unchanged(this) && forall n :: n in old(spine) ==> unchanged(n)
      ensures Valid() && State() == old(State()) && spine == old(spine)
    {
      forall i | 0 <= i < |spine|
        ensures spine[i].next == if i + 1 < |spine| then spine[i + 1] else null
      {
        assert old(spine[i].next) == if i + 1 < |spine| then spine[i + 1] else null;
        assert spine[i] in old(spine);
      }
    }

    lemma Owns()
      requires Valid()
      ensures forall n :: n in spine ==> n.owner == this
    {
    }

    /** new_list. */
    constructor ()
      ensures Valid() && State() == ListState([], -1, 0) && spine == []
    {
      size, head, tail := 0, null, null;
      spine, tailAt := [], -1;
    }

    /** push_list_item. */
    method PushItem(v: T)
      requires Valid() && CanPush(State())
      modifies this, spine
      ensures Valid() && State() == Push(old(State()), v)
      ensures forall n :: n in spine ==> n in old(spine) || fresh(n)
    {
      var node := new ListNode(v, this);
      if head == null {
        head := node;
        spine, tailAt := [node], 0;
      } else {
        tail.next := node;
        spine, tailAt := spine[..tailAt + 1] + [node], tailAt + 1;
      }
      tail := node;
      size := size + 1;
      assert State().items == Push(old(State()), v).items;
    }

    /** The pointer surgery of remove_list_item at the node in place `i`. */
    method Unlink(prev: ListNode?<T>, node: ListNode<T>, ghost i: nat)
      requires Valid() && i < |spine| && node == spine[i]
      requires prev == if i == 0 then null else spine[i - 1]
      modifies this, spine
      ensures Valid() && spine == old(spine)[..i] + old(spine)[i + 1..]
      ensures State() == ListState(old(State()).items[..i] + old(State()).items[i + 1..], i - 1, old(size) - 1)
    {
      ValuesWithout(spine, i);
      ghost var was := spine;
      assert node.next == if i + 1 < |was| then was[i + 1] else null;
      if prev == null {
        head := node.next;
      } else {
        prev.next := node.next;
      }
      tail := prev;
      size := size - 1;
      spine, tailAt := was[..i] + was[i + 1..], i - 1;
    }

    /** The search of remove_list_item: the first node holding `v`, and its predecessor. */
    method Locate(v: T) returns (prev: ListNode?<T>, node: ListNode?<T>, ghost i: nat)
      requires Valid()
      ensures i == IndexOf(Values(spine), v) && i <= |spine|
      ensures node == if i < |spine| then spine[i] else null
      ensures prev == if i == 0 then null else spine[i - 1]
    {
      prev, node, i := null, head, 0;
      ghost var items := Values(spine);
      while node != null && node.value != v
        invariant i <= |spine|
        invariant node == if i < |spine| then spine[i] else null
        invariant prev == if i == 0 then null else spine[i - 1]
        invariant v !in items[..i]
        decreases |spine| - i
      {
        assert items[..i + 1] == items[..i] + [items[i]];
        prev, node, i := node, node.next, i + 1;
      }
      if node == null {
        assert items[..i] == items;
      } else {
        FirstMatch(items, v, i);
      }
    }

    /** remove_list_item. */
    method RemoveItem(v: T) returns (found: bool)
      requires Valid()
      modifies this, spine
      ensures Valid() && State() == Remove(old(State()), v)
      ensures found <==> v in old(State()).items
      ensures spine == old(spine) ||
              var i := IndexOf(old(State()).items, v);
              i < |old(spine)| && spine == old(spine)[..i] + old(spine)[i + 1..]
    {
      var prev, node, i := Locate(v);
      found := node != null;
      if found {
        Unlink(prev, node, i);
      }
    }

    /** iterate_list, recording the values handed to the processor. */
    method Iterate() returns (visited: seq<T>)
      requires Valid()
      ensures visited == State().items
    {
      visited := [];
      var node := head;
      ghost var i := 0;
      while node != null
        invariant 0 <= i <= |spine|
        invariant node == if i < |spine| then spine[i] else null
        invariant visited == State().items[..i]
        decreases |spine| - i
      {
        visited := visited + [node.value];
        node := node.next;
        i := i + 1;
      }
    }
  }
}
