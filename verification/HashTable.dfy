/**
 The open-addressing hash table of src/lib/store/hash_table.c: linear probing with wrap-around
 over an array of nullable node pointers. Keys are 32-bit signed integers; a key's home cell is
 its unsigned reinterpretation modulo the table size.

 The first half works on the value of the array (a sequence of cells); the class `Hash` at the
 end runs the source's loops on a real array and is proved against those functions.
 */
module HashTable {
  import opened Options

  type Int32 = k: int | -0x8000_0000 <= k < 0x8000_0000

  datatype HashNode<V> = HashNode(key: Int32, value: V)

  type Cells<V> = seq<Option<HashNode<V>>>

  function AsUnsigned(k: Int32): nat {
    if k < 0 then k + 0x1_0000_0000 else k
  }

  function Home(k: Int32, n: nat): (h: nat)
    requires 0 < n
    ensures h < n
  {
    AsUnsigned(k) % n
  }

  /** The home cell is the remainder of the key, a negative one read as 32 bits without sign. */
  lemma HomeIsRemainder(k: Int32, n: nat)
    requires 0 < n
    ensures 0 <= k ==> exists q: nat :: k == q * n + Home(k, n)
    ensures k < 0 ==> exists q: nat :: k + 4294967296 == q * n + Home(k, n)
  {
    var u := AsUnsigned(k);
    assert u == (u / n) * n + Home(k, n);
  }

  /** The cell `d` places after cell `h`, cyclically. */
  function Offset(h: nat, d: nat, n: nat): (i: nat)
    requires h < n && d < n
    ensures i < n
  {
    if h + d < n then h + d else h + d - n
  }

  /** How many places cell `i` lies after cell `h`, cyclically. */
  function Distance(h: nat, i: nat, n: nat): (d: nat)
    requires h < n && i < n
    ensures d < n && Offset(h, d, n) == i
  {
    if h <= i then i - h else i - h + n
  }

  // ---------------------------------------------------------------- probing

  /** Each of the three loops leaves off at an empty cell or at the key it looks for. */
  predicate Stops<V>(c: Cells<V>, key: Int32, i: nat)
    requires i < |c|
  {
    c[i].None? || c[i].value.key == key
  }

  /** First stopping cell at distance `d` or more from home; None when a whole turn finds none. */
  function ProbeFrom<V>(c: Cells<V>, key: Int32, d: nat): (r: Option<nat>)
    requires 0 < |c| && d <= |c|
    ensures r.Some? ==>
              && r.value < |c| && Stops(c, key, r.value)
              && d <= Distance(Home(key, |c|), r.value, |c|)
              && forall e :: d <= e < Distance(Home(key, |c|), r.value, |c|) ==>
                   !Stops(c, key, Offset(Home(key, |c|), e, |c|))
    ensures r.None? ==> forall e :: d <= e < |c| ==> !Stops(c, key, Offset(Home(key, |c|), e, |c|))
    decreases |c| - d
  {
    if d == |c| then None
    else
      var i := Offset(Home(key, |c|), d, |c|);
      if Stops(c, key, i) then Some(i) else ProbeFrom(c, key, d + 1)
  }

  function Probe<V>(c: Cells<V>, key: Int32): Option<nat>
    requires 0 < |c|
  {
    ProbeFrom(c, key, 0)
  }

  /** The node get_hash_item returns, None for NULL, when its loop ends (`Probe` is Some). */
  function Lookup<V>(c: Cells<V>, key: Int32): Option<HashNode<V>>
    requires 0 < |c|
  {
    match Probe(c, key)
    case Some(i) => c[i]
    case None => None
  }

  function Insert<V>(c: Cells<V>, key: Int32, value: V): Cells<V>
    requires 0 < |c|
  {
    match Probe(c, key)
    case Some(i) => c[i := Some(HashNode(key, value))]
    case None => c
  }

  function Delete<V>(c: Cells<V>, key: Int32): Cells<V>
    requires 0 < |c|
  {
    match Probe(c, key)
    case Some(i) => c[i := None]
    case None => c
  }

  /** The index the source's loop holds after `t` rounds of increment-and-wrap. */
  function ProbedCell(key: Int32, t: nat, n: nat): (i: nat)
    requires 0 < n
    ensures i < n
  {
    if t == 0 then Home(key, n) else (ProbedCell(key, t - 1, n) + 1) % n
  }

  lemma WrapIsMod(i: nat, n: nat)
    requires i < n
    ensures (i + 1) % n == if i + 1 == n then 0 else i + 1
  {
    if i + 1 == n {
      assert n % n == 0;
    }
  }

  lemma {:induction false} ProbedCellIsOffset(key: Int32, t: nat, n: nat)
    requires 0 < n
    ensures t < n ==> ProbedCell(key, t, n) == Offset(Home(key, n), t, n)
    ensures n <= t ==> ProbedCell(key, t, n) == ProbedCell(key, t - n, n)
  {
    if t != 0 {
      ProbedCellIsOffset(key, t - 1, n);
      WrapIsMod(ProbedCell(key, t - 1, n), n);
      if t == n {
        assert ProbedCell(key, n - 1, n) == Offset(Home(key, n), n - 1, n);
      }
    }
  }

  lemma {:induction false} ProbedCellWraps(key: Int32, t: nat, n: nat)
    requires 0 < n
    ensures exists d: nat :: d < n && ProbedCell(key, t, n) == Offset(Home(key, n), d, n)
    decreases t
  {
    ProbedCellIsOffset(key, t, n);
    if n <= t {
      ProbedCellWraps(key, t - n, n);
    } else {
      assert ProbedCell(key, t, n) == Offset(Home(key, n), t, n);
    }
  }

  /** The source's loop comes to an end exactly when some cell is empty or holds the key. */
  lemma ProbeEndsIff<V>(c: Cells<V>, key: Int32)
    requires 0 < |c|
    ensures Probe(c, key).Some? <==> exists i: nat :: i < |c| && Stops(c, key, i)
    ensures Probe(c, key).None? <==> forall t: nat :: !Stops(c, key, ProbedCell(key, t, |c|))
  {
    var n, h := |c|, Home(key, |c|);
    if i: nat :| i < n && Stops(c, key, i) {
      assert Offset(h, Distance(h, i, n), n) == i;
    }
    if Probe(c, key).None? {
      forall t: nat ensures !Stops(c, key, ProbedCell(key, t, n)) {
        ProbedCellWraps(key, t, n);
      }
    } else {
      var i := Probe(c, key).value;
      ProbedCellIsOffset(key, Distance(h, i, n), n);
      assert Stops(c, key, ProbedCell(key, Distance(h, i, n), n));
    }
  }

  // ------------------------------------------------------------- refinement

  predicate UniqueKeys<V>(c: Cells<V>) {
    forall i, j :: 0 <= i < j < |c| && c[i].Some? && c[j].Some? ==> c[i].value.key != c[j].value.key
  }

  /** Cell `j` lies on the cyclic path from the home of `key` up to, not including, cell `i`. */
  predicate OnPath(key: Int32, j: nat, i: nat, n: nat)
    requires i < n && j < n
  {
    Distance(Home(key, n), j, n) < Distance(Home(key, n), i, n)
  }

  /** No empty cell lies between the home of the key stored at `i` and `i`. */
  predicate Reached<V>(c: Cells<V>, i: nat)
    requires i < |c| && c[i].Some?
  {
    forall j: nat :: j < |c| && OnPath(c[i].value.key, j, i, |c|) ==> c[j].Some?
  }

  predicate WellFormed<V>(c: Cells<V>) {
    && 0 < |c|
    && UniqueKeys(c)
    && forall i: nat :: i < |c| && c[i].Some? ==> Reached(c, i)
  }

  ghost predicate StoredAt<V>(c: Cells<V>, i: nat, k: Int32) {
    i < |c| && c[i].Some? && c[i].value.key == k
  }

  /** The finite map a table of distinct keys stands for. */
  ghost function Contents<V>(c: Cells<V>): (m: map<Int32, V>)
    requires UniqueKeys(c)
    ensures forall k :: k in m ==> exists i: nat :: StoredAt(c, i, k)
    ensures forall i: nat, k :: StoredAt(c, i, k) ==> k in m && m[k] == c[i].value.value
  {
    if c == [] then map[]
    else
      var n := |c| - 1;
      var m := Contents(c[..n]);
      assert forall i: nat, k :: i < n ==> (StoredAt(c[..n], i, k) <==> StoredAt(c, i, k));
      if c[n].Some? then
        assert StoredAt(c, n, c[n].value.key);
        m[c[n].value.key := c[n].value.value]
      else m
  }

  /** A map is the contents of a table when it has an entry for each cell and no other key. */
  lemma ContentsAre<V>(c: Cells<V>, m: map<Int32, V>)
    requires UniqueKeys(c)
    requires forall k :: k in m ==> exists i: nat :: StoredAt(c, i, k)
    requires forall i: nat, k :: StoredAt(c, i, k) ==> k in m && m[k] == c[i].value.value
    ensures Contents(c) == m
  {
    var w := Contents(c);
    forall k | k in m || k in w ensures k in m && k in w && m[k] == w[k] {
      var i: nat :| StoredAt(c, i, k);
    }
  }

  /** A stored key is found where it is stored exactly when no empty cell lies on its path. */
  lemma FoundIff<V>(c: Cells<V>, i: nat)
    requires UniqueKeys(c) && i < |c| && c[i].Some?
    ensures Lookup(c, c[i].value.key).Some? <==> Reached(c, i)
    ensures Reached(c, i) ==> Probe(c, c[i].value.key) == Some(i)
  {
    var key, n := c[i].value.key, |c|;
    var h := Home(key, n);
    assert Offset(h, Distance(h, i, n), n) == i && Stops(c, key, i);
    var p := Probe(c, key).value;
    if Reached(c, i) && Distance(h, p, n) < Distance(h, i, n) {
      assert OnPath(key, p, i, n);
      assert false;
    }
    if !Reached(c, i) {
      var j: nat :| j < n && OnPath(key, j, i, n) && c[j].None?;
      assert Offset(h, Distance(h, j, n), n) == j && Stops(c, key, j);
      assert Distance(h, p, n) <= Distance(h, j, n);
      assert p != i;
    }
  }

  /** get_hash_item's loop ends exactly when the key is stored or some cell is empty, and then it
      returns exactly the map's entry, for every 32-bit key. */
  lemma LookupRefinesMap<V>(c: Cells<V>, key: Int32)
    requires WellFormed(c)
    ensures Probe(c, key).Some? <==> key in Contents(c) || exists i: nat :: i < |c| && c[i].None?
    ensures Probe(c, key).Some? ==>
              Lookup(c, key) == if key in Contents(c) then Some(HashNode(key, Contents(c)[key])) else None
  {
    ProbeEndsIff(c, key);
    if key in Contents(c) {
      var i: nat :| StoredAt(c, i, key);
      FoundIff(c, i);
    } else {
      assert forall i: nat :: i < |c| && Stops(c, key, i) && c[i].Some? ==> StoredAt(c, i, key);
      assert forall i: nat :: i < |c| && c[i].None? ==> Stops(c, key, i);
    }
  }

  /** The path to the cell where an insert lands has no empty cell. */
  lemma InsertKeepsWellFormed<V>(c: Cells<V>, key: Int32, value: V)
    requires WellFormed(c) && Probe(c, key).Some?
    ensures WellFormed(Insert(c, key, value))
    ensures forall i: nat :: StoredAt(c, i, key) ==> Probe(c, key) == Some(i)
  {
    var n, h, p := |c|, Home(key, |c|), Probe(c, key).value;
    var c' := Insert(c, key, value);
    forall i: nat | StoredAt(c, i, key) ensures i == p {
      FoundIff(c, i);
    }
    forall j: nat | j < n && OnPath(key, j, p, n) ensures c[j].Some? {
      assert Offset(h, Distance(h, j, n), n) == j;
    }
    assert forall i: nat :: i < n && i != p ==> c'[i] == c[i];
    forall i: nat | i < n && c'[i].Some? ensures Reached(c', i) {
      if i != p {
        assert Reached(c, i);
      }
    }
  }

  /** insert_hash_item is map update and keeps the invariant whenever its loop ends. */
  lemma InsertRefinesMap<V>(c: Cells<V>, key: Int32, value: V)
    requires WellFormed(c) && Probe(c, key).Some?
    ensures WellFormed(Insert(c, key, value))
    ensures Contents(Insert(c, key, value)) == Contents(c)[key := value]
  {
    var p := Probe(c, key).value;
    var c', m := Insert(c, key, value), Contents(c)[key := value];
    InsertKeepsWellFormed(c, key, value);
    forall k | k in m ensures exists i: nat :: StoredAt(c', i, k) {
      if k == key {
        assert StoredAt(c', p, k);
      } else {
        var i: nat :| StoredAt(c, i, k);
        assert StoredAt(c', i, k);
      }
    }
    forall i: nat, k | StoredAt(c', i, k) ensures k in m && m[k] == c'[i].value.value {
      if i != p {
        assert StoredAt(c, i, k);
      }
    }
    ContentsAre(c', m);
  }

  /** The exact effect of delete_hash_item, which empties a cell and moves no follower: the deleted
      key is absent, and any other stored key is still found if and only if the freed cell is not on
      the path from that key's home to its own cell. */
  lemma DeleteExact<V>(c: Cells<V>, p: nat, i: nat)
    requires WellFormed(c) && p < |c| && c[p].Some? && i < |c| && c[i].Some? && i != p
    ensures var c' := Delete(c, c[p].value.key);
            && Lookup(c', c[p].value.key).None?
            && (Lookup(c', c[i].value.key) == c[i] <==> !OnPath(c[i].value.key, p, i, |c|))
            && (Lookup(c', c[i].value.key).None? <==> OnPath(c[i].value.key, p, i, |c|))
  {
    FoundIff(c, p);
    var c' := Delete(c, c[p].value.key);
    assert c' == c[p := None] && UniqueKeys(c') && c'[i] == c[i];
    FoundIff(c', i);
    assert Reached(c, i);
    if OnPath(c[i].value.key, p, i, |c|) {
      assert !Reached(c', i);
    } else {
      assert Reached(c', i);
    }
  }

  /** Deletion keeps every survivor reachable exactly when the freed cell is on none of their paths. */
  lemma DeleteKeepsWellFormedIff<V>(c: Cells<V>, p: nat)
    requires WellFormed(c) && p < |c| && c[p].Some?
    ensures Delete(c, c[p].value.key) == c[p := None]
    ensures WellFormed(c[p := None]) <==>
            forall i: nat :: i < |c| && i != p && c[i].Some? ==> !OnPath(c[i].value.key, p, i, |c|)
  {
    FoundIff(c, p);
    var c' := c[p := None];
    forall i: nat | i < |c| && i != p && c[i].Some?
      ensures Reached(c', i) <==> !OnPath(c[i].value.key, p, i, |c|)
    {
      assert Reached(c, i);
      if OnPath(c[i].value.key, p, i, |c|) {
        assert c'[p].None?;
      }
    }
    assert forall i: nat :: i < |c| && c'[i].Some? ==> i != p && c[i].Some?;
    assert forall i: nat :: i < |c| && i != p && c[i].Some? ==> c'[i].Some?;
  }

  /** Deleting a key that the probe does not find changes nothing. */
  lemma DeleteAbsent<V>(c: Cells<V>, key: Int32)
    requires 0 < |c|
    ensures Lookup(c, key).None? ==> Delete(c, key) == c
    ensures Lookup(c, key).Some? ==> exists p: nat :: StoredAt(c, p, key) && Delete(c, key) == c[p := None]
  {
    if Lookup(c, key).Some? {
      assert StoredAt(c, Probe(c, key).value, key);
    }
  }

  /** Deletion removes exactly the key's entry from the stored map. */
  lemma DeleteRefinesMap<V>(c: Cells<V>, p: nat)
    requires UniqueKeys(c) && p < |c| && c[p].Some?
    ensures UniqueKeys(c[p := None])
    ensures Contents(c[p := None]) == Contents(c) - {c[p].value.key}
  {
    var c' := c[p := None];
    var m := Contents(c) - {c[p].value.key};
    assert forall i: nat, k :: StoredAt(c', i, k) <==> StoredAt(c, i, k) && i != p;
    forall k | k in m ensures exists i: nat :: StoredAt(c', i, k) {
      var i: nat :| StoredAt(c, i, k);
      assert StoredAt(c', i, k);
    }
    ContentsAre(c', m);
  }

  /** Three colliding steps on a four-cell table lose a stored key and then store it twice. */
  lemma DeleteCanLoseAndDuplicate<V>(v: V)
    ensures var c0: Cells<V> := Insert(Insert([None, None, None, None], 0, v), 4, v);
            var c1 := Delete(c0, 0);
            && WellFormed(c0) && Lookup(c0, 4).Some? && Lookup(c1, 4).None? && c1[1].Some?
            && !UniqueKeys(Insert(c1, 4, v))
  {
    var e: Cells<V> := [None, None, None, None];
    assert Home(0, 4) == 0 && Home(4, 4) == 0;
    assert Stops(e, 0, Offset(0, 0, 4));
    var a := Insert(e, 0, v);
    assert a == e[0 := Some(HashNode(0, v))];
    assert !Stops(a, 4, Offset(0, 0, 4)) && Stops(a, 4, Offset(0, 1, 4));
    assert ProbeFrom(a, 4, 0) == ProbeFrom(a, 4, 1) == Some(1);
    var c0 := Insert(a, 4, v);
    assert c0 == a[1 := Some(HashNode(4, v))];
    assert forall i: nat :: i < 4 && c0[i].Some? ==> i == 0 || i == 1;
    assert Reached(c0, 0) && Reached(c0, 1);
    DeleteExact(c0, 0, 1);
    FoundIff(c0, 0);
    var c1 := Delete(c0, 0);
    assert Stops(c1, 4, Offset(0, 0, 4));
    var c2 := Insert(c1, 4, v);
    assert c2 == c1[0 := Some(HashNode(4, v))];
    assert c2[0].value.key == c2[1].value.key;
    FoundIff(c0, 1);
  }

  /** Two tables with the same keys in the same cells are probed alike, whatever their values. */
  ghost predicate SameKeys<V, W>(c: Cells<V>, w: Cells<W>) {
    && |c| == |w|
    && forall i: nat :: i < |c| ==>
         && (c[i].Some? <==> w[i].Some?)
         && (c[i].Some? ==> c[i].value.key == w[i].value.key)
  }

  lemma SameKeysTransitive<V, W, X>(c: Cells<V>, w: Cells<W>, x: Cells<X>)
    requires SameKeys(c, w) && SameKeys(w, x)
    ensures SameKeys(c, x)
  {
  }

  lemma {:induction false} ProbeSameKeys<V, W>(c: Cells<V>, w: Cells<W>, key: Int32, d: nat)
    requires SameKeys(c, w) && 0 < |c| && d <= |c|
    ensures ProbeFrom(c, key, d) == ProbeFrom(w, key, d)
    decreases |c| - d
  {
    if d < |c| {
      ProbeSameKeys(c, w, key, d + 1);
    }
  }

  // --------------------------------------------------------------- the class

  /** The occupied cells in index order, as iterate_hash hands them to its processor. */
  function Occupied<V>(c: Cells<V>): seq<HashNode<V>> {
    if c == [] then []
    else Occupied(c[..|c| - 1]) + (if c[|c| - 1].Some? then [c[|c| - 1].value] else [])
  }

  /** What the processor sees is exactly the map's entries, each key once. */
  lemma {:induction false} OccupiedIsContents<V>(c: Cells<V>)
    requires UniqueKeys(c)
    ensures forall x :: x in Occupied(c) ==> x.key in Contents(c) && Contents(c)[x.key] == x.value
    ensures forall k :: k in Contents(c) ==> HashNode(k, Contents(c)[k]) in Occupied(c)
    ensures |Occupied(c)| == |Contents(c)|
  {
    if c != [] {
      var n := |c| - 1;
      OccupiedIsContents(c[..n]);
      if c[n].Some? {
        var k := c[n].value.key;
        assert forall i: nat :: StoredAt(c[..n], i, k) ==> StoredAt(c, i, k) && i < n;
        assert k !in Contents(c[..n]);
      }
    }
  }

  /** The nodes are those of the cells `cell`, in this order, and no other cell has one. */
  ghost predicate FromCells<V>(nodes: seq<HashNode<V>>, c: Cells<V>, cell: seq<nat>) {
    && |cell| == |nodes| && (forall j, k :: 0 <= j < k < |cell| ==> cell[j] < cell[k])
    && (forall k :: 0 <= k < |cell| ==> cell[k] < |c| && c[cell[k]] == Some(nodes[k]))
    && forall i: nat :: i < |c| && c[i].Some? ==> i in cell
  }

  lemma FromCellsOn<V>(nodes: seq<HashNode<V>>, c: Cells<V>, cell: seq<nat>, last: Option<HashNode<V>>)
    requires FromCells(nodes, c, cell)
    ensures last.None? ==> FromCells(nodes, c + [last], cell)
    ensures last.Some? ==> FromCells(nodes + [last.value], c + [last], cell + [|c|])
  {
    assert forall i: nat :: i < |c| ==> (c + [last])[i] == c[i];
    assert forall i: nat :: i in cell || i == |c| ==> i in cell + [|c|];
  }

  /** ... from the cells in increasing order of their index. */
  lemma {:induction false} OccupiedInOrder<V>(c: Cells<V>) returns (cell: seq<nat>)
    ensures FromCells(Occupied(c), c, cell)
  {
    if c == [] {
      cell := [];
    } else {
      var n := |c| - 1;
      cell := OccupiedInOrder(c[..n]);
      FromCellsOn(Occupied(c[..n]), c[..n], cell, c[n]);
      assert c[..n] + [c[n]] == c;
      if c[n].Some? {
        cell := cell + [n];
      }
    }
  }

  class Hash<V> {
    const cells: array<Option<HashNode<V>>>

    ghost predicate Valid() {
      0 < cells.Length
    }

    ghost function Table(): (c: Cells<V>)
      reads cells
      ensures |c| == cells.Length
    {
      cells[..]
    }

    constructor (size: nat)
      requires 0 < size
      ensures Valid() && fresh(cells) && cells.Length == size
      ensures Table() == seq(size, i => None)
    {
      cells := new Option<HashNode<V>>[size](i => None);
    }

    /** Advances to the first stopping cell; the loop shared by the three operations. */
    method Find(key: Int32) returns (i: nat)
      requires Valid() && Probe(Table(), key).Some?
      ensures Probe(Table(), key) == Some(i) && i < cells.Length
    {
      var n := cells.Length;
      i := Home(key, n);
      ghost var d := 0;
      while cells[i].Some? && cells[i].value.key != key
        invariant d < n && i == Offset(Home(key, n), d, n)
        invariant ProbeFrom(Table(), key, d) == Probe(Table(), key)
        decreases n - d
      {
        WrapIsMod(i, n);
        assert ProbeFrom(Table(), key, d) == ProbeFrom(Table(), key, d + 1);
        i := (i + 1) % n;
        d := d + 1;
      }
    }

    /** get_hash_item. */
    method Get(key: Int32) returns (r: Option<HashNode<V>>)
      requires Valid() && Probe(Table(), key).Some?
      ensures r == Lookup(Table(), key)
    {
      var i := Find(key);
      r := cells[i];
    }

    /** insert_hash_item: fills the stopping cell, overwriting a node of the same key. */
    method Put(key: Int32, value: V)
      requires Valid() && Probe(Table(), key).Some?
      modifies cells
      ensures Table() == Insert(old(Table()), key, value)
    {
      var i := Find(key);
      cells[i] := Some(HashNode(key, value));
    }

    /** delete_hash_item: empties the key's cell, if the probe comes to it. */
    method Remove(key: Int32) returns (found: bool)
      requires Valid() && Probe(Table(), key).Some?
      modifies cells
      ensures found <==> Lookup(old(Table()), key).Some?
      ensures Table() == Delete(old(Table()), key)
    {
      var i := Find(key);
      found := cells[i].Some?;
      if found {
        cells[i] := None;
      }
    }

    /** iterate_hash, recording the nodes handed to the processor. */
    method Iterate() returns (visited: seq<HashNode<V>>)
      ensures visited == Occupied(Table())
    {
      visited := [];
      for i := 0 to cells.Length
        invariant visited == Occupied(cells[..i])
      {
        assert cells[..i + 1][..i] == cells[..i];
        if cells[i].Some? {
          visited := visited + [cells[i].value];
        }
      }
      assert cells[..cells.Length] == cells[..];
    }
  }
}
