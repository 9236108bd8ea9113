/** The lowest-free tables from which the QRTR proxy hands out client ids and port ids. */
module QrtrTables {
  import opened Wire

  /** sizeof(client_bitmap) and sizeof(port_bitmap); cell 0 is never handed out. */
  const CLIENT_CELLS := 0xf0
  const PORT_CELLS := 0xff0

  type Table = t: Bytes | |t| > 0 witness [0]

  function LowestFree(t: Table, from: nat): (i: nat)
    requires from <= |t|
    ensures from <= i <= |t| && (i < |t| ==> t[i] == 0)
    ensures forall j :: from <= j < i ==> t[j] != 0
    decreases |t| - from
  {
    if from == |t| || t[from] == 0 then from else LowestFree(t, from + 1)
  }

  /** The id handed out, 0 when the table is full; the cell keeps the low eight bits of its index. */
  function AllocId(t: Table): nat {
    var i := LowestFree(t, 1);
    if i < |t| then i else 0
  }

  function Alloc(t: Table): Table {
    var i := LowestFree(t, 1);
    if i < |t| then t[i := i % 0x100] else t
  }

  /** An id is recognised by its cell holding it. */
  function Free(t: Table, id: nat): Table {
    if id < |t| && t[id] == id then t[id := 0] else t
  }

  /** alloc_client_id and alloc_port_id, which are the same loop over two tables. */
  method AllocFrom(table: array<byte>) returns (id: nat)
    requires table.Length > 0
    modifies table
    ensures id == AllocId(old(table[..])) && table[..] == Alloc(old(table[..]))
  {
    ghost var t := table[..];
    id := 1;
    while id < table.Length
      invariant 1 <= id <= table.Length && table[..] == t
      invariant LowestFree(t, 1) == LowestFree(t, id)
    {
      if table[id] == 0 {
        table[id] := id % 0x100;
        return;
      }
      id := id + 1;
    }
    id := 0;
  }

  /** free_client_id and free_port_id */
  method FreeIn(table: array<byte>, id: nat)
    requires table.Length > 0
    modifies table
    ensures table[..] == Free(old(table[..]), id)
  {
    if id < table.Length && table[id] == id {
      table[id] := 0;
    }
  }

  // ---- what the tables say about the ids in use ----

  ghost function Used(t: Table): set<nat> {
    set i | 1 <= i < |t| && t[i] != 0
  }

  /** The cells that are not zero are exactly the ids in use other than 0, each in use once and held by its own cell. */
  ghost predicate Exact(t: Table, ids: multiset<nat>) {
    && t[0] == 0
    && (forall i :: 1 <= i < |t| ==> t[i] == 0 || t[i] == i)
    && ids[0 := 0] == multiset(Used(t))
  }

  lemma ExactMembers(t: Table, ids: multiset<nat>, id: nat)
    requires Exact(t, ids) && id != 0
    ensures ids[id] <= 1
    ensures id in ids <==> id < |t| && t[id] != 0
    ensures id in ids ==> id < 0x100 && t[id] == id
  {
    assert ids[0 := 0][id] == ids[id];
    assert id in multiset(Used(t)) <==> id in Used(t);
  }

  ghost function UpTo(n: nat): (s: set<nat>)
    ensures forall i: nat :: i in s <==> 1 <= i <= n
    ensures |s| == n
  {
    if n == 0 then {} else UpTo(n - 1) + {n}
  }

  lemma SubsetSize<T>(a: set<T>, b: set<T>)
    requires a <= b
    ensures |a| <= |b|
    ensures |a| == |b| ==> a == b
  {
    assert b == a + (b - a);
  }

  /** A cell holds its own index, so a cell in use lies below 256. */
  lemma {:induction false} UsedLow(t: Table, ids: multiset<nat>, max: nat)
    requires Exact(t, ids) && max == 0xff
    ensures Used(t) <= UpTo(max) && |Used(t)| <= max
  {
    forall i | i in Used(t) ensures i in UpTo(max) {
      assert t[i] == i;
    }
    SubsetSize(Used(t), UpTo(max));
  }

  /** The number of ids in use, not counting 0. */
  ghost function InUse(ids: multiset<nat>): nat {
    |ids[0 := 0]|
  }

  /** Pigeonhole: the lowest free cell is at most one past the number of ids in use. */
  lemma {:induction false} LowestFreeBound(t: Table, ids: multiset<nat>)
    requires Exact(t, ids)
    ensures LowestFree(t, 1) <= InUse(ids) + 1
    ensures InUse(ids) == |Used(t)| <= 0xff
  {
    var i := LowestFree(t, 1);
    SubsetSize(UpTo(i - 1), Used(t));
    assert InUse(ids) == |Used(t)|;
    UsedLow(t, ids, 0xff);
  }

  lemma UsedUpdate(t: Table, i: nat, v: byte)
    requires 1 <= i < |t|
    ensures Used(t[i := v]) == if v == 0 then Used(t) - {i} else Used(t) + {i}
  {
  }

  lemma AddToMultiset(s: set<nat>, ids: multiset<nat>, i: nat)
    requires ids[0 := 0] == multiset(s) && i != 0 && i !in s
    ensures (ids + multiset{i})[0 := 0] == multiset(s + {i})
  {
    assert multiset(s + {i}) == multiset(s) + multiset{i};
    assert (ids + multiset{i})[0 := 0] == ids[0 := 0] + multiset{i};
  }

  lemma AddZero(ids: multiset<nat>)
    ensures (ids + multiset{0})[0 := 0] == ids[0 := 0]
  {
  }

  lemma AllocLow(t: Table, ids: multiset<nat>, i: nat)
    requires Exact(t, ids) && 1 <= i < |t| && t[i] == 0 && i < 0x100
    ensures Exact(t[i := i], ids + multiset{i})
  {
    UsedUpdate(t, i, i);
    AddToMultiset(Used(t), ids, i);
  }

  lemma AllocHigh(t: Table, ids: multiset<nat>, now: Table, i: nat)
    requires 0x100 <= i
    ensures !Exact(now, ids + multiset{i})
  {
    if Exact(now, ids + multiset{i}) {
      assert i in ids + multiset{i};
      ExactMembers(now, ids + multiset{i}, i);
    }
  }

  /** Handing out an id keeps the table exact if and only if the id is below 256; ids in use are never handed out. */
  lemma AllocExact(t: Table, ids: multiset<nat>)
    requires Exact(t, ids)
    ensures Exact(Alloc(t), ids + multiset{AllocId(t)}) <==> AllocId(t) < 0x100
    ensures AllocId(t) != 0 ==> AllocId(t) !in ids
    ensures AllocId(t) <= InUse(ids) + 1
  {
    LowestFreeBound(t, ids);
    var i := AllocId(t);
    if i == 0 {
      AddZero(ids);
    } else {
      ExactMembers(t, ids, i);
      if i < 0x100 {
        AllocLow(t, ids, i);
      } else {
        AllocHigh(t, ids, Alloc(t), i);
      }
    }
  }

  /** For the client-id table that is always so; the id is 0 exactly when 239 ids are in use. */
  lemma AllocClientExact(t: Table, ids: multiset<nat>)
    requires Exact(t, ids) && |t| == CLIENT_CELLS
    ensures Exact(Alloc(t), ids + multiset{AllocId(t)})
    ensures AllocId(t) == 0 <==> InUse(ids) == 239
  {
    AllocExact(t, ids);
    LowestFreeBound(t, ids);
    var all := UpTo(|t| - 1);
    SubsetSize(Used(t), all);
    if AllocId(t) == 0 {
      assert Used(t) == all;
    } else {
      assert AllocId(t) in all && AllocId(t) !in Used(t);
    }
  }

  /** For the port table it is so exactly while fewer than 255 ports are in use; from then on the port handed out is
      256, and the table does not change. */
  lemma AllocPortExact(t: Table, ids: multiset<nat>)
    requires Exact(t, ids) && |t| == PORT_CELLS
    ensures AllocId(t) != 0
    ensures Exact(Alloc(t), ids + multiset{AllocId(t)}) <==> InUse(ids) < 0xff
    ensures InUse(ids) == 0xff ==> AllocId(t) == 0x100 && Alloc(t) == t
  {
    AllocExact(t, ids);
    LowestFreeBound(t, ids);
    if InUse(ids) == 0xff {
      AllLowUsed(t, ids, 0xff);
    }
  }

  lemma {:induction false} AllLowUsed(t: Table, ids: multiset<nat>, max: nat)
    requires Exact(t, ids) && InUse(ids) == max == 0xff && 0x100 < |t|
    ensures LowestFree(t, 1) == 0x100
  {
    UsedLow(t, ids, max);
    SubsetSize(Used(t), UpTo(max));
    forall j: nat | 1 <= j < 0x100 ensures t[j] != 0 {
      assert j in Used(t);
    }
    assert 0x100 !in Used(t);
  }

  /** Giving back an id that is in use keeps the table exact. */
  lemma FreeExact(t: Table, ids: multiset<nat>, id: nat)
    requires Exact(t, ids) && id in ids
    ensures Exact(Free(t, id), ids - multiset{id})
  {
    if id == 0 {
      assert (ids - multiset{0})[0 := 0] == ids[0 := 0];
    } else {
      ExactMembers(t, ids, id);
      UsedUpdate(t, id, 0);
      assert multiset(Used(t) - {id}) == multiset(Used(t)) - multiset{id};
      assert (ids - multiset{id})[0 := 0] == ids[0 := 0] - multiset{id};
    }
  }
}
