// The leak table of src/leaktab.c: a hash table of allocation counts, and the
// map that it stands for.
module LeakTable {
  import opened Memory

  const TABLE_SIZE := 47

  // A file or function name, if there is one, and a line number or address.
  datatype Key = Key(name: Option<seq<bv8>>, number: bv64)

  datatype Counts = Counts(acount: nat, atotal: nat, dcount: nat, dtotal: nat)

  datatype Entry = Entry(key: Key, counts: Counts)

  // What the table is sorted by, with counts or with bytes.
  datatype Order = Allocated | FreedFirst | Unfreed

  predicate CountsOk(n: Counts) {
    n.dcount <= n.acount && n.dtotal <= n.atotal
  }

  // src/leaktab.c:138-151; the subtractions cannot wrap around.
  function Measure(n: Counts, o: Order, counting: bool): nat
    requires CountsOk(n)
  {
    match o
    case Allocated => if counting then n.acount else n.atotal
    case FreedFirst => if counting then n.dcount else n.dtotal
    case Unfreed => if counting then n.acount - n.dcount else n.atotal - n.dtotal
  }

  // A char, which is signed, as an unsigned long.
  function Widened(c: bv8): bv64 {
    if c < 128 then c as bv64 else (c as bv64) | 0xFFFF_FFFF_FFFF_FF00
  }

  // One turn of the loop of src/leaktab.c:170-175.
  function Mixed(h: bv64, c: bv8): bv64 {
    var h := (h << 4) + Widened(c);
    var g := h & 0xF000_0000_0000_0000;
    if g != 0 then (h ^ (g >> 56)) ^ g else h
  }

  function HashFrom(h: bv64, name: seq<bv8>): bv64
    decreases |name|
  {
    if name == [] then h else HashFrom(Mixed(h, name[0]), name[1..])
  }

  function NameHash(name: Option<seq<bv8>>): bv64 {
    match name
    case None => 0
    case Some(n) => HashFrom(0, n)
  }

  function Slot(x: bv64): (k: nat)
    ensures k < TABLE_SIZE
  {
    x as int % TABLE_SIZE
  }

  // src/leaktab.c:179: the sum of unsigned longs wraps around.
  function Bucket(h: bv64, l: bv64): (k: nat)
    ensures k < TABLE_SIZE
  {
    Slot(h + l)
  }

  function HashOf(key: Key): (k: nat)
    ensures k < TABLE_SIZE
  {
    Bucket(NameHash(key.name), key.number)
  }

  // src/leaktab.c:167-178
  method HashName(name: Option<seq<bv8>>) returns (h: bv64)
    ensures h == NameHash(name)
  {
    h := 0;
    if name.Some? {
      var f := name.value;
      assert f[0..] == f;
      for i := 0 to |f|
        invariant HashFrom(0, f) == HashFrom(h, f[i..])
      {
        assert f[i..][0] == f[i] && f[i..][1..] == f[i + 1..];
        h := Mixed(h, f[i]);
      }
    }
  }

  // src/leaktab.c:163-180
  method HashLoc(f: Option<seq<bv8>>, l: bv64) returns (k: nat)
    ensures k == HashOf(Key(f, l))
  {
    var h := HashName(f);
    k := Bucket(h, l);
  }

  // src/leaktab.c:188-196
  predicate HashCmp(f1: Option<seq<bv8>>, l1: bv64, f2: Option<seq<bv8>>, l2: bv64) {
    if l1 != l2 || (f1.None? && f2.Some?) || (f1.Some? && f2.None?) then false
    else f1 == f2 || f1.value == f2.value
  }

  // Equal keys are never taken for different ones, nor different keys for
  // equal ones.
  lemma HashCmpIsEquality(a: Key, b: Key)
    ensures HashCmp(a.name, a.number, b.name, b.number) <==> a == b
  {
  }

  function Added(n: Counts, c: nat): Counts {
    n.(acount := n.acount + 1, atotal := n.atotal + c)
  }

  // src/leaktab.c:278-283
  function Dropped(n: Counts, c: nat): Counts {
    n.(dcount := if n.dcount + 1 > n.acount then n.acount else n.dcount + 1,
       dtotal := if n.dtotal + c > n.atotal then n.atotal else n.dtotal + c)
  }

  // The bucket holds exactly the entries of the map that hash to it, once.
  ghost predicate BucketOk(bucket: seq<Entry>, k: nat, table: map<Key, Counts>) {
    && (forall i :: 0 <= i < |bucket| ==>
          bucket[i].key in table && table[bucket[i].key] == bucket[i].counts && HashOf(bucket[i].key) == k)
    && (forall i, j :: 0 <= i < j < |bucket| ==> bucket[i].key != bucket[j].key)
    && (forall key :: key in table && HashOf(key) == k ==> Entry(key, table[key]) in bucket)
  }

  class Leaktab {
    const slots: array<seq<Entry>>
    var size: nat
    var tree: set<(nat, Key)>
    ghost var table: map<Key, Counts>

    ghost predicate Valid()
      reads this, slots
    {
      && slots.Length == TABLE_SIZE && size == |table|
      && (forall k :: 0 <= k < TABLE_SIZE ==> BucketOk(slots[k], k, table))
      && (forall key :: key in table ==> CountsOk(table[key]))
    }

    constructor ()
      ensures Valid() && table == map[] && fresh(slots)
    {
      slots := new seq<Entry>[TABLE_SIZE](i => []);
      size, tree, table := 0, {}, map[];
    }

    // The place of the key in its bucket.
    method Find(k: nat, f: Option<seq<bv8>>, l: bv64) returns (i: nat)
      requires Valid() && k == HashOf(Key(f, l))
      ensures i <= |slots[k]|
      ensures i < |slots[k]| <==> Key(f, l) in table
      ensures i < |slots[k]| ==> slots[k][i] == Entry(Key(f, l), table[Key(f, l)])
    {
      i := 0;
      while i < |slots[k]|
        invariant i <= |slots[k]|
        invariant forall j :: 0 <= j < i ==> slots[k][j].key != Key(f, l)
      {
        var n := slots[k][i];
        HashCmpIsEquality(n.key, Key(f, l));
        if HashCmp(n.key.name, n.key.number, f, l) {
          return;
        }
        i := i + 1;
      }
    }

    // src/leaktab.c:235-260; room tells whether there is memory for an entry.
    method AllocEntry(f: Option<seq<bv8>>, l: bv64, c: nat, room: bool) returns (ok: bool)
      requires Valid()
      modifies this`size, this`table, slots
      ensures Valid()
      ensures ok <==> Key(f, l) in old(table) || room
      ensures !ok ==> table == old(table)
      ensures ok ==> table == old(table)[Key(f, l) :=
        if Key(f, l) in old(table) then Added(old(table)[Key(f, l)], c) else Counts(1, c, 0, 0)]
    {
      var k := HashLoc(f, l);
      var i := Find(k, f, l);
      ghost var key := Key(f, l);
      if i < |slots[k]| {
        var n := Added(slots[k][i].counts, c);
        OtherBuckets(slots[..], table, key, n);
        OwnBucketUpdate(slots[k], table, i, key, n);
        KeysAfter(table, key, n);
        slots[k] := slots[k][i := Entry(slots[k][i].key, n)];
        table := table[key := n];
        return true;
      }
      if !room {
        return false;
      }
      OtherBuckets(slots[..], table, key, Counts(1, c, 0, 0));
      OwnBucketInsert(slots[k], table, key, Counts(1, c, 0, 0));
      KeysAfter(table, key, Counts(1, c, 0, 0));
      slots[k] := [Entry(Key(f, l), Counts(1, c, 0, 0))] + slots[k];
      size := size + 1;
      table := table[key := Counts(1, c, 0, 0)];
      return true;
    }

    // src/leaktab.c:268-287
    method FreeEntry(f: Option<seq<bv8>>, l: bv64, c: nat) returns (ok: bool)
      requires Valid()
      modifies this`table, slots
      ensures Valid()
      ensures ok <==> Key(f, l) in old(table)
      ensures table == if ok then old(table)[Key(f, l) := Dropped(old(table)[Key(f, l)], c)] else old(table)
    {
      var k := HashLoc(f, l);
      var i := Find(k, f, l);
      if i < |slots[k]| {
        var n := Dropped(slots[k][i].counts, c);
        OtherBuckets(slots[..], table, Key(f, l), n);
        OwnBucketUpdate(slots[k], table, i, Key(f, l), n);
        KeysAfter(table, Key(f, l), n);
        slots[k] := slots[k][i := Entry(slots[k][i].key, n)];
        table := table[Key(f, l) := n];
        return true;
      }
      return false;
    }

    // src/leaktab.c:109-119
    method Clear()
      requires Valid()
      modifies this, slots
      ensures Valid() && table == map[] && tree == {}
    {
      for i := 0 to TABLE_SIZE
        invariant forall k :: 0 <= k < i ==> slots[k] == []
      {
        EmptyBucket(i);
      }
      tree, size, table := {}, 0, map[];
    }

    method EmptyBucket(i: nat)
      requires i < slots.Length
      modifies slots
      ensures slots[i] == [] && forall k :: 0 <= k < slots.Length && k != i ==> slots[k] == old(slots[k])
    {
      while slots[i] != []
        invariant forall k :: 0 <= k < slots.Length && k != i ==> slots[k] == old(slots[k])
        decreases |slots[i]|
      {
        slots[i] := slots[i][1..];
      }
    }

    // src/leaktab.c:127-155: the tree gets exactly the entries whose measure is
    // positive.
    method Sort(o: Order, counting: bool)
      requires Valid()
      modifies this`tree
      ensures Valid()
      ensures forall e :: e in tree <==> e.1 in table && e.0 == Measure(table[e.1], o, counting) > 0
    {
      tree := {};
      for i := 0 to TABLE_SIZE
        invariant forall e :: e in tree <==>
          e.1 in table && HashOf(e.1) < i && e.0 == Measure(table[e.1], o, counting) > 0
      {
        SortBucket(i, o, counting);
      }
    }

    method SortBucket(i: nat, o: Order, counting: bool)
      requires Valid() && i < TABLE_SIZE
      modifies this`tree
      ensures forall e :: e in tree <==>
        e in old(tree) || (e.1 in table && HashOf(e.1) == i && e.0 == Measure(table[e.1], o, counting) > 0)
    {
      ghost var bucket := slots[i];
      BucketCounts(bucket, i, table);
      for j := 0 to |slots[i]|
        invariant forall e :: e in tree <==> e in old(tree) || Positive(bucket, j, o, counting, e)
      {
        var n := slots[i][j];
        var k := Measure(n.counts, o, counting);
        if k > 0 {
          tree := tree + {(k, n.key)};
        }
      }
      PositiveInBucket(bucket, i, table, o, counting);
    }
  }

  // Entry e of the tree comes from the first j entries of the bucket.
  ghost predicate Positive(bucket: seq<Entry>, j: nat, o: Order, counting: bool, e: (nat, Key)) {
    exists x :: 0 <= x < j && x < |bucket| && CountsOk(bucket[x].counts) && bucket[x].key == e.1
                && e.0 == Measure(bucket[x].counts, o, counting) > 0
  }

  lemma BucketCounts(bucket: seq<Entry>, i: nat, table: map<Key, Counts>)
    requires BucketOk(bucket, i, table) && forall key :: key in table ==> CountsOk(table[key])
    ensures forall x :: 0 <= x < |bucket| ==> CountsOk(bucket[x].counts)
  {
  }

  lemma PositiveInBucket(bucket: seq<Entry>, i: nat, table: map<Key, Counts>, o: Order, counting: bool)
    requires BucketOk(bucket, i, table) && forall key :: key in table ==> CountsOk(table[key])
    ensures forall e :: Positive(bucket, |bucket|, o, counting, e)
              <==> e.1 in table && HashOf(e.1) == i && e.0 == Measure(table[e.1], o, counting) > 0
  {
    forall e: (nat, Key)
      ensures Positive(bucket, |bucket|, o, counting, e)
              <==> e.1 in table && HashOf(e.1) == i && e.0 == Measure(table[e.1], o, counting) > 0
    {
      if e.1 in table && HashOf(e.1) == i {
        assert Entry(e.1, table[e.1]) in bucket;
      }
    }
  }

  // A bucket that the key does not belong to.
  lemma OtherBuckets(slots: seq<seq<Entry>>, table: map<Key, Counts>, key: Key, n: Counts)
    requires |slots| == TABLE_SIZE && forall k :: 0 <= k < TABLE_SIZE ==> BucketOk(slots[k], k, table)
    ensures forall j :: 0 <= j < TABLE_SIZE && j != HashOf(key) ==> BucketOk(slots[j], j, table[key := n])
  {
    forall j | 0 <= j < TABLE_SIZE && j != HashOf(key)
      ensures BucketOk(slots[j], j, table[key := n])
    {
      assert BucketOk(slots[j], j, table);
    }
  }

  lemma OwnBucketUpdate(bucket: seq<Entry>, table: map<Key, Counts>, i: nat, key: Key, n: Counts)
    requires BucketOk(bucket, HashOf(key), table) && key in table && i < |bucket| && bucket[i].key == key
    ensures BucketOk(bucket[i := Entry(key, n)], HashOf(key), table[key := n])
  {
    var now := bucket[i := Entry(key, n)];
    forall x | x in table && HashOf(x) == HashOf(key)
      ensures Entry(x, table[key := n][x]) in now
    {
      var j :| 0 <= j < |bucket| && bucket[j] == Entry(x, table[x]);
      assert now[j] == if j == i then Entry(key, n) else bucket[j];
    }
  }

  lemma OwnBucketInsert(bucket: seq<Entry>, table: map<Key, Counts>, key: Key, n: Counts)
    requires BucketOk(bucket, HashOf(key), table) && key !in table
    ensures BucketOk([Entry(key, n)] + bucket, HashOf(key), table[key := n])
  {
    var now := [Entry(key, n)] + bucket;
    forall x | x in table[key := n] && HashOf(x) == HashOf(key)
      ensures Entry(x, table[key := n][x]) in now
    {
      if x == key {
        assert now[0] == Entry(key, n);
      } else {
        assert Entry(x, table[x]) in bucket;
      }
    }
  }

  lemma KeysAfter(table: map<Key, Counts>, key: Key, n: Counts)
    ensures |table[key := n]| == if key in table then |table| else |table| + 1
  {
    assert table[key := n].Keys == table.Keys + {key};
  }
}
