// The doubly linked lists of src/list.c in a memory of words.  A node at
// address a has its next pointer at a and its prev pointer at a + 1.  The four
// words of a list head are head, tail, tlpr and size: the first two are a node
// in front of the list, and the second and third one are a node behind it.
module LinkedList {

  // Consecutive nodes of e point to each other.
  ghost predicate Linked(m: seq<nat>, e: seq<nat>) {
    && (forall i :: 0 <= i < |e| ==> e[i] + 1 < |m|)
    && (forall i {:trigger m[e[i]]} :: 0 <= i < |e| - 1 ==> m[e[i]] == e[i + 1])
    && (forall i {:trigger m[e[i] + 1]} :: 1 <= i < |e| ==> m[e[i] + 1] == e[i - 1])
  }

  // The pointers that hold a list together are in different words.
  ghost predicate Spread(e: seq<nat>) {
    && (forall i, j :: 0 <= i < j < |e| ==> e[i] != e[j])
    && (forall i, j :: 0 <= i < |e| - 1 && 1 <= j < |e| ==> e[i] != e[j] + 1)
  }

  // The nodes of list h with the two sentinels.
  function Extended(h: nat, q: seq<nat>): (e: seq<nat>)
    ensures |e| == |q| + 2 && e[0] == h && e[|q| + 1] == h + 1
    ensures forall i :: 0 <= i < |q| ==> e[i + 1] == q[i]
  {
    [h] + q + [h + 1]
  }

  predicate InHead(h: nat, x: int) {
    h <= x < h + 4
  }

  predicate InNode(n: nat, x: int) {
    n <= x < n + 2
  }

  // The nodes do not overlap each other or the head.
  ghost predicate Separate(h: nat, q: seq<nat>) {
    && (forall i :: 0 <= i < |q| ==> q[i] > 0 && Clear(h, q[i]))
    && (forall i, j :: 0 <= i < j < |q| ==> q[i] + 2 <= q[j] || q[j] + 2 <= q[i])
  }

  predicate Clear(h: nat, n: nat) {
    n + 2 <= h || h + 4 <= n
  }

  // h is the head of a list with the nodes q.
  ghost predicate IsList(m: seq<nat>, h: nat, q: seq<nat>) {
    && h > 0 && h + 4 <= |m| && Separate(h, q)
    && Linked(m, Extended(h, q))
    && m[h + 1] == 0 && m[h + 3] == |q|
  }

  // Word x belongs to the list.
  ghost predicate Owns(h: nat, q: seq<nat>, x: int) {
    InHead(h, x) || exists i :: 0 <= i < |q| && InNode(q[i], x)
  }

  // A node that can be added.
  ghost predicate Addable(m: seq<nat>, h: nat, q: seq<nat>, n: nat) {
    n > 0 && n + 2 <= |m| && Clear(h, n) && forall i :: 0 <= i < |q| ==> q[i] + 2 <= n || n + 2 <= q[i]
  }

  lemma SeparateAt(h: nat, q: seq<nat>, i: nat, j: nat)
    requires Separate(h, q) && i < |q| + 2 && j < |q| + 2
    ensures i < j ==> Extended(h, q)[i] != Extended(h, q)[j]
    ensures i < |q| + 1 && 1 <= j ==> Extended(h, q)[i] != Extended(h, q)[j] + 1
  {
    var e := Extended(h, q);
    assert 1 <= i <= |q| ==> e[i] == q[i - 1] && Clear(h, q[i - 1]);
    assert 1 <= j <= |q| ==> e[j] == q[j - 1] && Clear(h, q[j - 1]);
  }

  lemma SeparateSpread(h: nat, q: seq<nat>)
    requires Separate(h, q)
    ensures Spread(Extended(h, q))
  {
    var e := Extended(h, q);
    forall i, j | 0 <= i < j < |e|
      ensures e[i] != e[j]
    {
      SeparateAt(h, q, i, j);
    }
    forall i, j | 0 <= i < |e| - 1 && 1 <= j < |e|
      ensures e[i] != e[j] + 1
    {
      SeparateAt(h, q, i, j);
    }
  }

  // Storing the four pointers that put n between two neighbours.
  function Spliced(m: seq<nat>, a: nat, n: nat, b: nat): (r: seq<nat>)
    requires a < |m| && n + 1 < |m| && b + 1 < |m|
    ensures |r| == |m|
  {
    m[a := n][n := b][n + 1 := a][b + 1 := n]
  }

  // Storing the two pointers that take out what is between two nodes.
  function Unspliced(m: seq<nat>, a: nat, b: nat): (r: seq<nat>)
    requires a < |m| && b + 1 < |m|
    ensures |r| == |m|
  {
    m[a := b][b + 1 := a]
  }

  function Sized(m: seq<nat>, h: nat, size: nat): (r: seq<nat>)
    requires h + 3 < |m|
    ensures |r| == |m|
  {
    m[h + 3 := size]
  }

  lemma SpliceNext(m: seq<nat>, e: seq<nat>, k: nat, n: nat, f: seq<nat>, i: nat)
    requires Linked(m, e) && k + 1 < |e| && n + 1 < |m|
    requires f == e[..k + 1] + [n] + e[k + 1..] && Spread(f) && i < |f| - 1
    ensures Spliced(m, e[k], n, e[k + 1])[f[i]] == f[i + 1]
  {
    assert f[k] == e[k] && f[k + 1] == n && f[k + 2] == e[k + 1];
    if i < k || i > k + 1 {
      var j := if i < k then i else i - 1;
      assert f[i] == e[j] && f[i + 1] == e[j + 1];
      assert f[k] != f[i] && f[k + 1] != f[i] && f[k + 1] + 1 != f[i] && f[k + 2] + 1 != f[i];
    } else {
      assert f[k] != f[k + 1] && f[k] != f[k + 1] + 1 && f[k] != f[k + 2] + 1;
      assert f[k + 1] != f[k + 2] + 1;
    }
  }

  lemma SplicePrev(m: seq<nat>, e: seq<nat>, k: nat, n: nat, f: seq<nat>, i: nat)
    requires Linked(m, e) && k + 1 < |e| && n + 1 < |m|
    requires f == e[..k + 1] + [n] + e[k + 1..] && Spread(f) && 1 <= i < |f|
    ensures f[i] + 1 < |m| && Spliced(m, e[k], n, e[k + 1])[f[i] + 1] == f[i - 1]
  {
    assert f[k] == e[k] && f[k + 1] == n && f[k + 2] == e[k + 1];
    if i <= k || i > k + 2 {
      var j := if i <= k then i else i - 1;
      assert f[i] == e[j] && f[i - 1] == e[j - 1];
      assert f[k] != f[i] + 1 && f[k + 1] != f[i] + 1 && f[k + 1] != f[i] && f[k + 2] != f[i];
    } else {
      assert f[k + 1] != f[k + 2];
    }
  }

  lemma SpliceLinks(m: seq<nat>, e: seq<nat>, k: nat, n: nat)
    requires Linked(m, e) && k + 1 < |e| && n + 1 < |m|
    requires Spread(e[..k + 1] + [n] + e[k + 1..])
    ensures Linked(Spliced(m, e[k], n, e[k + 1]), e[..k + 1] + [n] + e[k + 1..])
  {
    var r, f := Spliced(m, e[k], n, e[k + 1]), e[..k + 1] + [n] + e[k + 1..];
    forall i | 0 <= i < |f| - 1
      ensures f[i] + 1 < |m| && r[f[i]] == f[i + 1]
    {
      SpliceNext(m, e, k, n, f, i);
      assert f[i] == if i <= k then e[i] else if i == k + 1 then n else e[i - 1];
    }
    forall i | 1 <= i < |f|
      ensures f[i] + 1 < |m| && r[f[i] + 1] == f[i - 1]
    {
      SplicePrev(m, e, k, n, f, i);
    }
  }

  lemma UnspliceNext(m: seq<nat>, e: seq<nat>, k: nat, f: seq<nat>, i: nat)
    requires Linked(m, e) && Spread(e) && 0 < k < |e| - 1 && f == e[..k] + e[k + 1..] && i < |f| - 1
    ensures f[i] + 1 < |m| && Unspliced(m, e[k - 1], e[k + 1])[f[i]] == f[i + 1]
  {
    var j := if i < k then i else i + 1;
    assert f[i] == e[j] && e[j] != e[k + 1] + 1;
    assert i != k - 1 ==> f[i + 1] == e[j + 1] && e[j] != e[k - 1] && m[e[j]] == e[j + 1];
  }

  lemma UnsplicePrev(m: seq<nat>, e: seq<nat>, k: nat, f: seq<nat>, i: nat)
    requires Linked(m, e) && Spread(e) && 0 < k < |e| - 1 && f == e[..k] + e[k + 1..] && 1 <= i < |f|
    ensures f[i] + 1 < |m| && Unspliced(m, e[k - 1], e[k + 1])[f[i] + 1] == f[i - 1]
  {
    var j := if i < k then i else i + 1;
    assert f[i] == e[j] && e[j] + 1 != e[k - 1];
    assert i != k ==> f[i - 1] == e[j - 1] && e[j] != e[k + 1] && m[e[j] + 1] == e[j - 1];
  }

  lemma UnspliceLinks(m: seq<nat>, e: seq<nat>, k: nat)
    requires Linked(m, e) && Spread(e) && 0 < k < |e| - 1
    ensures Linked(Unspliced(m, e[k - 1], e[k + 1]), e[..k] + e[k + 1..])
  {
    var f := e[..k] + e[k + 1..];
    forall i | 0 <= i < |f| - 1
      ensures f[i] + 1 < |m| && Unspliced(m, e[k - 1], e[k + 1])[f[i]] == f[i + 1]
    {
      UnspliceNext(m, e, k, f, i);
    }
    forall i | 1 <= i < |f|
      ensures f[i] + 1 < |m| && Unspliced(m, e[k - 1], e[k + 1])[f[i] + 1] == f[i - 1]
    {
      UnsplicePrev(m, e, k, f, i);
    }
  }

  // The place of a new node among the others.
  lemma InsertSeparate(h: nat, q: seq<nat>, k: nat, n: nat)
    requires Separate(h, q) && k <= |q| && n > 0 && Clear(h, n)
    requires forall i :: 0 <= i < |q| ==> q[i] + 2 <= n || n + 2 <= q[i]
    ensures Separate(h, q[..k] + [n] + q[k..])
  {
    var r := q[..k] + [n] + q[k..];
    assert forall i :: 0 <= i < |r| ==> r[i] == if i < k then q[i] else if i == k then n else q[i - 1];
  }

  lemma ExtendedInsert(h: nat, q: seq<nat>, k: nat, n: nat)
    requires k <= |q|
    ensures Extended(h, q[..k] + [n] + q[k..]) == Extended(h, q)[..k + 1] + [n] + Extended(h, q)[k + 1..]
  {
    ExtendedParts(h, q, k);
    var a, b := q[..k], q[k..];
    assert [h] + (a + [n] + b) + [h + 1] == ([h] + a) + [n] + (b + [h + 1]);
  }

  lemma ExtendedParts(h: nat, q: seq<nat>, k: nat)
    requires k <= |q|
    ensures Extended(h, q)[..k + 1] == [h] + q[..k] && Extended(h, q)[k + 1..] == q[k..] + [h + 1]
  {
  }

  lemma RemoveSeparate(h: nat, q: seq<nat>, k: nat)
    requires Separate(h, q) && k < |q|
    ensures Separate(h, q[..k] + q[k + 1..])
  {
    var r := q[..k] + q[k + 1..];
    assert forall i :: 0 <= i < |r| ==> r[i] == if i < k then q[i] else q[i + 1];
    forall i, j | 0 <= i < j < |r|
      ensures r[i] + 2 <= r[j] || r[j] + 2 <= r[i]
    {
      var x, y := if i < k then i else i + 1, if j < k then j else j + 1;
      assert q[x] + 2 <= q[y] || q[y] + 2 <= q[x];
    }
  }

  lemma ExtendedRemove(h: nat, q: seq<nat>, k: nat)
    requires k < |q|
    ensures Extended(h, q[..k] + q[k + 1..]) == Extended(h, q)[..k + 1] + Extended(h, q)[k + 2..]
  {
    ExtendedParts(h, q, k);
    ExtendedParts(h, q, k + 1);
    Middle([h], q[..k], q[k + 1..], [h + 1]);
  }

  lemma Middle(x: seq<nat>, a: seq<nat>, b: seq<nat>, y: seq<nat>)
    ensures x + (a + b) + y == (x + a) + (b + y)
  {
  }

  // The words of the list and of n are all that changes.
  ghost predicate Within(m: seq<nat>, now: seq<nat>, h: nat, q: seq<nat>, n: nat) {
    |now| == |m| && forall x :: 0 <= x < |m| && !Owns(h, q, x) && !InNode(n, x) ==> now[x] == m[x]
  }

  lemma OwnsExtended(h: nat, q: seq<nat>, i: nat)
    requires i < |q| + 2
    ensures Owns(h, q, Extended(h, q)[i]) && Owns(h, q, Extended(h, q)[i] + 1)
  {
    assert 1 <= i <= |q| ==>
      Extended(h, q)[i] == q[i - 1] && InNode(q[i - 1], q[i - 1]) && InNode(q[i - 1], q[i - 1] + 1);
  }

  // A node put in at position k.
  lemma InsertIsList(m: seq<nat>, h: nat, q: seq<nat>, k: nat, n: nat, r: seq<nat>, now: seq<nat>)
    requires IsList(m, h, q) && k <= |q| && Addable(m, h, q, n) && r == q[..k] + [n] + q[k..]
    requires var e := Extended(h, q); now == Sized(Spliced(m, e[k], n, e[k + 1]), h, |q| + 1)
    ensures IsList(now, h, r) && Within(m, now, h, q, n)
  {
    var e := Extended(h, q);
    InsertLinks(m, h, q, k, n, r);
    SizeApart(Spliced(m, e[k], n, e[k + 1]), h, r, |q| + 1);
    InsertWithin(m, h, q, k, n);
  }

  lemma InsertLinks(m: seq<nat>, h: nat, q: seq<nat>, k: nat, n: nat, r: seq<nat>)
    requires IsList(m, h, q) && k <= |q| && Addable(m, h, q, n) && r == q[..k] + [n] + q[k..]
    ensures var e := Extended(h, q); Linked(Spliced(m, e[k], n, e[k + 1]), Extended(h, r))
    ensures Separate(h, r)
  {
    SeparateSpread(h, q);
    InsertSeparate(h, q, k, n);
    ExtendedInsert(h, q, k, n);
    SeparateSpread(h, r);
    SpliceLinks(m, Extended(h, q), k, n);
  }

  lemma InsertWithin(m: seq<nat>, h: nat, q: seq<nat>, k: nat, n: nat)
    requires IsList(m, h, q) && k <= |q| && Addable(m, h, q, n)
    ensures var e := Extended(h, q);
      var now := Sized(Spliced(m, e[k], n, e[k + 1]), h, |q| + 1);
      Within(m, now, h, q, n) && now[h + 1] == 0
  {
    var e := Extended(h, q);
    var now := Sized(Spliced(m, e[k], n, e[k + 1]), h, |q| + 1);
    OwnsExtended(h, q, k);
    OwnsExtended(h, q, k + 1);
    TailStays(h, q, k);
    TailStays(h, q, k + 1);
    ElsewhereSame(m, h, q, n, e[k], e[k + 1]);
    FieldStays(m, h, n, e[k], e[k + 1], h + 1, |q| + 1);
  }

  lemma FieldStays(m: seq<nat>, h: nat, n: nat, a: nat, b: nat, x: nat, size: nat)
    requires h + 3 < |m| && a < |m| && n + 1 < |m| && b + 1 < |m|
    requires x < |m| && x != a && x != n && x != n + 1 && x != b + 1 && x != h + 3
    ensures Sized(Spliced(m, a, n, b), h, size)[x] == m[x]
  {
  }

  lemma ElsewhereSame(m: seq<nat>, h: nat, q: seq<nat>, n: nat, a: nat, b: nat)
    requires h + 3 < |m| && a < |m| && n + 1 < |m| && b + 1 < |m| && Owns(h, q, a) && Owns(h, q, b + 1)
    ensures Within(m, Sized(Spliced(m, a, n, b), h, |q| + 1), h, q, n)
  {
  }

  // The tail field is none of the pointers that change.
  lemma TailStays(h: nat, q: seq<nat>, i: nat)
    requires Separate(h, q) && i < |q| + 2
    ensures i <= |q| ==> Extended(h, q)[i] != h + 1
    ensures i > 0 ==> Extended(h, q)[i] + 1 != h + 1
  {
    var e := Extended(h, q);
    assert 1 <= i <= |q| ==> e[i] == q[i - 1] && Clear(h, q[i - 1]);
  }

  // Storing the size does not touch the links.
  lemma SizeApart(m: seq<nat>, h: nat, q: seq<nat>, size: nat)
    requires h + 4 <= |m| && Separate(h, q) && Linked(m, Extended(h, q))
    ensures Linked(Sized(m, h, size), Extended(h, q))
  {
    var e := Extended(h, q);
    forall i | 0 <= i < |e|
      ensures e[i] != h + 3 && e[i] + 1 != h + 3
    {
      assert 1 <= i <= |q| ==> e[i] == q[i - 1] && Clear(h, q[i - 1]);
    }
  }

  lemma RemoveIsList(m: seq<nat>, h: nat, q: seq<nat>, k: nat, r: seq<nat>, now: seq<nat>)
    requires IsList(m, h, q) && k < |q| && r == q[..k] + q[k + 1..]
    requires var e := Extended(h, q); now == Sized(Unspliced(m, e[k], e[k + 2]), h, |q| - 1)
    ensures IsList(now, h, r) && Within(m, now, h, q, q[k])
  {
    var e := Extended(h, q);
    RemoveLinks(m, h, q, k, r);
    SizeApart(Unspliced(m, e[k], e[k + 2]), h, r, |q| - 1);
    RemoveWithin(m, h, q, k);
  }

  lemma RemoveFirst(m: seq<nat>, h: nat, q: seq<nat>, now: seq<nat>)
    requires IsList(m, h, q) && q != []
    requires var e := Extended(h, q); now == Sized(Unspliced(m, e[0], e[2]), h, |q| - 1)
    ensures IsList(now, h, q[1..]) && Within(m, now, h, q, q[0])
  {
    WithoutFirst(q);
    RemoveIsList(m, h, q, 0, q[1..], now);
  }

  lemma WithoutFirst(q: seq<nat>)
    requires q != []
    ensures q[..0] + q[0 + 1..] == q[1..]
  {
  }

  lemma WithoutLast(q: seq<nat>)
    requires q != []
    ensures q[..|q| - 1] + q[|q| - 1 + 1..] == q[..|q| - 1]
  {
  }

  lemma RemoveLast(m: seq<nat>, h: nat, q: seq<nat>, now: seq<nat>)
    requires IsList(m, h, q) && q != []
    requires var e, k := Extended(h, q), |q| - 1; now == Sized(Unspliced(m, e[k], e[k + 2]), h, |q| - 1)
    ensures IsList(now, h, q[..|q| - 1]) && Within(m, now, h, q, q[|q| - 1])
  {
    WithoutLast(q);
    RemoveIsList(m, h, q, |q| - 1, q[..|q| - 1], now);
  }

  lemma RemoveLinks(m: seq<nat>, h: nat, q: seq<nat>, k: nat, r: seq<nat>)
    requires IsList(m, h, q) && k < |q| && r == q[..k] + q[k + 1..]
    ensures var e := Extended(h, q); Linked(Unspliced(m, e[k], e[k + 2]), Extended(h, r))
    ensures Separate(h, r)
  {
    SeparateSpread(h, q);
    RemoveSeparate(h, q, k);
    ExtendedRemove(h, q, k);
    UnspliceLinks(m, Extended(h, q), k + 1);
  }

  lemma RemoveWithin(m: seq<nat>, h: nat, q: seq<nat>, k: nat)
    requires IsList(m, h, q) && k < |q|
    ensures var e := Extended(h, q);
      var now := Sized(Unspliced(m, e[k], e[k + 2]), h, |q| - 1);
      Within(m, now, h, q, q[k]) && now[h + 1] == 0
  {
    OwnsExtended(h, q, k);
    OwnsExtended(h, q, k + 2);
    TailStays(h, q, k);
    TailStays(h, q, k + 2);
  }

  class ListMemory {
    const mem: array<nat>

    constructor (mem: array<nat>)
      ensures this.mem == mem
    {
      this.mem := mem;
    }

    // src/list.c:52-58
    method NewList(l: nat)
      requires 0 < l && l + 4 <= mem.Length
      modifies mem
      ensures IsList(mem[..], l, []) && Within(old(mem[..]), mem[..], l, [], l)
    {
      mem[l] := l + 1;
      mem[l + 1] := 0;
      mem[l + 2] := l;
      mem[l + 3] := 0;
    }

    // src/list.c:66-76
    method AddHead(l: nat, n: nat, ghost q: seq<nat>)
      requires IsList(mem[..], l, q) && Addable(mem[..], l, q, n)
      modifies mem
      ensures IsList(mem[..], l, [n] + q) && Within(old(mem[..]), mem[..], l, q, n)
    {
      ghost var m, e := mem[..], Extended(l, q);
      assert q[..0] + [n] + q[0..] == [n] + q;
      InsertIsList(m, l, q, 0, n, [n] + q, Sized(Spliced(m, e[0], n, e[1]), l, |q| + 1));
      NeighboursAt(m, l, q, 0, n);
      LinkFirst(l, n, e[1], |q|);
    }

    // src/list.c:70-75
    method LinkFirst(l: nat, n: nat, ghost b: nat, ghost size: nat)
      requires Room(mem.Length, l, l, n, b) && mem[l] == b && mem[l + 3] == size
      modifies mem
      ensures mem[..] == Sized(Spliced(old(mem[..]), l, n, b), l, size + 1)
    {
      var t := mem[l];
      mem[l] := n;
      mem[n] := t;
      mem[t + 1] := n;
      mem[n + 1] := l;
      mem[l + 3] := mem[l + 3] + 1;
    }

    // src/list.c:84-94
    method AddTail(l: nat, n: nat, ghost q: seq<nat>)
      requires IsList(mem[..], l, q) && Addable(mem[..], l, q, n)
      modifies mem
      ensures IsList(mem[..], l, q + [n]) && Within(old(mem[..]), mem[..], l, q, n)
    {
      ghost var m, e := mem[..], Extended(l, q);
      assert q[..|q|] + [n] + q[|q|..] == q + [n];
      InsertIsList(m, l, q, |q|, n, q + [n], Sized(Spliced(m, e[|q|], n, e[|q| + 1]), l, |q| + 1));
      NeighboursAt(m, l, q, |q|, n);
      LinkLast(l, n, e[|q|], |q|);
    }

    // src/list.c:88-93
    method LinkLast(l: nat, n: nat, ghost a: nat, ghost size: nat)
      requires Room(mem.Length, l, a, n, l + 1) && mem[l + 2] == a && mem[l + 3] == size
      modifies mem
      ensures mem[..] == Sized(Spliced(old(mem[..]), a, n, l + 1), l, size + 1)
    {
      var t := mem[l + 2];
      mem[l + 2] := n;
      mem[n] := l + 1;
      mem[t] := n;
      mem[n + 1] := t;
      mem[l + 3] := mem[l + 3] + 1;
    }

    // src/list.c:102-112: before p.
    method Prepend(l: nat, p: nat, n: nat, ghost q: seq<nat>, ghost k: nat)
      requires IsList(mem[..], l, q) && Addable(mem[..], l, q, n) && k < |q| && q[k] == p
      modifies mem
      ensures IsList(mem[..], l, q[..k] + [n] + q[k..]) && Within(old(mem[..]), mem[..], l, q, n)
    {
      ghost var m, e := mem[..], Extended(l, q);
      InsertIsList(m, l, q, k, n, q[..k] + [n] + q[k..], Sized(Spliced(m, e[k], n, e[k + 1]), l, |q| + 1));
      NeighboursAt(m, l, q, k, n);
      LinkBefore(l, p, n, e[k], |q|);
    }

    // src/list.c:106-111
    method LinkBefore(l: nat, p: nat, n: nat, ghost a: nat, ghost size: nat)
      requires Room(mem.Length, l, a, n, p) && mem[p + 1] == a && mem[l + 3] == size
      modifies mem
      ensures mem[..] == Sized(Spliced(old(mem[..]), a, n, p), l, size + 1)
    {
      var t := mem[p + 1];
      mem[p + 1] := n;
      mem[n] := p;
      mem[n + 1] := t;
      mem[t] := n;
      mem[l + 3] := mem[l + 3] + 1;
    }

    // src/list.c:120-130: after p.
    method Insert(l: nat, p: nat, n: nat, ghost q: seq<nat>, ghost k: nat)
      requires IsList(mem[..], l, q) && Addable(mem[..], l, q, n) && k < |q| && q[k] == p
      modifies mem
      ensures IsList(mem[..], l, q[..k + 1] + [n] + q[k + 1..]) && Within(old(mem[..]), mem[..], l, q, n)
    {
      ghost var m, e := mem[..], Extended(l, q);
      InsertIsList(m, l, q, k + 1, n, q[..k + 1] + [n] + q[k + 1..],
                   Sized(Spliced(m, e[k + 1], n, e[k + 2]), l, |q| + 1));
      NeighboursAt(m, l, q, k + 1, n);
      LinkAfter(l, p, n, e[k + 2], |q|);
    }

    // src/list.c:124-129
    method LinkAfter(l: nat, p: nat, n: nat, ghost b: nat, ghost size: nat)
      requires Room(mem.Length, l, p, n, b) && mem[p] == b && mem[l + 3] == size
      modifies mem
      ensures mem[..] == Sized(Spliced(old(mem[..]), p, n, b), l, size + 1)
    {
      var t := mem[p];
      mem[p] := n;
      mem[n + 1] := p;
      mem[n] := t;
      mem[t + 1] := n;
      mem[l + 3] := mem[l + 3] + 1;
    }

    // src/list.c:138-143
    method Remove(l: nat, n: nat, ghost q: seq<nat>, ghost k: nat)
      requires IsList(mem[..], l, q) && k < |q| && q[k] == n
      modifies mem
      ensures IsList(mem[..], l, q[..k] + q[k + 1..]) && Within(old(mem[..]), mem[..], l, q, n)
    {
      ghost var m, e := mem[..], Extended(l, q);
      ghost var now := Sized(Unspliced(m, e[k], e[k + 2]), l, |q| - 1);
      RemoveIsList(m, l, q, k, q[..k] + q[k + 1..], now);
      NodeAt(m, l, q, k);
      Unlink(l, n, e[k], e[k + 2], |q|);
      assert mem[..] == now;
    }

    // src/list.c:140-142
    method Unlink(l: nat, n: nat, ghost a: nat, ghost b: nat, ghost size: nat)
      requires Gap(mem.Length, l, a, n, b) && mem[n] == b && mem[n + 1] == a && mem[l + 3] == size > 0
      modifies mem
      ensures mem[..] == Sized(Unspliced(old(mem[..]), a, b), l, size - 1)
    {
      mem[mem[n + 1]] := mem[n];
      mem[mem[n] + 1] := mem[n + 1];
      mem[l + 3] := mem[l + 3] - 1;
    }

    // src/list.c:152-163
    method RemHead(l: nat, ghost q: seq<nat>) returns (t: nat)
      requires IsList(mem[..], l, q)
      modifies mem
      ensures q == [] ==> t == 0 && mem[..] == old(mem[..])
      ensures q != [] ==> t == q[0] && IsList(mem[..], l, q[1..]) && Within(old(mem[..]), mem[..], l, q, t)
    {
      if mem[l + 3] == 0 {
        return 0;
      }
      ghost var m, e := mem[..], Extended(l, q);
      ghost var now := Sized(Unspliced(m, e[0], e[2]), l, |q| - 1);
      RemoveFirst(m, l, q, now);
      NodeAt(m, l, q, 0);
      t := UnlinkHead(l, q[0], e[2], |q|);
      assert mem[..] == now;
    }

    // src/list.c:158-162
    method UnlinkHead(l: nat, ghost n: nat, ghost b: nat, ghost size: nat) returns (t: nat)
      requires Gap(mem.Length, l, l, n, b) && mem[l] == n && mem[n] == b && mem[l + 3] == size > 0
      modifies mem
      ensures t == n && mem[..] == Sized(Unspliced(old(mem[..]), l, b), l, size - 1)
    {
      t := mem[l];
      mem[l] := mem[t];
      mem[mem[l] + 1] := l;
      mem[l + 3] := mem[l + 3] - 1;
    }

    // src/list.c:172-183
    method RemTail(l: nat, ghost q: seq<nat>) returns (t: nat)
      requires IsList(mem[..], l, q)
      modifies mem
      ensures q == [] ==> t == 0 && mem[..] == old(mem[..])
      ensures q != [] ==>
        t == q[|q| - 1] && IsList(mem[..], l, q[..|q| - 1]) && Within(old(mem[..]), mem[..], l, q, t)
    {
      if mem[l + 3] == 0 {
        return 0;
      }
      ghost var m, e, k := mem[..], Extended(l, q), |q| - 1;
      ghost var now := Sized(Unspliced(m, e[k], e[k + 2]), l, |q| - 1);
      RemoveLast(m, l, q, now);
      NodeAt(m, l, q, k);
      LastIs(m, l, q);
      t := UnlinkTail(l, e[k], q[k], |q|);
      assert mem[..] == now;
    }

    // src/list.c:178-182
    method UnlinkTail(l: nat, ghost a: nat, ghost n: nat, ghost size: nat) returns (t: nat)
      requires Gap(mem.Length, l, a, n, l + 1) && mem[l + 2] == n && mem[n + 1] == a && mem[l + 3] == size > 0
      modifies mem
      ensures t == n && mem[..] == Sized(Unspliced(old(mem[..]), a, l + 1), l, size - 1)
    {
      t := mem[l + 2];
      mem[l + 2] := mem[t + 1];
      mem[mem[l + 2]] := l + 1;
      mem[l + 3] := mem[l + 3] - 1;
    }
  }

  // The words that change are different ones: when n goes between a and b, and
  // when it is taken out from between them.
  predicate Room(length: nat, l: nat, a: nat, n: nat, b: nat) {
    && l + 4 <= length && a < length && b + 1 < length && n + 1 < length
    && a != b + 1 && a != l + 3 && b + 1 != l + 3
    && !InNode(n, a) && !InNode(n, b + 1) && !InNode(n, l + 3)
  }

  predicate Gap(length: nat, l: nat, a: nat, n: nat, b: nat) {
    && l + 4 <= length && a < length && b + 1 < length && n + 1 < length
    && a != b + 1 && a != l + 3 && b + 1 != l + 3
    && a != n && a != n + 1 && b + 1 != n + 1 && b + 1 != n
  }

  lemma LastIs(m: seq<nat>, h: nat, q: seq<nat>)
    requires IsList(m, h, q)
    ensures m[h + 2] == Extended(h, q)[|q|]
  {
    var e := Extended(h, q);
    assert m[e[|q| + 1] + 1] == e[|q|];
  }

  // The pointers between two neighbours, neither of which is the new node.
  lemma NeighboursAt(m: seq<nat>, h: nat, q: seq<nat>, k: nat, n: nat)
    requires IsList(m, h, q) && k <= |q| && Addable(m, h, q, n)
    ensures var e := Extended(h, q);
      Room(|m|, h, e[k], n, e[k + 1]) && m[e[k]] == e[k + 1] && m[e[k + 1] + 1] == e[k]
  {
    SeparateSpread(h, q);
    var e := Extended(h, q);
    assert 1 <= k ==> e[k] == q[k - 1] && Clear(h, q[k - 1]);
    assert k < |q| ==> e[k + 1] == q[k] && Clear(h, q[k]);
  }

  lemma NodeAt(m: seq<nat>, h: nat, q: seq<nat>, k: nat)
    requires IsList(m, h, q) && k < |q|
    ensures var e := Extended(h, q);
      && Gap(|m|, h, e[k], q[k], e[k + 2])
      && e[k + 1] == q[k] && m[q[k]] == e[k + 2] && m[q[k] + 1] == e[k] && m[e[k]] == q[k]
  {
    var e := Extended(h, q);
    NodeGap(|m|, h, q, k);
    assert m[e[k + 1]] == e[k + 2] && m[e[k + 1] + 1] == e[k] && m[e[k]] == e[k + 1];
  }

  lemma NodeGap(length: nat, h: nat, q: seq<nat>, k: nat)
    requires Separate(h, q) && k < |q| && h + 4 <= length
    requires forall i :: 0 <= i < |q| + 2 ==> Extended(h, q)[i] + 1 < length
    ensures Gap(length, h, Extended(h, q)[k], q[k], Extended(h, q)[k + 2])
  {
    var e := Extended(h, q);
    Apart(h, q, k, k + 1, e[k], e[k + 1]);
    Apart(h, q, k + 1, k + 2, e[k + 1], e[k + 2]);
    Apart(h, q, k, k + 2, e[k], e[k + 2]);
    SizeFieldApart(h, q, k);
    SizeFieldApart(h, q, k + 2);
  }

  lemma Apart(h: nat, q: seq<nat>, i: nat, j: nat, x: nat, y: nat)
    requires Separate(h, q) && i < |q| + 1 && i < j < |q| + 2
    requires x == Extended(h, q)[i] && y == Extended(h, q)[j]
    ensures x != y && x != y + 1
  {
    SeparateAt(h, q, i, j);
  }

  lemma SizeFieldApart(h: nat, q: seq<nat>, i: nat)
    requires Separate(h, q) && i < |q| + 2
    ensures Extended(h, q)[i] != h + 3 && Extended(h, q)[i] + 1 != h + 3
  {
    assert 1 <= i <= |q| ==> Extended(h, q)[i] == q[i - 1] && Clear(h, q[i - 1]);
  }

  // Two lists have no word in common.
  ghost predicate Disjoint(l: nat, q: seq<nat>, n: nat, r: seq<nat>) {
    && (l + 4 <= n || n + 4 <= l)
    && (forall i :: 0 <= i < |r| ==> Clear(l, r[i])) && (forall i :: 0 <= i < |q| ==> Clear(n, q[i]))
    && (forall i, j :: 0 <= i < |q| && 0 <= j < |r| ==> q[i] + 2 <= r[j] || r[j] + 2 <= q[i])
  }

  // An operation on one list leaves any other list as it is.
  lemma OtherList(m: seq<nat>, now: seq<nat>, h: nat, q: seq<nat>, n: nat, l: nat, r: seq<nat>)
    requires Within(m, now, h, q, n) && IsList(m, l, r) && Disjoint(h, q, l, r)
    requires Clear(l, n) && forall i :: 0 <= i < |r| ==> r[i] + 2 <= n || n + 2 <= r[i]
    ensures IsList(now, l, r)
  {
    var e := Extended(l, r);
    forall i | 0 <= i < |e|
      ensures i < |e| - 1 ==> now[e[i]] == m[e[i]]
      ensures i > 0 ==> now[e[i] + 1] == m[e[i] + 1]
    {
      NotOwned(h, q, n, l, r, i);
    }
    NotOwned(h, q, n, l, r, 0);
  }

  lemma NotOwned(h: nat, q: seq<nat>, n: nat, l: nat, r: seq<nat>, i: nat)
    requires Disjoint(h, q, l, r) && Clear(l, n) && i < |r| + 2
    requires forall j :: 0 <= j < |r| ==> r[j] + 2 <= n || n + 2 <= r[j]
    ensures forall x :: InHead(l, x) ==> !Owns(h, q, x) && !InNode(n, x)
    ensures var y := Extended(l, r)[i];
      !Owns(h, q, y) && !InNode(n, y) && !Owns(h, q, y + 1) && !InNode(n, y + 1)
  {
    if 1 <= i <= |r| {
      assert Extended(l, r)[i] == r[i - 1] && Clear(h, r[i - 1]);
    }
  }
}
