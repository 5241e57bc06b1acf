// The search trees of src/tree.c by their meaning: sets of entries, each a key
// and the node it belongs to.  A node is named by the address of its block.
// Keys may repeat in the tree of free blocks.
module SearchTrees {
  import opened Memory
  import opened Blocks

  // src/tree.c:329-350: the greatest key that is not above k.
  method SearchLower(t: set<(int, int)>, k: int) returns (r: Option<(int, int)>)
    ensures r.None? <==> forall e :: e in t ==> e.0 > k
    ensures r.Some? ==> r.value in t && r.value.0 <= k && forall e :: e in t && e.0 <= k ==> e.0 <= r.value.0
  {
    var rest := t;
    r := None;
    while rest != {}
      invariant rest <= t
      invariant r.None? ==> forall e :: e in t - rest ==> e.0 > k
      invariant r.Some? ==> r.value in t && r.value.0 <= k
                            && forall e :: e in t - rest && e.0 <= k ==> e.0 <= r.value.0
    {
      var e: (int, int) :| e in rest;
      if e.0 <= k && (r.None? || r.value.0 < e.0) {
        r := Some(e);
      }
      rest := rest - {e};
    }
  }

  // src/tree.c:356-377: the least key that is not below k.
  method SearchHigher(t: set<(int, int)>, k: int) returns (r: Option<(int, int)>)
    ensures r.None? <==> forall e :: e in t ==> e.0 < k
    ensures r.Some? ==> r.value in t && r.value.0 >= k && forall e :: e in t && e.0 >= k ==> e.0 >= r.value.0
  {
    var rest := t;
    r := None;
    while rest != {}
      invariant rest <= t
      invariant r.None? ==> forall e :: e in t - rest ==> e.0 < k
      invariant r.Some? ==> r.value in t && r.value.0 >= k
                            && forall e :: e in t - rest && e.0 >= k ==> e.0 >= r.value.0
    {
      var e: (int, int) :| e in rest;
      if e.0 >= k && (r.None? || r.value.0 > e.0) {
        r := Some(e);
      }
      rest := rest - {e};
    }
  }

  datatype Tag = InFree | InAlloc | InFreed

  function TagOf(b: Block): Tag {
    match b
    case Free(_, _) => InFree
    case Live(_, _, _) => InAlloc
    case Freed(_, _, _) => InFreed
  }

  // Free blocks are ordered by size, the others by address.
  function KeyOf(b: Block): nat {
    if b.Free? then b.size else b.start
  }

  function Entry(b: Block): (int, int) {
    (KeyOf(b), b.start)
  }

  // The entries that a tree should hold for the blocks of s.
  function Index(s: seq<Block>, t: Tag): set<(int, int)> {
    if s == [] then {} else (if TagOf(s[0]) == t then {Entry(s[0])} else {}) + Index(s[1..], t)
  }

  // The number of bytes in the blocks of one tree.
  function Total(s: seq<Block>, t: Tag): nat {
    if s == [] then 0 else (if TagOf(s[0]) == t then s[0].size else 0) + Total(s[1..], t)
  }

  // The three trees and the three totals of an allochead.
  datatype Trees = Trees(atree: set<(int, int)>, gtree: set<(int, int)>, ftree: set<(int, int)>,
                         asize: int, gsize: int, fsize: int)

  // What they should be for the blocks of s.
  function TreesOf(s: seq<Block>): Trees {
    Trees(Index(s, InAlloc), Index(s, InFreed), Index(s, InFree),
          Total(s, InAlloc), Total(s, InFreed), Total(s, InFree))
  }

  lemma {:induction false} TotalConcat(a: seq<Block>, b: seq<Block>, t: Tag)
    ensures Total(a + b, t) == Total(a, t) + Total(b, t)
  {
    if a == [] {
      assert a + b == b;
    } else {
      assert (a + b)[1..] == a[1..] + b;
      TotalConcat(a[1..], b, t);
    }
  }

  lemma TotalSplice(s: seq<Block>, i: nat, k: nat, m: seq<Block>, t: Tag)
    requires i + k <= |s|
    ensures Total(Splice(s, i, k, m), t) + Total(s[i..i + k], t) == Total(s, t) + Total(m, t)
  {
    assert s == s[..i] + s[i..i + k] + s[i + k..];
    TotalConcat(s[..i] + s[i..i + k], s[i + k..], t);
    TotalConcat(s[..i], s[i..i + k], t);
    TotalConcat(s[..i] + m, s[i + k..], t);
    TotalConcat(s[..i], m, t);
  }

  lemma {:induction false} IndexConcat(a: seq<Block>, b: seq<Block>, t: Tag)
    ensures Index(a + b, t) == Index(a, t) + Index(b, t)
  {
    if a == [] {
      assert a + b == b;
    } else {
      assert (a + b)[1..] == a[1..] + b;
      IndexConcat(a[1..], b, t);
    }
  }

  lemma {:induction false} IndexHas(s: seq<Block>, i: nat)
    requires i < |s|
    ensures Entry(s[i]) in Index(s, TagOf(s[i]))
  {
    if i > 0 {
      IndexHas(s[1..], i - 1);
    }
  }

  // An entry leads back to its block.
  lemma {:induction false} Lookup(s: seq<Block>, t: Tag, e: (int, int)) returns (i: nat)
    requires e in Index(s, t)
    ensures i < |s| && TagOf(s[i]) == t && Entry(s[i]) == e
  {
    if TagOf(s[0]) == t && Entry(s[0]) == e {
      i := 0;
    } else {
      i := Lookup(s[1..], t, e);
      i := i + 1;
    }
  }

  // No entry of one part of the list is an entry of a later part.
  lemma IndexApart(s: seq<Block>, i: nat, k: nat, t: Tag)
    requires Ascending(s) && i <= k <= |s|
    ensures Index(s[..i], t) !! Index(s[i..k], t)
    ensures Index(s[k..], t) !! Index(s[i..k], t)
  {
    forall e | e in Index(s[i..k], t)
      ensures e !in Index(s[..i], t) && e !in Index(s[k..], t)
    {
      var p := Lookup(s[i..k], t, e);
      if e in Index(s[..i], t) {
        var q := Lookup(s[..i], t, e);
      }
      if e in Index(s[k..], t) {
        var q := Lookup(s[k..], t, e);
      }
    }
  }

  lemma IndexSplice(s: seq<Block>, i: nat, k: nat, m: seq<Block>, t: Tag)
    requires Ascending(s) && i + k <= |s|
    ensures Index(Splice(s, i, k, m), t) == Index(s, t) - Index(s[i..i + k], t) + Index(m, t)
  {
    assert s == s[..i] + s[i..i + k] + s[i + k..];
    IndexConcat(s[..i] + s[i..i + k], s[i + k..], t);
    IndexConcat(s[..i], s[i..i + k], t);
    IndexConcat(s[..i] + m, s[i + k..], t);
    IndexConcat(s[..i], m, t);
    IndexApart(s, i, i + k, t);
  }

  lemma IndexOne(b: Block, t: Tag)
    ensures Index([b], t) == if TagOf(b) == t then {Entry(b)} else {}
    ensures Total([b], t) == if TagOf(b) == t then b.size else 0
  {
  }

  // Taking one block out of its tree, and putting one in.
  function Detach(t: Trees, b: Block): Trees {
    match b
    case Free(_, _) => t.(ftree := t.ftree - {Entry(b)}, fsize := t.fsize - b.size)
    case Live(_, _, _) => t.(atree := t.atree - {Entry(b)}, asize := t.asize - b.size)
    case Freed(_, _, _) => t.(gtree := t.gtree - {Entry(b)}, gsize := t.gsize - b.size)
  }

  function Attach(t: Trees, b: Block): Trees {
    match b
    case Free(_, _) => t.(ftree := t.ftree + {Entry(b)}, fsize := t.fsize + b.size)
    case Live(_, _, _) => t.(atree := t.atree + {Entry(b)}, asize := t.asize + b.size)
    case Freed(_, _, _) => t.(gtree := t.gtree + {Entry(b)}, gsize := t.gsize + b.size)
  }

  function Minus(t: Trees, u: Trees): Trees {
    Trees(t.atree - u.atree, t.gtree - u.gtree, t.ftree - u.ftree,
          t.asize - u.asize, t.gsize - u.gsize, t.fsize - u.fsize)
  }

  function Plus(t: Trees, u: Trees): Trees {
    Trees(t.atree + u.atree, t.gtree + u.gtree, t.ftree + u.ftree,
          t.asize + u.asize, t.gsize + u.gsize, t.fsize + u.fsize)
  }

  lemma SpliceTrees(s: seq<Block>, i: nat, k: nat, m: seq<Block>)
    requires Ascending(s) && i + k <= |s|
    ensures TreesOf(Splice(s, i, k, m)) == Plus(Minus(TreesOf(s), TreesOf(s[i..i + k])), TreesOf(m))
  {
    IndexSplice(s, i, k, m, InAlloc);
    IndexSplice(s, i, k, m, InFreed);
    IndexSplice(s, i, k, m, InFree);
    TotalSplice(s, i, k, m, InAlloc);
    TotalSplice(s, i, k, m, InFreed);
    TotalSplice(s, i, k, m, InFree);
  }

  lemma OneTree(t: Trees, b: Block)
    ensures Minus(t, TreesOf([b])) == Detach(t, b) && Plus(t, TreesOf([b])) == Attach(t, b)
  {
    IndexOne(b, InAlloc);
    IndexOne(b, InFreed);
    IndexOne(b, InFree);
  }

  lemma TreesConcat(a: seq<Block>, b: seq<Block>)
    ensures TreesOf(a + b) == Plus(TreesOf(a), TreesOf(b))
  {
    IndexConcat(a, b, InAlloc);
    IndexConcat(a, b, InFreed);
    IndexConcat(a, b, InFree);
    TotalConcat(a, b, InAlloc);
    TotalConcat(a, b, InFreed);
    TotalConcat(a, b, InFree);
  }

  lemma PlusMinus(t: Trees, u: Trees, v: Trees)
    ensures Minus(t, Plus(u, v)) == Minus(Minus(t, u), v)
    ensures Plus(t, Plus(u, v)) == Plus(Plus(t, u), v)
  {
  }

  lemma TwoTrees(t: Trees, a: Block, b: Block)
    ensures Minus(t, TreesOf([a, b])) == Detach(Detach(t, a), b)
    ensures Plus(t, TreesOf([a, b])) == Attach(Attach(t, a), b)
  {
    assert [a, b] == [a] + [b];
    TreesConcat([a], [b]);
    PlusMinus(t, TreesOf([a]), TreesOf([b]));
    OneTree(t, a);
    OneTree(Detach(t, a), b);
    OneTree(Attach(t, a), b);
  }

  // Replacing one block by another.
  lemma ReplaceTrees(s: seq<Block>, i: nat, b: Block)
    requires Ascending(s) && i < |s|
    ensures TreesOf(Splice(s, i, 1, [b])) == Attach(Detach(TreesOf(s), s[i]), b)
  {
    assert s[i..i + 1] == [s[i]];
    SpliceTrees(s, i, 1, [b]);
    OneTree(TreesOf(s), s[i]);
    OneTree(Detach(TreesOf(s), s[i]), b);
  }
}
