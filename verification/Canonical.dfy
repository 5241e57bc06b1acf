// The free blocks are determined by the used ones: whatever the library has
// done, two sound heaps over the same memory with the same used blocks have
// the same list.  Hence allocating and freeing restores the free space.
module Canonical {
  import opened Blocks
  import opened Heap
  import opened Resizing

  function Used(s: seq<Block>): set<Block> {
    if s == [] then {} else (if s[0].Free? then {} else {s[0]}) + Used(s[1..])
  }

  lemma {:induction false} InUsed(s: seq<Block>, b: Block)
    ensures b in Used(s) <==> b in s && !b.Free?
  {
    if s != [] {
      InUsed(s[1..], b);
      assert b in s <==> b == s[0] || b in s[1..];
    }
  }

  // One block of the list covers x, and x determines it.
  lemma OnlyOne(c: Config, s: seq<Block>, i: nat, j: nat, x: int)
    requires c.page > 0 && Chain(c, s) && i < |s| && j < |s|
    ensures Lo(c, s[i]) <= x < Hi(c, s[i]) && Lo(c, s[j]) <= x < Hi(c, s[j]) ==> i == j
  {
  }

  // An address in a free block of s lies in a free block of t.
  lemma FreeInBoth(c: Config, s: seq<Block>, t: seq<Block>, i: nat, x: int) returns (j: nat)
    requires c.page > 0 && Chain(c, s) && Chain(c, t)
    requires forall y :: Covers(c, s, y) <==> Covers(c, t, y)
    requires Used(t) == Used(s)
    requires i < |s| && s[i].Free? && Lo(c, s[i]) <= x < Hi(c, s[i])
    ensures j < |t| && t[j].Free? && Lo(c, t[j]) <= x < Hi(c, t[j])
  {
    assert Covers(c, s, x);
    j :| 0 <= j < |t| && Lo(c, t[j]) <= x < Hi(c, t[j]);
    var b := t[j];
    InUsed(t, b);
    InUsed(s, b);
    assert !b.Free? ==> b in s;
  }

  // No free block starts where another one ends.
  lemma NothingBorders(c: Config, s: seq<Block>, i: nat, j: nat)
    requires c.page > 0 && Chain(c, s) && NoBorder(c, s)
    requires i < |s| && j < |s| && s[i].Free? && s[j].Free?
    ensures Hi(c, s[i]) != Lo(c, s[j])
  {
    LoBelowHi(c, s[i]);
    LoBelowHi(c, s[j]);
    if i + 1 < j {
      LoBelowHi(c, s[i + 1]);
      assert Hi(c, s[i]) <= Lo(c, s[i + 1]) && Hi(c, s[i + 1]) <= Lo(c, s[j]);
    } else if i + 1 == j {
      assert !Borders(c, s[j - 1], s[j]);
    }
  }

  // A free block of t around the start of a free block of s does not begin
  // before it.
  lemma StartsNoEarlier(c: Config, s: seq<Block>, t: seq<Block>, i: nat, j: nat)
    requires c.page > 0 && Chain(c, s) && Chain(c, t) && NoBorder(c, s)
    requires forall y :: Covers(c, s, y) <==> Covers(c, t, y)
    requires Used(s) == Used(t)
    requires i < |s| && j < |t| && s[i].Free? && t[j].Free?
    requires Lo(c, t[j]) <= Lo(c, s[i]) < Hi(c, t[j])
    ensures Lo(c, t[j]) == Lo(c, s[i])
  {
    if Lo(c, t[j]) < Lo(c, s[i]) {
      var k := FreeInBoth(c, t, s, j, Lo(c, s[i]) - 1);
      LoBelowHi(c, s[i]);
      NothingBorders(c, s, k, i);
    }
  }

  lemma EndsNoLater(c: Config, s: seq<Block>, t: seq<Block>, i: nat, j: nat)
    requires c.page > 0 && Chain(c, s) && Chain(c, t) && NoBorder(c, s)
    requires forall y :: Covers(c, s, y) <==> Covers(c, t, y)
    requires Used(s) == Used(t)
    requires i < |s| && j < |t| && s[i].Free? && t[j].Free?
    requires Lo(c, t[j]) == Lo(c, s[i])
    ensures Hi(c, t[j]) <= Hi(c, s[i])
  {
    LoBelowHi(c, s[i]);
    if Hi(c, s[i]) < Hi(c, t[j]) {
      var k := FreeInBoth(c, t, s, j, Hi(c, s[i]));
      NothingBorders(c, s, i, k);
    }
  }

  // The two lists tile the same addresses with the same used blocks.
  ghost predicate Alike(c: Config, s: seq<Block>, t: seq<Block>) {
    && c.page > 0 && Chain(c, s) && Chain(c, t) && NoBorder(c, s) && NoBorder(c, t)
    && (forall y :: Covers(c, s, y) <==> Covers(c, t, y))
    && Used(s) == Used(t)
  }

  lemma FreeMatch(c: Config, s: seq<Block>, t: seq<Block>, i: nat) returns (j: nat)
    requires Alike(c, s, t) && i < |s| && s[i].Free?
    ensures j < |t| && t[j].Free? && Lo(c, t[j]) == Lo(c, s[i]) && Hi(c, t[j]) == Hi(c, s[i])
  {
    LoBelowHi(c, s[i]);
    j := FreeInBoth(c, s, t, i, Lo(c, s[i]));
    StartsNoEarlier(c, s, t, i, j);
    EndsNoLater(c, s, t, i, j);
    EndsNoLater(c, t, s, j, i);
  }

  lemma Shared(c: Config, s: seq<Block>, t: seq<Block>, b: Block)
    requires Alike(c, s, t) && b in s
    ensures b in t
  {
    if b.Free? {
      var i :| 0 <= i < |s| && s[i] == b;
      var j := FreeMatch(c, s, t, i);
      var d := t[j];
      assert b == Free(b.start, b.size) && d == Free(d.start, d.size);
    } else {
      InUsed(s, b);
      InUsed(t, b);
    }
  }

  lemma {:induction false} SameElements(s: seq<Block>, t: seq<Block>)
    requires Ascending(s) && Ascending(t)
    requires forall b :: b in s <==> b in t
    ensures s == t
  {
    if s == [] {
      assert forall i :: 0 <= i < |t| ==> t[i] in s;
    } else {
      assert s[0] in t && t != [] && t[0] in s;
      assert s[0] == t[0];
      assert s == [s[0]] + s[1..] && t == [t[0]] + t[1..];
      assert s[0] !in s[1..] && t[0] !in t[1..];
      assert forall b :: b in s <==> b == s[0] || b in s[1..];
      assert forall b :: b in t <==> b == t[0] || b in t[1..];
      SameElements(s[1..], t[1..]);
    }
  }

  // The list is a function of the used blocks and of the memory obtained.
  lemma ListIsCanonical(c: Config, st: State, su: State)
    requires Sound(c, st) && Sound(c, su)
    requires st.owned == su.owned && Used(st.list) == Used(su.list)
    ensures st.list == su.list
  {
    var s, t := st.list, su.list;
    assert Alike(c, s, t) && Alike(c, t, s);
    forall b
      ensures b in s <==> b in t
    {
      if b in s {
        Shared(c, s, t, b);
      }
      if b in t {
        Shared(c, t, s, b);
      }
    }
    ChainAscends(c, s);
    ChainAscends(c, t);
    SameElements(s, t);
  }

  lemma UsedSplice(s: seq<Block>, i: nat, k: nat, m: seq<Block>)
    requires i + k <= |s|
    ensures Used(s) == Used(s[..i]) + Used(s[i..i + k]) + Used(s[i + k..])
    ensures Used(Splice(s, i, k, m)) == Used(s[..i]) + Used(m) + Used(s[i + k..])
  {
    assert s == s[..i] + s[i..i + k] + s[i + k..];
    UsedConcat(s[..i], s[i..i + k], s[i + k..]);
    UsedConcat(s[..i], m, s[i + k..]);
  }

  lemma {:induction false} UsedTwo(a: seq<Block>, b: seq<Block>)
    ensures Used(a + b) == Used(a) + Used(b)
  {
    if a == [] {
      assert a + b == b;
    } else {
      assert (a + b)[1..] == a[1..] + b;
      UsedTwo(a[1..], b);
    }
  }

  lemma UsedConcat(a: seq<Block>, b: seq<Block>, d: seq<Block>)
    ensures Used(a + b + d) == Used(a) + Used(b) + Used(d)
  {
    UsedTwo(a + b, d);
    UsedTwo(a, b);
  }

  lemma {:induction false} NoneUsed(s: seq<Block>)
    requires forall i :: 0 <= i < |s| ==> s[i].Free?
    ensures Used(s) == {}
  {
    if s != [] {
      NoneUsed(s[1..]);
    }
  }

  // Replacing a run of free blocks by a free block.
  lemma UsedRun(s: seq<Block>, j: nat, n: nat, b: Block)
    requires j + n <= |s| && b.Free?
    requires forall x :: j <= x < j + n ==> s[x].Free?
    ensures Used(Splice(s, j, n, [b])) == Used(s)
  {
    UsedSplice(s, j, n, [b]);
    var run := s[j..j + n];
    assert forall x :: 0 <= x < n ==> run[x] == s[j + x];
    NoneUsed(run);
    NoneUsed([b]);
  }

  lemma UsedCoalesced(c: Config, s: seq<Block>, i: nat)
    requires c.page > 0 && i < |s| && s[i].Free?
    ensures Used(Coalesced(c, s, i)) == Used(s)
  {
    var j, k := MergeFrom(c, s, i), MergeTo(c, s, i);
    UsedRun(s, j, k - j, Free(s[j].start, RunSize(s, j, k)));
  }

  // Releasing a used block takes it, and only it, from the used ones.
  lemma UsedRelease(c: Config, st: State, i: nat)
    requires Sound(c, st) && i < |st.list| && !st.list[i].Free?
    ensures Used(Release(c, st, i).list) == Used(st.list) - {st.list[i]}
  {
    var s, b := st.list, st.list[i];
    LoBelowHi(c, b);
    assert BlockOk(c, b);
    var f := Vacated(c, b);
    UsedCoalesced(c, Splice(s, i, 1, [f]), i);
    UsedReplace(c, s, i, f);
  }

  lemma UsedReplace(c: Config, s: seq<Block>, i: nat, f: Block)
    requires c.page > 0 && Chain(c, s) && i < |s| && !s[i].Free? && f.Free?
    ensures Used(Splice(s, i, 1, [f])) == Used(s) - {s[i]}
  {
    UsedSplice(s, i, 1, [f]);
    assert s[i..i + 1] == [s[i]] + [];
    NoneUsed([f]);
    UsedFirst(s[i], []);
    UsedOnce(c, s, i);
    DropMiddle(Used(s[..i]), {s[i]}, Used(s[i + 1..]), s[i]);
  }

  lemma UsedOnce(c: Config, s: seq<Block>, i: nat)
    requires c.page > 0 && Chain(c, s) && i < |s|
    ensures s[i] !in Used(s[..i]) && s[i] !in Used(s[i + 1..])
  {
    StartsDistinct(c, s, i);
    InUsed(s[..i], s[i]);
    InUsed(s[i + 1..], s[i]);
  }

  // A block that splitnode carves from a free block and that is then freed,
  // with any number of other steps in between that end with the same other
  // used blocks, leaves the list exactly as it was: in particular allocating
  // and freeing again, in either page mode and after in-place resizes.
  lemma FreeRestores(c: Config, before: State, after: State, i: nat)
    requires Sound(c, before) && Sound(c, after) && i < |after.list| && after.list[i].Live?
    requires before.owned == after.owned
    requires Used(after.list) == Used(before.list) + {after.list[i]}
    requires after.list[i] !in Used(before.list)
    ensures Release(c, after, i).list == before.list
  {
    UsedRelease(c, after, i);
    ReleaseSound(c, after, i);
    ListIsCanonical(c, Release(c, after, i), before);
  }

  // Allocating and freeing again restores the list of blocks, and outside page
  // mode every byte of memory too.
  lemma CarveReleaseRestores(c: Config, st: State, i: nat, l: nat, a: nat, info: Info)
    requires Sound(c, st) && i < |st.list|
    requires Request(c, st.list[i], l, a) && CanHold(c, st.list[i], l, a)
    ensures var mid := Carve(c, st, i, l, a, info);
            var k := i + |LeftPart(c, st.list[i], a)|;
            && k < |mid.list| && mid.list[k].Live?
            && Release(c, mid, k).list == st.list
            && (!c.pageAlloc ==> Release(c, mid, k).mem == st.mem)
  {
    var mid := Carve(c, st, i, l, a, info);
    var k := i + |LeftPart(c, st.list[i], a)|;
    CarveLaid(c, st, i, l, a, info);
    UsedCarved(c, st, i, l, a, info);
    FreeRestores(c, st, mid, k);
    if !c.pageAlloc {
      CarveReleaseMem(c, st, i, l, a, info, k);
    }
  }

  lemma UsedCarved(c: Config, st: State, i: nat, l: nat, a: nat, info: Info)
    requires Sound(c, st) && i < |st.list|
    requires Request(c, st.list[i], l, a) && CanHold(c, st.list[i], l, a)
    ensures var s := Carve(c, st, i, l, a, info).list;
            var k := i + |LeftPart(c, st.list[i], a)|;
            && k < |s| && s[k] == CarvedBlock(c, st.list[i], l, a, info)
            && Used(s) == Used(st.list) + {s[k]} && s[k] !in Used(st.list)
  {
    var b := st.list[i];
    var n, p := CarvedBlock(c, b, l, a, info), LeftPart(c, b, a);
    var parts := p + [n] + RightPart(c, b, l, a);
    OneUsed(p, n, RightPart(c, b, l, a));
    UsedReplaced(st.list, i, parts);
    var s := Splice(st.list, i, 1, parts);
    assert s[i + |p|] == parts[|p|] == n;
    NewBlock(c, st, i, l, a, info);
  }

  lemma OneUsed(p: seq<Block>, n: Block, q: seq<Block>)
    requires !n.Free? && (forall x :: 0 <= x < |p| ==> p[x].Free?) && forall x :: 0 <= x < |q| ==> q[x].Free?
    ensures Used(p + [n] + q) == {n}
  {
    UsedConcat(p, [n], q);
    NoneUsed(p);
    NoneUsed(q);
    assert Used([n]) == {n};
  }

  lemma UsedReplaced(s: seq<Block>, i: nat, m: seq<Block>)
    requires i < |s| && s[i].Free?
    ensures Used(Splice(s, i, 1, m)) == Used(s) + Used(m)
  {
    UsedSplice(s, i, 1, m);
    assert s[i..i + 1] == [s[i]];
    NoneUsed([s[i]]);
  }

  lemma NewBlock(c: Config, st: State, i: nat, l: nat, a: nat, info: Info)
    requires Sound(c, st) && i < |st.list|
    requires Request(c, st.list[i], l, a) && CanHold(c, st.list[i], l, a)
    ensures CarvedBlock(c, st.list[i], l, a, info) !in Used(st.list)
  {
    var n := CarvedBlock(c, st.list[i], l, a, info);
    CarvedExtent(c, st.list[i], l, a, info);
    LoBelowHi(c, n);
    InUsed(st.list, n);
    var x := Lo(c, n);
    forall j | 0 <= j < |st.list| && !st.list[j].Free?
      ensures st.list[j] != n
    {
      OnlyOne(c, st.list, i, j, x);
    }
  }

  lemma CarveReleaseMem(c: Config, st: State, i: nat, l: nat, a: nat, info: Info, k: nat)
    requires Sound(c, st) && i < |st.list| && !c.pageAlloc
    requires Request(c, st.list[i], l, a) && CanHold(c, st.list[i], l, a)
    requires k < |Carve(c, st, i, l, a, info).list|
    requires Carve(c, st, i, l, a, info).list[k] == CarvedBlock(c, st.list[i], l, a, info)
    ensures Release(c, Carve(c, st, i, l, a, info), k).mem == st.mem
  {
    var b := st.list[i];
    var n := CarvedBlock(c, b, l, a, info);
    var mid := CarvedMem(c, st.mem, b, l, a);
    CarvedExtent(c, b, l, a, info);
    LoBelowHi(c, n);
    CarvedClean(c, st.mem, b, l, a, info);
    assert Clean(c, st.mem, b);
    var now := VacatedMem(c, mid, n);
    forall x | 0 <= x < |now|
      ensures now[x] == st.mem[x]
    {
    }
  }

  // A series of in-place resizes of block i.
  ghost predicate CanResizeAll(c: Config, st: State, i: nat, sizes: seq<nat>)
    requires c.page > 0
    decreases |sizes|
  {
    sizes == [] ||
    (&& i < |st.list| && st.list[i].Live? && 0 < sizes[0] && CanResize(c, st.list, i, sizes[0])
     && CanResizeAll(c, Resize(c, st, i, sizes[0]), i, sizes[1..]))
  }

  function ResizeAll(c: Config, st: State, i: nat, sizes: seq<nat>): State
    requires c.page > 0 && CanResizeAll(c, st, i, sizes)
    decreases |sizes|
  {
    if sizes == [] then st else ResizeAll(c, Resize(c, st, i, sizes[0]), i, sizes[1..])
  }

  // Block i is the one used block that st has on top of those of before.
  ghost predicate OneMore(before: State, st: State, i: nat) {
    && i < |st.list| && st.list[i].Live? && st.owned == before.owned
    && Used(st.list) == Used(before.list) + {st.list[i]} && st.list[i] !in Used(before.list)
  }

  lemma UsedResized(c: Config, s: seq<Block>, i: nat, l: nat)
    requires c.page > 0 && i < |s| && s[i].Live? && CanResize(c, s, i, l)
    ensures var k := RunLength(c, s, i);
            && Used(s) == Used(s[..i]) + {s[i]} + Used(s[i + k..])
            && Used(Splice(s, i, k, Resized(c, s, i, l)))
               == Used(s[..i]) + {Live(s[i].start, l, s[i].info)} + Used(s[i + k..])
  {
    var k := RunLength(c, s, i);
    UsedSplice(s, i, k, Resized(c, s, i, l));
    UsedAfterResize(c, s, i, l);
    UsedBeforeResize(c, s, i);
  }

  lemma UsedAfterResize(c: Config, s: seq<Block>, i: nat, l: nat)
    requires c.page > 0 && i < |s| && s[i].Live? && Need(c, s[i], l) <= Room(c, s, i)
    ensures Used(Resized(c, s, i, l)) == {Live(s[i].start, l, s[i].info)}
  {
    UsedFirst(Live(s[i].start, l, s[i].info), Leftover(c, s, i, l));
  }

  lemma UsedFirst(n: Block, rest: seq<Block>)
    requires !n.Free? && forall x :: 0 <= x < |rest| ==> rest[x].Free?
    ensures Used([n] + rest) == {n}
  {
    OneUsed([], n, rest);
    assert [] + [n] + rest == [n] + rest;
  }

  // The run that is resized holds one used block.
  lemma UsedBeforeResize(c: Config, s: seq<Block>, i: nat)
    requires c.page > 0 && i < |s| && s[i].Live?
    ensures Used(s[i..i + RunLength(c, s, i)]) == {s[i]}
  {
    var room := if HasRoom(c, s, i) then [s[i + 1]] else [];
    assert s[i..i + RunLength(c, s, i)] == [s[i]] + room;
    UsedFirst(s[i], room);
  }

  lemma ResizeOneMore(c: Config, before: State, st: State, i: nat, l: nat)
    requires Sound(c, st) && OneMore(before, st, i) && 0 < l && CanResize(c, st.list, i, l)
    requires l != st.list[i].size
    ensures OneMore(before, Resize(c, st, i, l), i)
  {
    var s, k := st.list, RunLength(c, st.list, i);
    var n := Live(s[i].start, l, s[i].info);
    UsedResized(c, s, i, l);
    NotElsewhere(c, s, i, k, n);
    SwapOne(Used(before.list), Used(s[..i]), Used(s[i + k..]), s[i], n);
    assert Resized(c, s, i, l)[0] == n;
  }

  lemma SwapOne<T>(a: set<T>, p: set<T>, q: set<T>, x: T, n: T)
    requires p + {x} + q == a + {x} && x !in a && x !in p && x !in q
    requires n !in p + {x} + q
    ensures p + {n} + q == a + {n} && n !in a
  {
    assert forall y :: y in a <==> y in p + q;
  }

  lemma NotElsewhere(c: Config, s: seq<Block>, i: nat, k: nat, n: Block)
    requires c.page > 0 && Chain(c, s) && 0 < k && i + k <= |s| && n.start == s[i].start && n != s[i]
    ensures s[i] !in Used(s[..i]) && s[i] !in Used(s[i + k..]) && n !in Used(s)
  {
    StartsDistinct(c, s, i);
    InUsed(s[..i], s[i]);
    InUsed(s[i + k..], s[i]);
    InUsed(s, n);
  }

  // However often a block is resized in place, freeing it restores the list
  // that was there before it was allocated.
  lemma {:induction false} ResizedFreeRestores(c: Config, before: State, st: State, i: nat, sizes: seq<nat>)
    requires Sound(c, before) && Sound(c, st) && OneMore(before, st, i)
    requires CanResizeAll(c, st, i, sizes)
    ensures i < |ResizeAll(c, st, i, sizes).list|
    ensures Release(c, ResizeAll(c, st, i, sizes), i).list == before.list
    decreases |sizes|
  {
    if sizes == [] {
      FreeRestores(c, before, st, i);
    } else {
      var now := Resize(c, st, i, sizes[0]);
      ResizeSound(c, st, i, sizes[0]);
      if sizes[0] == st.list[i].size {
        SameSize(c, st, i);
      } else {
        ResizeOneMore(c, before, st, i, sizes[0]);
      }
      ResizedFreeRestores(c, before, now, i, sizes[1..]);
    }
  }

  lemma SameSize(c: Config, st: State, i: nat)
    requires Sound(c, st) && i < |st.list| && st.list[i].Live? && CanResize(c, st.list, i, st.list[i].size)
    ensures Resize(c, st, i, st.list[i].size).list == st.list
  {
    var s, k := st.list, RunLength(c, st.list, i);
    assert s[i] == Live(s[i].start, s[i].size, s[i].info);
    if HasRoom(c, s, i) {
      assert BlockOk(c, s[i + 1]);
      assert s[i + 1] == Free(s[i + 1].start, s[i + 1].size);
      LoBelowHi(c, s[i]);
      assert s[i..i + 2] == [s[i], s[i + 1]];
    } else {
      assert s[i..i + 1] == [s[i]];
    }
    assert Resized(c, s, i, s[i].size) == s[i..i + k];
  }
}
