// The allocator of src/alloc.c: the block list, the queue of freed blocks,
// three search trees and three running totals, all updated in place.
module Allocator {
  import opened Memory
  import opened Rounding
  import opened Blocks
  import opened Heap
  import opened Resizing
  import opened SearchTrees

  // Got is the address of the new allocation.  NoRoom is the point where a
  // fresh heap block is too small for the request and its alignment padding,
  // so that the unsigned subtractions of splitnode would wrap around; Fault is
  // what happens there if an overflow buffer would be filled behind the end of
  // memory.
  datatype AllocResult = Got(block: nat) | NoMemory | NoRoom | Fault

  function AtLeastOne(l: nat): nat {
    if l == 0 then 1 else l
  }

  // src/alloc.c:334-339
  function AlignOf(c: Config, a: nat): (r: nat) {
    if a == 0 then c.align else if a > c.page then c.page else PowerOfTwo(a)
  }

  lemma AlignOfDivides(c: Config, a: nat)
    requires c.Valid()
    ensures 0 < AlignOf(c, a) <= c.page && c.page % AlignOf(c, a) == 0
    ensures IsPowerOfTwo(AlignOf(c, a))
  {
    if 0 < a <= c.page {
      PowerOfTwoIsLeast(a, c.page);
    }
    PowersDivide(AlignOf(c, a), c.page);
  }

  // Requests are small enough for their sums not to wrap around.
  predicate Bounded(c: Config, l: nat) {
    l + 2 * c.oflow + 2 * c.page < SIZE_MAX1
  }

  // The size that the free tree is searched for.
  function Want(c: Config, l: nat, a: nat): int {
    l + 2 * c.oflow + if c.pageAlloc then 0 else a - 1
  }

  ghost predicate NoFit(s: seq<Block>, want: int) {
    forall j :: 0 <= j < |s| && s[j].Free? ==> s[j].size < want
  }

  ghost predicate BestFit(c: Config, s: seq<Block>, i: nat, want: int) {
    && i < |s| && s[i].Free? && s[i].size >= want
    && forall j :: 0 <= j < |s| && s[j].Free? && s[j].size >= want ==> s[i].size <= s[j].size
  }

  // What the heap manager hands out for a request that it is asked for.
  ghost predicate Answers(c: Config, st: State, l: nat, a: nat, p: nat, size: nat) {
    && FreshRange(c, st, p, size)
    && RoundUp(l + 2 * c.oflow, c.page) <= size && size % c.page == 0
    && a > 0 && p % a == 0
  }

  function RoomEntry(c: Config, s: seq<Block>, i: nat): set<(int, int)>
    requires c.page > 0 && i < |s|
  {
    if HasRoom(c, s, i) then {Entry(s[i + 1])} else {}
  }

  // Shrinking a block with no free neighbour takes a new node.
  predicate NeedsNode(c: Config, s: seq<Block>, i: nat, l: nat)
    requires c.page > 0 && i < |s|
  {
    Need(c, s[i], l) < 0 && !HasRoom(c, s, i)
  }

  predicate Inside(b: Block, p: nat) {
    b.start <= p < b.start + b.size
  }

  // The extent of b meets the s bytes from p on, or contains p.
  predicate Meets(c: Config, b: Block, p: nat, s: nat)
    requires c.page > 0
  {
    p < Hi(c, b) && (Lo(c, b) <= p || Lo(c, b) < p + s)
  }

  // The request for fresh memory leaves room for the alignment padding.
  predicate Slack(c: Config, l: nat, a: nat)
    requires c.page > 0 && a > 0
  {
    c.pageAlloc ||
    RoundUp(l + 2 * c.oflow, c.page) - (l + 2 * c.oflow) >= RoundUp(c.oflow, a) - c.oflow
  }

  class AllocHead {
    const c: Config
    const mem: array<byte>
    var list: seq<Block>
    var flist: seq<nat>
    var fmax: nat
    var atree: set<(int, int)>
    var gtree: set<(int, int)>
    var ftree: set<(int, int)>
    var asize: int
    var gsize: int
    var fsize: int
    ghost var owned: set<int>

    ghost function View(): State
      reads this, mem
    {
      State(list, flist, fmax, mem[..], owned)
    }

    // The trees hold exactly the blocks of their kind under the right keys,
    // and the totals are the matching sums.
    ghost predicate Indexed()
      reads this
    {
      Fields() == TreesOf(list)
    }

    function Fields(): Trees
      reads this
    {
      Trees(atree, gtree, ftree, asize, gsize, fsize)
    }

    ghost predicate Valid()
      reads this, mem
    {
      Sound(c, View()) && Indexed() && mem.Length < SIZE_MAX1
    }

    // src/alloc.c:53-88: an empty allocator.
    constructor (c: Config, fmax: nat, mem: array<byte>)
      requires c.Valid() && mem.Length < SIZE_MAX1
      ensures Valid() && list == [] && flist == [] && this.c == c && this.mem == mem && this.fmax == fmax
      ensures owned == {}
    {
      this.c, this.mem, this.fmax := c, mem, fmax;
      list, flist := [], [];
      atree, gtree, ftree := {}, {}, {};
      asize, gsize, fsize := 0, 0, 0;
      owned := {};
    }

    // src/alloc.c:274-316; j is where the merged block ends up.
    method MergeNode(i: nat) returns (j: nat)
      requires c.page > 0 && Ascending(list) && Indexed() && i < |list| && list[i].Free?
      modifies this`list, this`ftree
      ensures list == Coalesced(c, old(list), i) && Indexed()
      ensures j == MergeFrom(c, old(list), i)
    {
      MergeSteps(c, list, i);
      var n := list[i];
      j := i;
      var k := i + 1;
      if i > 0 && list[i - 1].Free? && !(list[i - 1].start + list[i - 1].size < n.start) {
        j := i - 1;
      }
      if i + 1 < |list| && list[i + 1].Free? && !(n.start + n.size < list[i + 1].start) {
        k := i + 2;
      }
      if j < i || i + 1 < k {
        ghost var tree := ftree;
        ftree := ftree - {Entry(n)};
        var start, size := n.start, n.size;
        if j < i {
          ftree := ftree - {Entry(list[j])};
          start, size := list[j].start, size + list[j].size;
        }
        if i + 1 < k {
          ftree := ftree - {Entry(list[i + 1])};
          size := size + list[i + 1].size;
        }
        assert ftree == tree - MergedEntries(list, i, j, k);
        list := Splice(list, j, k - j, [Free(start, size)]);
        ftree := ftree + {Entry(Free(start, size))};
      } else {
        NothingToMerge(c, list, i);
      }
    }

    // src/alloc.c:152-268; left and right tell whether getnode finds a slot
    // for the left and the right part.  Without room for the request the size
    // of the right part wraps around, as Carve says.
    method SplitNode(i: nat, l: nat, a: nat, info: Info, left: bool, right: bool) returns (r: Option<nat>)
      requires c.page > 0 && Ascending(list) && Indexed() && i < |list|
      requires Splittable(c, list[i], l, a, mem.Length)
      modifies this`list, this`ftree, this`fsize, this`atree, this`asize, mem
      ensures Indexed()
      ensures r.Some? <==> left && right
      ensures r.None? ==> View() == old(View())
      ensures r.Some? ==> View() == Carve(c, old(View()), i, l, a, info)
      ensures r.Some? ==> r.value == CarvedBlock(c, old(list[i]), l, a, info).start
    {
      if !left || !right {
        return None;
      }
      var n := list[i];
      var p, q, base := CutParts(n, l, a);
      var block := FillAround(n, base, Span(c, l), l, a);
      var live := Live(block, l, info);
      var parts := p + [live] + q;
      assert parts == Carved(c, n, l, a, info);
      var next := Splice(list, i, 1, parts);
      PartsIndex(list, i, p, live, q, parts, next);
      list, atree, asize := next, atree + {Entry(live)}, asize + l;
      r := Some(block);
    }

    // src/alloc.c:164-216: take the free block out of its tree and put the
    // spare parts on its left and right back.
    method CutParts(n: Block, l: nat, a: nat) returns (p: seq<Block>, q: seq<Block>, block: nat)
      requires Splittable(c, n, l, a, mem.Length)
      modifies this`ftree, this`fsize
      ensures p == LeftPart(c, n, a) && q == RightPart(c, n, l, a) && Spare(p) && Spare(q)
      ensures block == n.start + c.oflow + Pad(c, n, a)
      ensures ftree == old(ftree) - {Entry(n)} + FreeEntries(p) + FreeEntries(q)
      ensures fsize == old(fsize) - n.size + FreeBytes(p) + FreeBytes(q)
    {
      ftree, fsize := ftree - {Entry(n)}, fsize - n.size;
      block := n.start + c.oflow;
      var size := n.size - 2 * c.oflow;
      var m := RoundUp(block, a) - block;
      p, q := [], [];
      if !c.pageAlloc && m > 0 {
        p := [Free(block - c.oflow, m)];
        ftree := ftree + {Entry(p[0])};
        block, size, fsize := block + m, size - m, fsize + m;
      }
      var s := if c.pageAlloc then RoundUp(l, c.page) else l;
      m := Wrap(size - s);
      if m > 0 {
        q := [Free(block + s + c.oflow, m)];
        ftree := ftree + {Entry(q[0])};
        fsize := fsize + m;
      }
    }

    // src/alloc.c:377-384: walk from the nearest allocated or freed block below
    // p to the place of p in the list.
    method Place(p: nat) returns (k: nat)
      requires Ascending(list) && Indexed() && (forall j :: 0 <= j < |list| ==> list[j].start != p)
      ensures k == Position(list, p)
    {
      k := 0;
      var t := SearchLower(atree, p);
      ghost var tag := InAlloc;
      if t.None? {
        t := SearchLower(gtree, p);
        tag := InFreed;
      }
      if t.Some? {
        ghost var i := FindEntry(list, tag, t.value);
        k := Position(list, t.value.1) + 1;
      }
      while k < |list| && list[k].start < p
        invariant k <= |list|
        invariant forall j :: 0 <= j < k ==> list[j].start < p
      {
        k := k + 1;
      }
    }

    // src/alloc.c:374-390: a fresh block joins the list in address order.
    method Insert(p: nat, size: nat) returns (k: nat)
      requires Ascending(list) && Indexed()
      requires forall j :: 0 <= j < |list| ==> list[j].start != p
      modifies this`list, this`ftree, this`fsize
      ensures k == Position(old(list), p) && list == Splice(old(list), k, 0, [Free(p, size)])
      ensures Ascending(list) && Indexed()
    {
      k := Place(p);
      InsertIndex(list, k, Free(p, size));
      PositionSplits(list, p);
      InsertAscends(list, k, Free(p, size));
      list := Splice(list, k, 0, [Free(p, size)]);
      ftree, fsize := ftree + {Entry(Free(p, size))}, fsize + size;
    }

    // src/alloc.c:367-395: memory from the heap manager is filled, inserted
    // and merged with its free neighbours.
    method Extend(p: nat, size: nat) returns (i: nat)
      requires c.page > 0 && Ascending(list) && Indexed() && 0 < size && p + size <= mem.Length
      requires forall j :: 0 <= j < |list| ==> list[j].start != p
      modifies this`list, this`ftree, this`fsize, this`owned, mem
      ensures Indexed() && View() == Grow(c, old(View()), p, size)
      ensures i < |list| && list[i].Free? && list[i].start <= p && p + size <= list[i].start + list[i].size
    {
      FillFresh(p, size);
      var k := Insert(p, size);
      owned := owned + Range(p, p + size);
      assert list[k] == Free(p, size);
      MergedHolds(c, list, k);
      i := MergeNode(k);
    }

    // src/alloc.c:370-373
    method FillFresh(p: nat, size: nat)
      requires p + size <= mem.Length
      modifies mem
      ensures mem[..] == FreshMem(c, old(mem[..]), p, size)
    {
      if !c.pageAlloc {
        MemSet(mem, p, c.fbyte, size);
      }
    }

    // src/alloc.c:323-402.  The heap manager's answer to a request for more
    // memory, and whether getnode finds slots, are inputs.  base is the state
    // in which block i is carved up.  The heap is sound afterwards if and only
    // if the block had room.
    method GetAlloc(l0: nat, a0: nat, info: Info, heap: Option<(nat, nat)>, node: bool, left: bool, right: bool)
      returns (r: AllocResult, ghost base: State, ghost i: nat)
      requires Valid() && Bounded(c, AtLeastOne(l0))
      requires heap.Some? ==> Answers(c, View(), AtLeastOne(l0), AlignOf(c, a0), heap.value.0, heap.value.1)
      modifies this`list, this`ftree, this`fsize, this`atree, this`asize, this`owned, mem
      ensures Indexed() && c.page > 0 && AlignOf(c, a0) > 0 && !r.NoRoom?
      ensures base == old(View()) || (heap.Some? && base == Grow(c, old(View()), heap.value.0, heap.value.1))
      ensures base == old(View()) && r.Got? ==> BestFit(c, base.list, i, Want(c, AtLeastOne(l0), AlignOf(c, a0)))
      ensures base != old(View()) ==> NoFit(old(list), Want(c, AtLeastOne(l0), AlignOf(c, a0)))
      ensures !r.Got? ==> View() == base && Valid()
      ensures r.Got? ==>
        && i < |base.list|
        && View() == Carve(c, base, i, AtLeastOne(l0), AlignOf(c, a0), info)
        && r.block == CarvedBlock(c, base.list[i], AtLeastOne(l0), AlignOf(c, a0), info).start
        && (Valid() <==> CanHold(c, base.list[i], AtLeastOne(l0), AlignOf(c, a0)))
      ensures Slack(c, AtLeastOne(l0), AlignOf(c, a0)) ==> Valid() && !r.Fault?
      ensures r.Fault? ==>
        && i < |base.list| && !CanHold(c, base.list[i], AtLeastOne(l0), AlignOf(c, a0))
        && !Splittable(c, base.list[i], AtLeastOne(l0), AlignOf(c, a0), mem.Length)
      ensures r.Got? || r.Fault? <==>
        left && right && (!NoFit(old(list), Want(c, AtLeastOne(l0), AlignOf(c, a0))) || (node && heap.Some?))
    {
      var l := if l0 == 0 then 1 else l0;
      var a := AlignOf(c, a0);
      AlignOfDivides(c, a0);
      var k := FindRoom(l, a, heap, node);
      base, i, r := View(), 0, NoMemory;
      if k.Some? && left && right {
        i := k.value;
        RequestOk(c, base, i, l, a);
        ChainAscends(c, list);
        RoomIsInMemory(c, list[i], l, a, mem.Length);
        r := SplitAnyway(k.value, l, a, info);
      }
    }

    method SplitAnyway(i: nat, l: nat, a: nat, info: Info) returns (r: AllocResult)
      requires Valid() && i < |list| && Request(c, list[i], l, a)
      modifies this`list, this`ftree, this`fsize, this`atree, this`asize, mem
      ensures Indexed() && r.Got? == Splittable(c, old(list[i]), l, a, mem.Length) && (r.Got? || r.Fault?)
      ensures r.Fault? ==> View() == old(View()) && Valid()
      ensures r.Got? ==>
        && View() == Carve(c, old(View()), i, l, a, info)
        && r.block == CarvedBlock(c, old(list[i]), l, a, info).start
        && (Valid() <==> CanHold(c, old(list[i]), l, a))
    {
      ChainAscends(c, list);
      if !Splittable(c, list[i], l, a, mem.Length) {
        return Fault;
      }
      CarveSoundIff(c, View(), i, l, a, info);
      var got := SplitNode(i, l, a, info, true, true);
      r := Got(got.value);
    }

    // The same for callers that stop where there is no room.
    method GetAllocIfRoom(l0: nat, a0: nat, info: Info, heap: Option<(nat, nat)>, node: bool, left: bool, right: bool)
      returns (r: AllocResult, ghost base: State, ghost i: nat)
      requires Valid() && Bounded(c, AtLeastOne(l0))
      requires heap.Some? ==> Answers(c, View(), AtLeastOne(l0), AlignOf(c, a0), heap.value.0, heap.value.1)
      modifies this`list, this`ftree, this`fsize, this`atree, this`asize, this`owned, mem
      ensures Valid()
      ensures base == old(View()) || (heap.Some? && base == Grow(c, old(View()), heap.value.0, heap.value.1))
      ensures !r.Got? ==> View() == base
      ensures !r.Fault?
      ensures r.Got? ==>
        && i < |base.list| && Request(c, base.list[i], AtLeastOne(l0), AlignOf(c, a0))
        && CanHold(c, base.list[i], AtLeastOne(l0), AlignOf(c, a0))
        && View() == Carve(c, base, i, AtLeastOne(l0), AlignOf(c, a0), info)
        && r.block == CarvedBlock(c, base.list[i], AtLeastOne(l0), AlignOf(c, a0), info).start
      // The smallest free block that is large enough is used, and the heap is
      // asked only when there is none.
      ensures r.Got? && base == old(View()) ==> BestFit(c, base.list, i, Want(c, AtLeastOne(l0), AlignOf(c, a0)))
      ensures base != old(View()) ==> NoFit(old(list), Want(c, AtLeastOne(l0), AlignOf(c, a0)))
      ensures r.NoRoom? ==>
        && base != old(View()) && i < |base.list| && base.list[i].Free?
        && base.list[i].start <= heap.value.0
        && heap.value.0 + heap.value.1 <= base.list[i].start + base.list[i].size
        && !CanHold(c, base.list[i], AtLeastOne(l0), AlignOf(c, a0))
      ensures (AlignOfDivides(c, a0); Slack(c, AtLeastOne(l0), AlignOf(c, a0)) ==> !r.NoRoom?)
      // With room and slots the request is met, and only then.
      ensures !r.NoRoom? ==>
        (r.Got? <==> left && right
                     && (!NoFit(old(list), Want(c, AtLeastOne(l0), AlignOf(c, a0))) || (node && heap.Some?)))
    {
      var l := if l0 == 0 then 1 else l0;
      var a := AlignOf(c, a0);
      AlignOfDivides(c, a0);
      var k := FindRoom(l, a, heap, node);
      base := View();
      if k.None? {
        return NoMemory, base, 0;
      }
      var n := k.value;
      i := n;
      if !CanHold(c, list[n], l, a) {
        return NoRoom, base, i;
      }
      RequestOk(c, base, i, l, a);
      ChainAscends(c, list);
      var got := SplitNode(n, l, a, info, left, right);
      if got.None? {
        return NoMemory, base, i;
      }
      CarveLaid(c, base, i, l, a, info);
      return Got(got.value), base, i;
    }

    // src/alloc.c:343-398: the free block to split, from the free tree or from
    // the heap manager.
    method FindRoom(l: nat, a: nat, heap: Option<(nat, nat)>, node: bool) returns (k: Option<nat>)
      requires Valid() && 0 < l && 0 < a
      requires heap.Some? ==> Answers(c, View(), l, a, heap.value.0, heap.value.1)
      modifies this`list, this`ftree, this`fsize, this`owned, mem
      ensures Valid()
      ensures k.None? ==> View() == old(View())
      ensures k.None? <==> NoFit(old(list), Want(c, l, a)) && !(node && heap.Some?)
      ensures k.Some? ==> k.value < |list| && list[k.value].Free?
      ensures k.Some? && View() == old(View()) ==>
        BestFit(c, list, k.value, Want(c, l, a)) && CanHold(c, list[k.value], l, a)
      ensures View() != old(View()) ==>
        && heap.Some? && k.Some?
        && View() == Grow(c, old(View()), heap.value.0, heap.value.1)
        && NoFit(old(list), Want(c, l, a))
        && list[k.value].start <= heap.value.0
        && heap.value.0 + heap.value.1 <= list[k.value].start + list[k.value].size
        && (Slack(c, l, a) ==> CanHold(c, list[k.value], l, a))
        && l + 2 * c.oflow <= list[k.value].size
    {
      k := BestFree(l, a);
      if k.Some? || !node || heap.None? {
        return;
      }
      var i := FreshRoom(l, a, heap.value.0, heap.value.1);
      k := Some(i);
    }

    // src/alloc.c:353-395: the free block that fresh memory became part of.
    method FreshRoom(l: nat, a: nat, p: nat, size: nat) returns (i: nat)
      requires Valid() && 0 < l && 0 < a && Answers(c, View(), l, a, p, size)
      modifies this`list, this`ftree, this`fsize, this`owned, mem
      ensures Valid() && View() == Grow(c, old(View()), p, size) && View() != old(View())
      ensures i < |list| && list[i].Free? && list[i].start <= p && p + size <= list[i].start + list[i].size
      ensures Slack(c, l, a) ==> CanHold(c, list[i], l, a)
      ensures l + 2 * c.oflow <= list[i].size
    {
      i := AddMemory(p, size);
      SlackSuffices(c, list[i], l, a, p, size);
    }

    // src/alloc.c:343-350
    method BestFree(l: nat, a: nat) returns (k: Option<nat>)
      requires Valid() && 0 < l && 0 < a
      ensures k.None? <==> NoFit(list, Want(c, l, a))
      ensures k.Some? ==> BestFit(c, list, k.value, Want(c, l, a)) && CanHold(c, list[k.value], l, a)
    {
      ChainAscends(c, list);
      var m := if c.pageAlloc then 0 else a - 1;
      var t := SearchHigher(ftree, l + 2 * c.oflow + m);
      if t.None? {
        NoFitMeans(list, ftree, Want(c, l, a));
        return None;
      }
      ghost var i := FindEntry(list, InFree, t.value);
      k := Some(Position(list, t.value.1));
      BestFitMeans(c, list, ftree, k.value, Want(c, l, a));
      FitHolds(c, list[k.value], l, a);
    }

    method AddMemory(p: nat, size: nat) returns (i: nat)
      requires Valid() && FreshRange(c, View(), p, size)
      modifies this`list, this`ftree, this`fsize, this`owned, mem
      ensures Valid() && View() == Grow(c, old(View()), p, size) && View() != old(View())
      ensures i < |list| && BlockOk(c, list[i]) && list[i].Free?
      ensures list[i].start <= p && p + size <= list[i].start + list[i].size
    {
      GrowSound(c, View(), p, size);
      GrowChanges(c, View(), p, size);
      FreshStart(c, View(), p, size);
      ChainAscends(c, list);
      i := Extend(p, size);
    }

    // src/alloc.c:583-588, 665-666 and 849-865: the extent of a used block,
    // from its address and size.
    method ExtentOf(n: Block) returns (b: nat, l: nat)
      requires c.page > 0 && !n.Free? && 0 < Lo(c, n)
      ensures b == Lo(c, n) && b + l == Hi(c, n)
    {
      var p, s := n.start, n.size;
      if c.pageAlloc {
        p := RoundDown(n.start, c.page);
        s := RoundUp(n.size + (n.start - p), c.page);
      }
      b, l := p - c.oflow, s + 2 * c.oflow;
    }

    // src/alloc.c:638-673 and 694-743: a block that has been taken out of its
    // tree becomes a free block.
    method Vacate(i: nat)
      requires c.page > 0 && Ascending(list) && i < |list| && !list[i].Free?
      requires Fields() == Detach(TreesOf(list), list[i])
      requires 0 < Lo(c, list[i]) <= Hi(c, list[i]) <= mem.Length
      requires Ascending(Splice(list, i, 1, [Vacated(c, list[i])]))
      modifies this`list, this`ftree, this`fsize, mem
      ensures Indexed() && View() == Release(c, old(View()), i)
    {
      FreeInPlace(i);
      var _ := MergeNode(i);
    }

    method FreeInPlace(i: nat)
      requires c.page > 0 && Ascending(list) && i < |list| && !list[i].Free?
      requires Fields() == Detach(TreesOf(list), list[i])
      requires 0 < Lo(c, list[i]) <= Hi(c, list[i]) <= mem.Length
      modifies this`list, this`ftree, this`fsize, mem
      ensures list == Splice(old(list), i, 1, [Vacated(c, old(list[i]))])
      ensures mem[..] == VacatedMem(c, old(mem[..]), old(list[i]))
      ensures Indexed()
    {
      var block, size := ExtentOf(list[i]);
      if !c.pageAlloc {
        MemSet(mem, block, c.fbyte, size);
      }
      var f := Free(block, size);
      assert f == Vacated(c, list[i]);
      ReplaceTrees(list, i, f);
      list := Splice(list, i, 1, [f]);
      ftree, fsize := ftree + {Entry(f)}, fsize + size;
    }

    // src/alloc.c:681-744
    method RecycleFreed()
      requires Valid() && flist != []
      modifies this`list, this`flist, this`ftree, this`fsize, this`gtree, this`gsize, mem
      ensures Valid() && View() == Recycle(c, old(View()))
      ensures flist == old(flist)[1..]
    {
      ghost var st := View();
      RecycleSound(c, st);
      QueueHead(c, st);
      ChainAscends(c, list);
      var i := Position(list, flist[0]);
      flist := flist[1..];
      gtree, gsize := gtree - {Entry(list[i])}, gsize - list[i].size;
      VacatedAscends(c, st, i);
      Vacate(i);
    }

    // src/alloc.c:566-674: p is the address of a live block; keep holds the
    // new details if the block is to be kept.
    method FreeAlloc(p: nat, keep: Option<Info>)
      requires Valid() && (exists b :: b in list && b.Live? && b.start == p)
      modifies this, mem
      ensures Valid() && View() == FreeBlock(c, old(View()), p, keep)
    {
      ghost var b :| b in list && b.Live? && b.start == p;
      FreeBlockSound(c, View(), b, keep);
      if keep.Some? && |flist| != 0 && |flist| == fmax {
        RecycleKeeps(c, View(), b);
        RecycleFreed();
      }
      ghost var k := LiveIndex(c, list, b);
      Dispose(p, keep);
    }

    // src/alloc.c:579-674, after any recycling.
    method Dispose(p: nat, keep: Option<Info>)
      requires Valid() && Position(list, p) < |list| && list[Position(list, p)].Live?
      modifies this, mem
      ensures Indexed() && fmax == old(fmax)
      ensures View() == if keep.None? then Release(c, old(View()), old(Position(list, p)))
                        else Retire(c, old(View()), old(Position(list, p)), keep.value)
    {
      var i := Position(list, p);
      ChainAscends(c, list);
      VacatedAscends(c, View(), i);
      if keep.Some? {
        LoBelowHi(c, list[i]);
        Keep(i, keep.value);
      } else {
        atree, asize := atree - {Entry(list[i])}, asize - list[i].size;
        Vacate(i);
      }
    }

    // src/alloc.c:581-582 and 600-637: the block goes to the end of the queue.
    method Keep(i: nat, info: Info)
      requires c.page > 0 && Ascending(list) && i < |list| && list[i].Live? && Indexed()
      requires list[i].start + list[i].size <= mem.Length
      modifies this`list, this`flist, this`atree, this`asize, this`gtree, this`gsize, mem
      ensures Indexed() && View() == Retire(c, old(View()), i, info)
    {
      var n := list[i];
      atree, asize := atree - {Entry(n)}, asize - n.size;
      if !c.pageAlloc && !c.preserve {
        MemSet(mem, n.start, c.fbyte, n.size);
      }
      var g := Freed(n.start, n.size, info);
      ReplaceTrees(list, i, g);
      list := Splice(list, i, 1, [g]);
      flist := flist + [n.start];
      gtree, gsize := gtree + {Entry(g)}, gsize + n.size;
    }

    // src/alloc.c:409-559: p is the address of a live block.
    method ResizeAlloc(p: nat, l0: nat, node: bool) returns (ok: bool)
      requires Valid() && Bounded(c, AtLeastOne(l0))
      requires Position(list, p) < |list| && list[Position(list, p)].Live?
      modifies this`list, this`ftree, this`fsize, this`asize, mem
      ensures Valid()
      ensures ok <==> var i, l := Position(old(list), p), AtLeastOne(l0);
                      CanResize(c, old(list), i, l) && (NeedsNode(c, old(list), i, l) ==> node)
      ensures ok ==> View() == Resize(c, old(View()), Position(old(list), p), AtLeastOne(l0))
      ensures !ok ==> View() == old(View())
    {
      if c.pageAlloc && c.upper {
        return false;
      }
      var l := if l0 == 0 then 1 else l0;
      var i := Position(list, p);
      ghost var st := View();
      ChainAscends(c, list);
      CanResizeTest(c, list, i, l);
      RoomInMemory(c, st, i);
      ok := ResizeAt(i, l, node);
      if ok {
        ResizeSound(c, st, i, l);
      }
    }

    method ResizeAt(i: nat, l: nat, node: bool) returns (ok: bool)
      requires c.page > 0 && i < |list| && list[i].Live? && 0 < l && !(c.pageAlloc && c.upper)
      requires Ascending(list) && Indexed() && ResizeTests(c, list, i, l)
      requires Hi(c, list[i]) + Room(c, list, i) <= mem.Length
      requires HasRoom(c, list, i) ==> Entry(list[i + 1]) in ftree && list[i + 1].size > 0
      modifies this`list, this`ftree, this`fsize, this`asize, mem
      ensures Indexed()
      ensures ok <==> CanResize(c, old(list), i, l) && (NeedsNode(c, old(list), i, l) ==> node)
      ensures ok ==> View() == Resize(c, old(View()), i, l)
      ensures !ok ==> View() == old(View())
    {
      var n := list[i];
      var r := Reshape(i, l, node);
      ok := r.Some?;
      if ok {
        ResizedTrees(c, list, i, l);
        var m := [Live(n.start, l, n.info)] + r.value;
        assert m == Resized(c, list, i, l);
        list := Splice(list, i, RunLength(c, list, i), m);
        asize := asize + (l - n.size);
      }
    }

    // src/alloc.c:433-555: the bordering free block and the bytes behind the
    // new end.  The result is what stays of the bordering free block.
    method Reshape(i: nat, l: nat, node: bool) returns (r: Option<seq<Block>>)
      requires c.page > 0 && i < |list| && list[i].Live? && 0 < l && !(c.pageAlloc && c.upper)
      requires ResizeTests(c, list, i, l)
      requires Hi(c, list[i]) + Room(c, list, i) <= mem.Length
      requires HasRoom(c, list, i) ==> Entry(list[i + 1]) in ftree && list[i + 1].size > 0
      modifies this`ftree, this`fsize, mem
      ensures r.Some? <==> CanResize(c, list, i, l) && (NeedsNode(c, list, i, l) ==> node)
      ensures r.None? ==> mem[..] == old(mem[..]) && ftree == old(ftree) && fsize == old(fsize)
      ensures r.Some? ==> mem[..] == ResizedMem(c, old(mem[..]), list[i], l)
      ensures r.Some? ==> r.value == Leftover(c, list, i, l)
      ensures r.Some? ==> ftree == old(ftree) - RoomEntry(c, list, i) + FreeEntries(r.value)
      ensures r.Some? ==> fsize == old(fsize) - Need(c, list[i], l)
    {
      var n := list[i];
      var m := Span(c, n.size);
      if c.pageAlloc && l <= m && l > m - c.page {
        r := Some(StayInPages(i, l));
      } else if l > n.size {
        r := TakeRoom(i, l);
      } else if l < n.size {
        r := GiveBack(i, l, node);
      } else {
        r := Some(StayInPages(i, l));
      }
      if r.Some? && !c.watch {
        if c.pageAlloc {
          MemSet(mem, n.start + l, c.obyte, RoundUp(l, c.page) - l);
        } else {
          MemSet(mem, n.start + l, c.obyte, c.oflow);
        }
      }
    }

    // src/alloc.c:441-451: nothing happens to the neighbour.
    function StayInPages(i: nat, l: nat): (r: seq<Block>)
      requires c.page > 0 && i < |list| && list[i].Live? && Need(c, list[i], l) == 0
      requires HasRoom(c, list, i) ==> Entry(list[i + 1]) in ftree && list[i + 1].size > 0
      reads this
      ensures r == Leftover(c, list, i, l)
      ensures ftree == ftree - RoomEntry(c, list, i) + FreeEntries(r)
    {
      if HasRoom(c, list, i) then [list[i + 1]] else []
    }

    // src/alloc.c:452-497
    method TakeRoom(i: nat, l: nat) returns (r: Option<seq<Block>>)
      requires c.page > 0 && i < |list| && list[i].Live? && !(c.pageAlloc && c.upper)
      requires ResizeTests(c, list, i, l) && Need(c, list[i], l) > 0
      modifies this`ftree, this`fsize
      ensures r.Some? <==> CanResize(c, list, i, l)
      ensures r.None? ==> ftree == old(ftree) && fsize == old(fsize)
      ensures r.Some? ==> r.value == Leftover(c, list, i, l)
      ensures r.Some? ==> ftree == old(ftree) - RoomEntry(c, list, i) + FreeEntries(r.value)
      ensures r.Some? ==> fsize == old(fsize) - Need(c, list[i], l)
    {
      var n := list[i];
      var m := Span(c, n.size);
      var room := i + 1 < |list| && list[i + 1].Free? && !(n.start + m + c.oflow < list[i + 1].start);
      if !room || m + list[i + 1].size < l {
        return None;
      }
      var q := list[i + 1];
      ftree := ftree - {Entry(q)};
      var s := if c.pageAlloc then RoundUp(l, c.page) - m else l - n.size;
      q := Free(q.start + s, q.size - s);
      r := Some([]);
      if q.size != 0 {
        r := Some([q]);
        ftree := ftree + {Entry(q)};
      }
      fsize := fsize - s;
    }

    // src/alloc.c:498-541
    method GiveBack(i: nat, l: nat, node: bool) returns (r: Option<seq<Block>>)
      requires c.page > 0 && i < |list| && list[i].Live? && 0 < l < list[i].size && !(c.pageAlloc && c.upper)
      requires ResizeTests(c, list, i, l) && Need(c, list[i], l) < 0
      requires Hi(c, list[i]) <= mem.Length
      modifies this`ftree, this`fsize, mem
      ensures r.Some? <==> (NeedsNode(c, list, i, l) ==> node)
      ensures r.None? ==> mem[..] == old(mem[..]) && ftree == old(ftree) && fsize == old(fsize)
      ensures r.Some? ==> mem[..] == if c.pageAlloc then old(mem[..])
        else Filled(old(mem[..]), list[i].start + l + c.oflow, c.fbyte, list[i].size - l)
      ensures r.Some? ==> r.value == Leftover(c, list, i, l)
      ensures r.Some? ==> ftree == old(ftree) - RoomEntry(c, list, i) + FreeEntries(r.value)
      ensures r.Some? ==> fsize == old(fsize) - Need(c, list[i], l)
    {
      var n := list[i];
      var m := Span(c, n.size);
      var room := i + 1 < |list| && list[i + 1].Free? && !(n.start + m + c.oflow < list[i + 1].start);
      var q := Free(n.start + m + c.oflow, 0);
      if room {
        q := list[i + 1];
        ftree := ftree - {Entry(q)};
      } else if !node {
        return None;
      }
      var s := if c.pageAlloc then m - RoundUp(l, c.page) else n.size - l;
      q := Free(q.start - s, q.size + s);
      if !c.pageAlloc {
        MemSet(mem, q.start, c.fbyte, s);
      }
      ftree := ftree + {Entry(q)};
      fsize := fsize + s;
      r := Some([q]);
    }

    // src/alloc.c:789-797; the result is the place of the node in the list.
    method FindAlloc(p: nat) returns (r: Option<nat>)
      requires Valid()
      ensures r.Some? ==> r.value < |list| && list[r.value].Live? && Inside(list[r.value], p)
      ensures r.None? ==> forall b :: b in list && b.Live? ==> !Inside(b, p)
      ensures forall i :: 0 <= i < |list| && list[i].Live? && Inside(list[i], p) ==> r == Some(i)
    {
      r := Seek(atree, InAlloc, p);
    }

    // src/alloc.c:809-817
    method FindFreed(p: nat) returns (r: Option<nat>)
      requires Valid()
      ensures r.Some? ==> r.value < |list| && list[r.value].Freed? && Inside(list[r.value], p)
      ensures r.None? ==> forall b :: b in list && b.Freed? ==> !Inside(b, p)
      ensures forall i :: 0 <= i < |list| && list[i].Freed? && Inside(list[i], p) ==> r == Some(i)
    {
      r := Seek(gtree, InFreed, p);
    }

    method Seek(tree: set<(int, int)>, ghost t: Tag, p: nat) returns (r: Option<nat>)
      requires Valid() && t != InFree && tree == Index(list, t)
      ensures r.Some? ==> r.value < |list| && TagOf(list[r.value]) == t && Inside(list[r.value], p)
      ensures forall i :: 0 <= i < |list| && TagOf(list[i]) == t && Inside(list[i], p) ==> r == Some(i)
    {
      ChainAscends(c, list);
      var e := SearchLower(tree, p);
      ghost var s := list;
      r := None;
      if e.Some? {
        ghost var k := FindEntry(list, t, e.value);
        var i := Position(list, e.value.1);
        if list[i].start + list[i].size > p {
          r := Some(i);
        }
      }
      forall i | 0 <= i < |s| && TagOf(s[i]) == t && Inside(s[i], p)
        ensures r == Some(i)
      {
        IndexHas(s, i);
        SeekUnique(c, s, t, i, p, e.value);
      }
    }

    // src/alloc.c:830-876: the first node, in the whole list, that meets the
    // s bytes from p on.
    method FindNode(p: nat, s: nat) returns (r: Option<nat>)
      requires Valid()
      ensures r.Some? ==> r.value < |list| && Meets(c, list[r.value], p, s)
      ensures r.Some? ==> forall j :: 0 <= j < r.value ==> !Meets(c, list[j], p, s)
      ensures r.None? ==> forall j :: 0 <= j < |list| ==> !Meets(c, list[j], p, s)
    {
      var n := Seed(p, s);
      while n < |list|
        invariant n <= |list|
        invariant forall j :: 0 <= j < n ==> !Meets(c, list[j], p, s)
      {
        var b, l := Extent(list[n]);
        if p < b {
          if p + s > b {
            return Some(n);
          }
          BeyondEnd(c, list, n, p, s);
          return None;
        } else if b + l > p {
          return Some(n);
        }
        n := n + 1;
      }
      return None;
    }

    // src/alloc.c:839-843: where the walk starts.
    method Seed(p: nat, ghost s: nat) returns (n: nat)
      requires c.page > 0 && Chain(c, list) && Indexed()
      ensures n <= |list| && forall j :: 0 <= j < n ==> !Meets(c, list[j], p, s)
    {
      ChainAscends(c, list);
      n := 0;
      var t := SearchLower(atree, p);
      ghost var tag := InAlloc;
      if t.None? {
        t := SearchLower(gtree, p);
        tag := InFreed;
      }
      if t.Some? {
        ghost var i := FindEntry(list, tag, t.value);
        n := Position(list, t.value.1);
        BelowSeed(c, list, n, p, s);
      }
    }

    method Extent(b: Block) returns (p: nat, l: nat)
      requires c.page > 0 && BlockOk(c, b)
      ensures p == Lo(c, b) && p + l == Hi(c, b)
    {
      if b.Free? {
        p, l := b.start, b.size;
      } else {
        p, l := ExtentOf(b);
      }
    }

    // src/option.c:1385-1392; the result is the NOFREE flag.
    method SetFreedLimit(v: nat) returns (noFree: bool)
      requires Valid()
      modifies this, mem
      ensures Valid() && noFree == (v != 0)
      ensures View() == Drain(c, old(View()), v).(fmax := v)
      ensures flist == Newest(old(flist), v)
    {
      DrainSound(c, View(), v);
      while |flist| > v
        invariant Valid()
        invariant Drain(c, View(), v) == Drain(c, old(View()), v)
        decreases |flist|
      {
        RecycleSound(c, View());
        RecycleFreed();
      }
      fmax := v;
      noFree := fmax != 0;
    }

    // The client overwrites the details behind n->info.
    method SetInfo(i: nat, info: Info)
      requires Ascending(list) && Indexed() && i < |list| && list[i].Live?
      modifies this`list
      ensures Indexed() && View() == Relabel(old(View()), i, info)
    {
      var n := Live(list[i].start, list[i].size, info);
      ReplaceTrees(list, i, n);
      IndexHas(list, i);
      list := Splice(list, i, 1, [n]);
    }

    // src/alloc.c:217-264: place the allocation within its pages and fill what
    // is around it.
    method FillAround(n: Block, base: nat, size: nat, l: nat, a: nat) returns (block: nat)
      requires Splittable(c, n, l, a, mem.Length)
      requires base == n.start + c.oflow + Pad(c, n, a) && size == Span(c, l)
      modifies mem
      ensures block == base + Shift(c, l, a)
      ensures mem[..] == CarvedMem(c, old(mem[..]), n, l, a)
    {
      block := base;
      var rest := size;
      ghost var was := mem[..];
      FilledNone(was, c.obyte);
      if c.pageAlloc {
        var m := if c.upper then RoundDown(rest - l, a) else 0;
        if c.upper && m > 0 {
          if !c.watch {
            MemSet(mem, block, c.obyte, m);
          }
          block, rest := block + m, rest - m;
        }
        FilledNone(mem[..], c.obyte);
        m := rest - l;
        if m > 0 {
          if !c.watch {
            MemSet(mem, block + l, c.obyte, m);
          }
        }
      } else if !c.watch {
        MemSet(mem, block - c.oflow, c.obyte, c.oflow);
        MemSet(mem, block + l, c.obyte, c.oflow);
      }
    }
  }

  // The block that an entry of a tree stands for.
  lemma FindEntry(s: seq<Block>, t: Tag, e: (int, int)) returns (i: nat)
    requires Ascending(s) && e in Index(s, t)
    ensures i < |s| && TagOf(s[i]) == t && Entry(s[i]) == e && Position(s, e.1) == i
  {
    i := Lookup(s, t, e);
  }

  lemma FreshStart(c: Config, st: State, p: nat, size: nat)
    requires Sound(c, st) && FreshRange(c, st, p, size)
    ensures forall j :: 0 <= j < |st.list| ==> st.list[j].start != p
  {
    forall j | 0 <= j < |st.list|
      ensures st.list[j].start != p
    {
      FreshGap(c, st, p, size, j);
      LoBelowHi(c, st.list[j]);
    }
  }

  lemma PositionSplits(s: seq<Block>, p: int)
    requires Ascending(s) && forall j :: 0 <= j < |s| ==> s[j].start != p
    ensures forall j :: Position(s, p) <= j < |s| ==> p < s[j].start
  {
    var k := Position(s, p);
    if k < |s| {
      assert p < s[k].start;
    }
  }

  lemma InsertAscends(s: seq<Block>, k: nat, b: Block)
    requires Ascending(s) && k <= |s|
    requires forall j :: 0 <= j < k ==> s[j].start < b.start
    requires forall j :: k <= j < |s| ==> b.start < s[j].start
    ensures Ascending(Splice(s, k, 0, [b]))
  {
  }

  lemma InsertIndex(s: seq<Block>, k: nat, b: Block)
    requires Ascending(s) && k <= |s| && b.Free?
    ensures var t := TreesOf(s);
            TreesOf(Splice(s, k, 0, [b])) == t.(ftree := t.ftree + {Entry(b)}, fsize := t.fsize + b.size)
  {
    assert s[k..k] == [];
    forall t: Tag
      ensures Index(Splice(s, k, 0, [b]), t) == Index(s, t) + Index([b], t)
      ensures Total(Splice(s, k, 0, [b]), t) == Total(s, t) + Total([b], t)
    {
      IndexSplice(s, k, 0, [b], t);
      TotalSplice(s, k, 0, [b], t);
    }
    IndexOne(b, InFree);
    IndexOne(b, InAlloc);
    IndexOne(b, InFreed);
  }

  // The merged block contains the one it was merged from.
  lemma MergedHolds(c: Config, s: seq<Block>, i: nat)
    requires c.page > 0 && i < |s| && s[i].Free? && s[i].size > 0 && Ascending(s)
    ensures var r, j := Coalesced(c, s, i), MergeFrom(c, s, i);
            && j < |r| && r[j].Free? && r[j].start <= s[i].start
            && s[i].start + s[i].size <= r[j].start + r[j].size
  {
    var j, k := MergeFrom(c, s, i), MergeTo(c, s, i);
    RunEntries(s, i, j, k);
    if j < i {
      assert s[j].start < s[i].start;
    }
  }

  lemma NoFitMeans(s: seq<Block>, tree: set<(int, int)>, want: int)
    requires tree == Index(s, InFree) && forall e :: e in tree ==> e.0 < want
    ensures NoFit(s, want)
  {
    forall j | 0 <= j < |s| && s[j].Free?
      ensures s[j].size < want
    {
      IndexHas(s, j);
    }
  }

  lemma BestFitMeans(c: Config, s: seq<Block>, tree: set<(int, int)>, k: nat, want: int)
    requires tree == Index(s, InFree) && k < |s| && s[k].Free? && s[k].size >= want
    requires forall e :: e in tree && e.0 >= want ==> e.0 >= s[k].size
    ensures BestFit(c, s, k, want)
  {
    forall j | 0 <= j < |s| && s[j].Free? && s[j].size >= want
      ensures s[k].size <= s[j].size
    {
      IndexHas(s, j);
    }
  }

  // A free block found by the search has room.
  lemma FitHolds(c: Config, b: Block, l: nat, a: nat)
    requires c.Valid() && BlockOk(c, b) && b.Free? && a > 0 && b.size >= Want(c, l, a)
    ensures CanHold(c, b, l, a)
  {
    if c.pageAlloc {
      ModSum(b.start + b.size, b.start, c.page);
      ModSum(b.size, c.oflow, c.page);
      ModSum(b.size - c.oflow, c.oflow, c.page);
      RoundUpLeast(l, c.page, b.size - 2 * c.oflow);
    }
  }

  lemma RequestOk(c: Config, st: State, i: nat, l: nat, a: nat)
    requires Sound(c, st) && i < |st.list| && st.list[i].Free? && |st.mem| < SIZE_MAX1
    requires Bounded(c, l) && 0 < l && 0 < a <= c.page && c.page % a == 0
    ensures Request(c, st.list[i], l, a)
    ensures st.list[i].start + st.list[i].size <= |st.mem|
  {
    assert Hi(c, st.list[i]) <= |st.mem|;
    assert BlockOk(c, st.list[i]);
  }

  lemma GrowChanges(c: Config, st: State, p: nat, size: nat)
    requires FreshRange(c, st, p, size)
    ensures Grow(c, st, p, size) != st
  {
    assert p in Grow(c, st, p, size).owned && p !in st.owned;
  }

  lemma VacatedAscends(c: Config, st: State, i: nat)
    requires Sound(c, st) && i < |st.list| && !st.list[i].Free?
    ensures 0 < Lo(c, st.list[i]) < Hi(c, st.list[i]) <= |st.mem|
    ensures Ascending(Splice(st.list, i, 1, [Vacated(c, st.list[i])]))
  {
    var s, b := st.list, st.list[i];
    LoBelowHi(c, b);
    var r := Splice(s, i, 1, [Vacated(c, b)]);
    forall j, k | 0 <= j < k < |r|
      ensures r[j].start < r[k].start
    {
      LoBelowHi(c, s[j]);
      LoBelowHi(c, s[k]);
      assert Hi(c, s[j]) <= Lo(c, s[k]);
      assert r[j] == if j == i then Vacated(c, b) else s[j];
      assert r[k] == if k == i then Vacated(c, b) else s[k];
    }
  }

  lemma RoomInMemory(c: Config, st: State, i: nat)
    requires Sound(c, st) && i < |st.list|
    ensures Hi(c, st.list[i]) + Room(c, st.list, i) <= |st.mem|
    ensures HasRoom(c, st.list, i) ==> Entry(st.list[i + 1]) in Index(st.list, InFree) && st.list[i + 1].size > 0
  {
    if HasRoom(c, st.list, i) {
      IndexHas(st.list, i + 1);
      assert Hi(c, st.list[i + 1]) <= |st.mem|;
    }
  }

  // What resizing does to the trees and the totals.
  lemma ResizedTrees(c: Config, s: seq<Block>, i: nat, l: nat)
    requires c.page > 0 && Ascending(s) && i < |s| && s[i].Live? && CanResize(c, s, i, l)
    requires Hi(c, s[i]) + Need(c, s[i], l) >= 0
    ensures var t := TreesOf(s);
            TreesOf(Splice(s, i, RunLength(c, s, i), Resized(c, s, i, l)))
            == t.(ftree := t.ftree - RoomEntry(c, s, i) + FreeEntries(Leftover(c, s, i, l)),
                  fsize := t.fsize - Need(c, s[i], l),
                  asize := t.asize + (l - s[i].size))
  {
    var t, m, k := TreesOf(s), Resized(c, s, i, l), RunLength(c, s, i);
    var n := Live(s[i].start, l, s[i].info);
    IndexHas(s, i);
    SpliceTrees(s, i, k, m);
    if HasRoom(c, s, i) {
      assert s[i..i + k] == [s[i], s[i + 1]];
      TwoTrees(t, s[i], s[i + 1]);
    } else {
      assert s[i..i + k] == [s[i]];
      OneTree(t, s[i]);
    }
    var u := Minus(t, TreesOf(s[i..i + k]));
    if Leftover(c, s, i, l) == [] {
      assert m == [n];
      OneTree(u, n);
    } else {
      assert m == [n, Leftover(c, s, i, l)[0]];
      TwoTrees(u, n, m[1]);
    }
  }

  // The block with the greatest address not above p is the only one of its
  // kind that can contain p.
  lemma SeekUnique(c: Config, s: seq<Block>, t: Tag, i: nat, p: nat, e: (int, int))
    requires c.page > 0 && Chain(c, s) && i < |s| && TagOf(s[i]) == t && t != InFree && Inside(s[i], p)
    requires e in Index(s, t) && e.0 <= p && s[i].start <= e.0
    ensures Position(s, e.1) == i && Entry(s[i]) == e
  {
    ChainAscends(c, s);
    var k := FindEntry(s, t, e);
    LoBelowHi(c, s[i]);
    LoBelowHi(c, s[k]);
  }

  // No block before the seed of the walk meets the range.
  lemma BelowSeed(c: Config, s: seq<Block>, n: nat, p: nat, len: nat)
    requires c.page > 0 && Chain(c, s) && n < |s| && !s[n].Free? && s[n].start <= p
    ensures forall j :: 0 <= j < n ==> !Meets(c, s[j], p, len)
  {
    LoBelowHi(c, s[n]);
    assert forall j :: 0 <= j < n ==> Hi(c, s[j]) <= Lo(c, s[n]);
  }

  // No block from the first one behind the range on meets the range.
  lemma BeyondEnd(c: Config, s: seq<Block>, n: nat, p: nat, len: nat)
    requires c.page > 0 && Chain(c, s) && n < |s| && p < Lo(c, s[n]) && p + len <= Lo(c, s[n])
    ensures forall j :: n <= j < |s| ==> !Meets(c, s[j], p, len)
  {
    forall j | n <= j < |s|
      ensures !Meets(c, s[j], p, len)
    {
      LoBelowHi(c, s[n]);
      LoBelowHi(c, s[j]);
      if j > n {
        assert Hi(c, s[n]) <= Lo(c, s[j]);
      }
    }
  }

  // With slack, a block around a fresh range has room for the request however
  // it was merged.
  lemma SlackSuffices(c: Config, b: Block, l: nat, a: nat, p: nat, size: nat)
    requires c.Valid() && BlockOk(c, b) && b.Free? && 0 < l && 0 < a
    requires b.start <= p && p + size <= b.start + b.size
    requires RoundUp(l + 2 * c.oflow, c.page) <= size && p % a == 0
    ensures Slack(c, l, a) ==> CanHold(c, b, l, a)
  {
    if c.pageAlloc {
      FitHolds(c, b, l, a);
    } else {
      var up := p + RoundUp(c.oflow, a);
      ModSum(p, RoundUp(c.oflow, a), a);
      RoundUpLeast(b.start + c.oflow, a, up);
    }
  }

  // Without slack the property is false: on an empty heap the request is met
  // by a block that cannot hold it, and carving it up breaks the heap.
  lemma NoSlackBreaks(c: Config, st: State, l: nat, a: nat, info: Info, p: nat, size: nat)
    requires c.Valid() && Sound(c, st) && st.list == [] && |st.mem| < SIZE_MAX1
    requires Bounded(c, l) && 0 < l && 0 < a <= c.page && c.page % a == 0
    requires !Slack(c, l, a) && size == RoundUp(l + 2 * c.oflow, c.page)
    requires Answers(c, st, l, a, p, size)
    ensures var grown := Grow(c, st, p, size);
      Sound(c, grown) && grown.list == [Free(p, size)] && !Sound(c, Carve(c, grown, 0, l, a, info))
  {
    var now := Grow(c, st, p, size);
    GrowSound(c, st, p, size);
    GrowEmpty(c, st, p, size);
    RequestOk(c, now, 0, l, a);
    NoSlackNoRoom(c, l, a, p);
    CarveSoundIff(c, now, 0, l, a, info);
  }

  // Memory for an empty heap makes one free block.
  lemma GrowEmpty(c: Config, st: State, p: nat, size: nat)
    requires c.page > 0 && st.list == []
    ensures Grow(c, st, p, size).list == [Free(p, size)]
  {
    assert Splice(st.list, 0, 0, [Free(p, size)]) == [Free(p, size)];
    NothingToMerge(c, [Free(p, size)], 0);
  }

  lemma NoSlackNoRoom(c: Config, l: nat, a: nat, p: nat)
    requires c.page > 0 && 0 < a && p % a == 0 && !Slack(c, l, a)
    ensures !CanHold(c, Free(p, RoundUp(l + 2 * c.oflow, c.page)), l, a)
  {
    ModSum(p, RoundUp(c.oflow, a), a);
    RoundUpIs(p + c.oflow, a, p + RoundUp(c.oflow, a));
  }

  // A buffer size that is a multiple of the alignment always leaves slack.
  lemma AlignedBufferHasSlack(c: Config, l: nat, a: nat)
    requires c.page > 0 && a > 0 && c.oflow % a == 0
    ensures Slack(c, l, a)
  {
    RoundUpIs(c.oflow, a, c.oflow);
  }

  // A request that exactly fills whole pages leaves none, unless the buffer
  // size is a multiple of the alignment.
  lemma TightRequest(c: Config, l: nat, a: nat)
    requires c.page > 0 && a > 0 && !c.pageAlloc
    requires (l + 2 * c.oflow) % c.page == 0
    ensures Slack(c, l, a) <==> c.oflow % a == 0
  {
    RoundUpIs(l + 2 * c.oflow, c.page, l + 2 * c.oflow);
    if c.oflow % a == 0 {
      AlignedBufferHasSlack(c, l, a);
    }
  }

  // For instance 4080 bytes with buffers of 8 bytes and an alignment of 16, on an
  // empty heap: the one page that the heap manager hands out is too small, and
  // splitting it breaks the heap.
  lemma NoSlackExample(c: Config, st: State, l: nat, a: nat, info: Info)
    requires c.page == 4096 && c.align == 16 && c.oflow == 8 && !c.pageAlloc && l == 4080 && a == 16
    requires st == State([], [], 0, st.mem, {}) && |st.mem| == 2 * c.page
    ensures c.Valid() && !Slack(c, l, a)
    ensures Answers(c, st, l, a, c.page, c.page)
    ensures var grown := Grow(c, st, c.page, c.page);
      Sound(c, grown) && grown.list == [Free(c.page, c.page)] && !Sound(c, Carve(c, grown, 0, l, a, info))
  {
    PagePower(c.page, c.align, c.oflow);
    TightRequest(c, l, a);
    OnePage(c, st, l, a, info);
  }

  // A request that fits one page, but not with its padding.
  lemma OnePage(c: Config, st: State, l: nat, a: nat, info: Info)
    requires c.Valid() && !c.pageAlloc && 0 < l && 0 < a <= c.page && c.page % a == 0 && l + 2 * c.oflow == c.page
    requires 4 * c.page < SIZE_MAX1 && !Slack(c, l, a)
    requires st == State([], [], 0, st.mem, {}) && |st.mem| == 2 * c.page
    ensures Answers(c, st, l, a, c.page, c.page)
    ensures var grown := Grow(c, st, c.page, c.page);
      Sound(c, grown) && grown.list == [Free(c.page, c.page)] && !Sound(c, Carve(c, grown, 0, l, a, info))
  {
    ModIsZero(1, c.page);
    RoundUpIs(l + 2 * c.oflow, c.page, c.page);
    EmptyIsSound(c, st);
    OnePageAnswers(c, st, l, a);
    NoSlackBreaks(c, st, l, a, info, c.page, c.page);
  }

  lemma EmptyIsSound(c: Config, st: State)
    requires c.Valid() && st.list == [] && st.queue == [] && st.owned == {}
    ensures Sound(c, st)
  {
  }

  lemma OnePageAnswers(c: Config, st: State, l: nat, a: nat)
    requires c.Valid() && 0 < a && c.page % a == 0 && st.owned == {} && |st.mem| == 2 * c.page
    requires RoundUp(l + 2 * c.oflow, c.page) == c.page && c.page % c.page == 0
    ensures Answers(c, st, l, a, c.page, c.page)
  {
  }

  lemma PagePower(page: nat, align: nat, oflow: nat)
    requires page == 4096 && align == 16 && oflow == 8
    ensures IsPowerOfTwo(page) && IsPowerOfTwo(align) && IsPowerOfTwo(oflow)
  {
    assert IsPowerOfTwo(2) && IsPowerOfTwo(4) && IsPowerOfTwo(8) && IsPowerOfTwo(16) && IsPowerOfTwo(32);
    assert IsPowerOfTwo(64) && IsPowerOfTwo(128) && IsPowerOfTwo(256) && IsPowerOfTwo(512) && IsPowerOfTwo(1024);
    assert IsPowerOfTwo(2048);
  }

  lemma FilledNone(m: seq<byte>, v: byte)
    ensures forall t: int {:trigger Filled(m, t, v, 0)} :: Filled(m, t, v, 0) == m
  {
    forall t: int
      ensures Filled(m, t, v, 0) == m
    {
    }
  }

  // At most one free block.
  predicate Spare(p: seq<Block>) {
    p == [] || (|p| == 1 && p[0].Free?)
  }

  // What carving a free block into at most three does to the trees and the
  // totals.
  lemma PartsIndex(s: seq<Block>, i: nat, p: seq<Block>, live: Block, q: seq<Block>, parts: seq<Block>,
                   next: seq<Block>)
    requires i < |s| && Ascending(s) && s[i].Free? && live.Live?
    requires parts == p + [live] + q && next == Splice(s, i, 1, parts)
    requires Spare(p) && Spare(q)
    ensures var t := TreesOf(s);
            TreesOf(next)
            == t.(ftree := t.ftree - {Entry(s[i])} + FreeEntries(p) + FreeEntries(q),
                  fsize := t.fsize - s[i].size + FreeBytes(p) + FreeBytes(q),
                  atree := t.atree + {Entry(live)},
                  asize := t.asize + live.size)
  {
    PartsTag(s, i, p, live, q, InFree);
    PartsTag(s, i, p, live, q, InAlloc);
    PartsTag(s, i, p, live, q, InFreed);
  }

  lemma PartsTag(s: seq<Block>, i: nat, p: seq<Block>, live: Block, q: seq<Block>, t: Tag)
    requires i < |s| && Ascending(s) && s[i].Free? && live.Live?
    requires |p| <= 1 && |q| <= 1 && (forall x :: x in p + q ==> x.Free?)
    ensures var r := Splice(s, i, 1, p + [live] + q);
            && Index(r, t) == (match t
                               case InFree => Index(s, t) - {Entry(s[i])} + FreeEntries(p) + FreeEntries(q)
                               case InAlloc => Index(s, t) + {Entry(live)}
                               case InFreed => Index(s, t))
            && Total(r, t) == (match t
                               case InFree => Total(s, t) - s[i].size + FreeBytes(p) + FreeBytes(q)
                               case InAlloc => Total(s, t) + live.size
                               case InFreed => Total(s, t))
  {
    PartsSplice(s, i, p, live, q, t);
    assert forall x :: x in p ==> x in p + q;
    assert forall x :: x in q ==> x in p + q;
    AtMostOne(p, t);
    AtMostOne(q, t);
    IndexOne(live, t);
    IndexOne(s[i], t);
  }

  lemma PartsSplice(s: seq<Block>, i: nat, p: seq<Block>, live: Block, q: seq<Block>, t: Tag)
    requires i < |s| && Ascending(s)
    ensures Index(Splice(s, i, 1, p + [live] + q), t)
            == Index(s, t) - Index([s[i]], t) + (Index(p, t) + Index([live], t) + Index(q, t))
    ensures Total(Splice(s, i, 1, p + [live] + q), t) + Total([s[i]], t)
            == Total(s, t) + Total(p, t) + Total([live], t) + Total(q, t)
  {
    assert s[i..i + 1] == [s[i]];
    IndexSplice(s, i, 1, p + [live] + q, t);
    TotalSplice(s, i, 1, p + [live] + q, t);
    IndexConcat(p + [live], q, t);
    IndexConcat(p, [live], t);
    TotalConcat(p + [live], q, t);
    TotalConcat(p, [live], t);
  }

  function FreeEntries(p: seq<Block>): set<(int, int)> {
    if p == [] then {} else {Entry(p[0])}
  }

  function FreeBytes(p: seq<Block>): int {
    if p == [] then 0 else p[0].size
  }

  lemma AtMostOne(p: seq<Block>, t: Tag)
    requires |p| <= 1 && (forall x :: x in p ==> x.Free?)
    ensures Index(p, t) == if t == InFree then FreeEntries(p) else {}
    ensures Total(p, t) == if t == InFree then FreeBytes(p) else 0
  {
    if p != [] {
      assert p == [p[0]] && p[0] in p;
      IndexOne(p[0], t);
    }
  }

  lemma RoomIsInMemory(c: Config, b: Block, l: nat, a: nat, length: nat)
    requires c.page > 0 && a > 0 && b.Free? && b.size < SIZE_MAX1 && b.start + b.size <= length
    ensures CanHold(c, b, l, a) ==> Splittable(c, b, l, a, length)
  {
  }

  // The bytes that splitnode writes are in memory, whether or not the block has
  // room for them.
  predicate Splittable(c: Config, b: Block, l: nat, a: nat, length: nat) {
    && c.page > 0 && a > 0 && b.Free? && b.size < SIZE_MAX1
    && (c.watch || b.start + c.oflow + Pad(c, b, a) + Span(c, l) + c.oflow <= length)
  }

  function MergedEntries(s: seq<Block>, i: nat, j: nat, k: nat): set<(int, int)>
    requires j <= i < k <= |s| && i <= j + 1 && k <= i + 2
  {
    {Entry(s[i])} + (if j < i then {Entry(s[j])} else {}) + (if i + 1 < k then {Entry(s[i + 1])} else {})
  }

  // The steps of mergenode add up to one replacement in the list and in the
  // free tree, and change nothing else.
  lemma MergeSteps(c: Config, s: seq<Block>, i: nat)
    requires c.page > 0 && Ascending(s) && i < |s| && s[i].Free?
    ensures var r, j, k := Coalesced(c, s, i), MergeFrom(c, s, i), MergeTo(c, s, i);
            && RunSize(s, j, k)
               == s[i].size + (if j < i then s[j].size else 0) + (if i + 1 < k then s[i + 1].size else 0)
            && TreesOf(r) == TreesOf(s).(ftree := TreesOf(s).ftree - MergedEntries(s, i, j, k)
                                                    + {Entry(Free(s[j].start, RunSize(s, j, k)))})
  {
    var j, k := MergeFrom(c, s, i), MergeTo(c, s, i);
    RunEntries(s, i, j, k);
    MergedIndex(s, j, k, Free(s[j].start, RunSize(s, j, k)));
  }

  lemma NothingToMerge(c: Config, s: seq<Block>, i: nat)
    requires c.page > 0 && i < |s| && s[i].Free? && MergeFrom(c, s, i) == i && MergeTo(c, s, i) == i + 1
    ensures Coalesced(c, s, i) == s
  {
    assert RunSize(s, i + 1, i + 1) == 0;
    assert s == Splice(s, i, 1, [s[i]]);
  }

  // The blocks around i that are merged, as numbers and as tree entries.
  lemma RunEntries(s: seq<Block>, i: nat, j: nat, k: nat)
    requires j <= i < k <= |s| && i <= j + 1 && k <= i + 2
    requires forall x :: j <= x < k ==> s[x].Free?
    ensures RunSize(s, j, k) == s[i].size + (if j < i then s[j].size else 0) + (if i + 1 < k then s[i + 1].size else 0)
    ensures Index(s[j..k], InFree) == MergedEntries(s, i, j, k)
  {
    assert RunSize(s, k, k) == 0 && RunSize(s, k - 1, k) == s[k - 1].size;
    var a, b, d := s[j..i], [s[i]], s[i + 1..k];
    assert s[j..k] == a + b + d;
    IndexConcat(a + b, d, InFree);
    IndexConcat(a, b, InFree);
    if j < i {
      assert a == [s[j]];
      IndexOne(s[j], InFree);
    }
    if i + 1 < k {
      assert d == [s[i + 1]];
      IndexOne(s[i + 1], InFree);
    }
    IndexOne(s[i], InFree);
  }

  // Replacing a run of free blocks by one free block.
  lemma MergedIndex(s: seq<Block>, j: nat, k: nat, b: Block)
    requires Ascending(s) && j < k <= |s|
    requires forall x :: j <= x < k ==> s[x].Free?
    requires b.Free? && b.size == RunSize(s, j, k)
    ensures var r := Splice(s, j, k - j, [b]);
            && (forall t | t != InFree :: Index(r, t) == Index(s, t))
            && (forall t :: Total(r, t) == Total(s, t))
            && Index(r, InFree) == Index(s, InFree) - Index(s[j..k], InFree) + {Entry(b)}
  {
    forall t
      ensures t != InFree ==> Index(Splice(s, j, k - j, [b]), t) == Index(s, t)
      ensures Total(Splice(s, j, k - j, [b]), t) == Total(s, t)
    {
      MergedTag(s, j, k, b, t);
    }
    MergedTag(s, j, k, b, InFree);
  }

  lemma MergedTag(s: seq<Block>, j: nat, k: nat, b: Block, t: Tag)
    requires Ascending(s) && j < k <= |s|
    requires forall x :: j <= x < k ==> s[x].Free?
    requires b.Free? && b.size == RunSize(s, j, k)
    ensures var r := Splice(s, j, k - j, [b]);
            && Index(r, t) == (if t == InFree then Index(s, t) - Index(s[j..k], t) + {Entry(b)} else Index(s, t))
            && Total(r, t) == Total(s, t)
  {
    assert j + (k - j) == k;
    IndexSplice(s, j, k - j, [b], t);
    TotalSplice(s, j, k - j, [b], t);
    IndexOne(b, t);
    TotalRun(s, j, k, t);
  }

  lemma {:induction false} TotalRun(s: seq<Block>, j: nat, k: nat, t: Tag)
    requires j <= k <= |s|
    requires forall x :: j <= x < k ==> s[x].Free?
    ensures Total(s[j..k], t) == if t == InFree then RunSize(s, j, k) else 0
    ensures t != InFree ==> Index(s[j..k], t) == {}
    decreases k - j
  {
    if j < k {
      TotalRun(s, j + 1, k, t);
      assert s[j..k] == [s[j]] + s[j + 1..k];
      TotalConcat([s[j]], s[j + 1..k], t);
      IndexConcat([s[j]], s[j + 1..k], t);
      IndexOne(s[j], t);
    }
  }
}
