// What each operation of src/alloc.c does to the block list, to the queue of
// freed blocks and to memory, and why no run of them breaks the heap.
module Heap {
  import opened Memory
  import opened Rounding
  import opened Blocks

  // The range of size_t: sizes wrap around here.
  const SIZE_MAX1: nat := 0x1_0000_0000_0000_0000

  function Wrap(x: int): (r: nat)
    ensures 0 <= r < SIZE_MAX1
    ensures r == x <==> 0 <= x < SIZE_MAX1
  {
    x % SIZE_MAX1
  }

  // owned is the set of addresses obtained from the heap manager; queue holds
  // the addresses of the freed blocks that are kept, oldest first.
  datatype State = State(list: seq<Block>, queue: seq<nat>, fmax: nat, mem: seq<byte>, owned: set<int>)

  ghost predicate Holds(m: seq<byte>, lo: int, hi: int, c: byte) {
    forall x :: lo <= x < hi && 0 <= x < |m| ==> m[x] == c
  }

  // The bytes src/info.c:1119-1243 will look at hold their fill byte.
  ghost predicate Clean(c: Config, m: seq<byte>, b: Block)
    requires c.page > 0
  {
    match b
    case Free(start, size) =>
      c.pageAlloc || Holds(m, start, start + size, c.fbyte)
    case Freed(start, size, _) =>
      c.pageAlloc ||
      (&& (c.preserve || Holds(m, start, start + size, c.fbyte))
       && (c.watch || (Holds(m, Lo(c, b), start, c.obyte) && Holds(m, start + size, Hi(c, b), c.obyte))))
    case Live(start, size, _) =>
      var buffer := if c.pageAlloc then c.oflow else 0;
      c.watch || (Holds(m, Lo(c, b) + buffer, start, c.obyte) && Holds(m, start + size, Hi(c, b) - buffer, c.obyte))
  }

  function FreedStarts(s: seq<Block>): set<nat> {
    set b | b in s && b.Freed? :: b.start
  }

  // The queue holds every freed block once.
  ghost predicate QueueOk(list: seq<Block>, queue: seq<nat>) {
    Distinct(queue) && (set p | p in queue) == FreedStarts(list)
  }

  // The list tiles the owned addresses and every pattern is in place; free
  // blocks may border on each other.
  ghost predicate Laid(c: Config, list: seq<Block>, mem: seq<byte>, owned: set<int>) {
    && c.Valid()
    && Chain(c, list)
    && (forall i :: 0 <= i < |list| ==> Hi(c, list[i]) <= |mem|)
    && (forall x :: Covers(c, list, x) <==> x in owned)
    && (forall i :: 0 <= i < |list| ==> Clean(c, mem, list[i]))
  }

  ghost predicate Sound(c: Config, st: State) {
    && Laid(c, st.list, st.mem, st.owned)
    && NoBorder(c, st.list)
    && QueueOk(st.list, st.queue)
  }

  // No free block borders on a free block, except perhaps at block i.
  ghost predicate NoBorderExcept(c: Config, s: seq<Block>, i: nat)
    requires c.page > 0
  {
    forall j :: 0 < j < |s| && j != i && j != i + 1 ==> !Borders(c, s[j - 1], s[j])
  }

  ghost predicate SameOutside(m: seq<byte>, n: seq<byte>, lo: int, hi: int) {
    |m| == |n| && forall x :: 0 <= x < |m| && !(lo <= x < hi) ==> n[x] == m[x]
  }

  lemma CleanFrame(c: Config, m: seq<byte>, n: seq<byte>, b: Block)
    requires c.page > 0 && |m| == |n| && b.size > 0
    requires forall x :: 0 <= x < |m| && Lo(c, b) <= x < Hi(c, b) ==> n[x] == m[x]
    requires Clean(c, m, b)
    ensures Clean(c, n, b)
  {
    LoBelowHi(c, b);
  }

  // Replacing a run of blocks by another over the same addresses keeps the
  // heap laid out, if memory changes only there and to match the new run.
  lemma SpliceLaid(c: Config, s: seq<Block>, mem: seq<byte>, owned: set<int>, i: nat, k: nat,
                   m: seq<Block>, now: seq<byte>, lo: int, hi: int)
    requires Laid(c, s, mem, owned) && i + k <= |s|
    requires Tiles(c, s[i..i + k], lo, hi) && Tiles(c, m, lo, hi)
    requires SameOutside(mem, now, lo, hi)
    requires forall j :: 0 <= j < |m| ==> Clean(c, now, m[j])
    ensures Laid(c, Splice(s, i, k, m), now, owned)
  {
    var was := s[i..i + k];
    SpliceChain(c, s, i, k, m, lo, hi);
    TilesCovers(c, was, lo, hi);
    TilesCovers(c, m, lo, hi);
    assert was[0] == s[i] && was[k - 1] == s[i + k - 1];
    var r := Splice(s, i, k, m);
    forall j | 0 <= j < |r|
      ensures Hi(c, r[j]) <= |now| && Clean(c, now, r[j])
    {
      if j < i {
        assert r[j] == s[j];
        CleanFrame(c, mem, now, s[j]);
      } else if j < i + |m| {
        assert r[j] == m[j - i];
      } else {
        assert r[j] == s[j - |m| + k];
        CleanFrame(c, mem, now, r[j]);
      }
    }
  }

  // ---- Coalescing: mergenode ----

  // The run of blocks that mergenode joins with the free block i.
  function MergeFrom(c: Config, s: seq<Block>, i: nat): (j: nat)
    requires c.page > 0 && i < |s|
    ensures j == i || j + 1 == i
  {
    if i > 0 && s[i - 1].Free? && s[i - 1].start + s[i - 1].size >= s[i].start then i - 1 else i
  }

  function MergeTo(c: Config, s: seq<Block>, i: nat): (j: nat)
    requires c.page > 0 && i < |s|
    ensures i < j <= |s| && (j == i + 1 || j == i + 2)
  {
    if i + 1 < |s| && s[i + 1].Free? && s[i].start + s[i].size >= s[i + 1].start then i + 2 else i + 1
  }

  function RunSize(s: seq<Block>, j: nat, k: nat): nat
    requires j <= k <= |s|
    decreases k - j
  {
    if j == k then 0 else s[j].size + RunSize(s, j + 1, k)
  }

  // src/alloc.c:274-316
  function Coalesced(c: Config, s: seq<Block>, i: nat): (r: seq<Block>)
    requires c.page > 0 && i < |s| && s[i].Free?
  {
    var j, k := MergeFrom(c, s, i), MergeTo(c, s, i);
    Splice(s, j, k - j, [Free(s[j].start, RunSize(s, j, k))])
  }

  lemma {:induction false} RunSpans(c: Config, s: seq<Block>, j: nat, k: nat)
    requires c.page > 0 && j < k <= |s|
    requires forall x :: j <= x < k ==> s[x].Free?
    requires forall x :: j < x < k ==> Hi(c, s[x - 1]) == Lo(c, s[x])
    ensures RunSize(s, j, k) == Hi(c, s[k - 1]) - Lo(c, s[j])
    decreases k - j
  {
    if j + 1 < k {
      RunSpans(c, s, j + 1, k);
    } else {
      assert RunSize(s, j + 1, k) == 0;
    }
  }

  lemma MergeBorders(c: Config, s: seq<Block>, i: nat, j: nat, k: nat)
    requires c.page > 0 && Chain(c, s) && i < |s| && s[i].Free?
    requires j == MergeFrom(c, s, i) && k == MergeTo(c, s, i)
    ensures forall x :: j <= x < k ==> s[x].Free?
    ensures forall x :: j < x < k ==> Hi(c, s[x - 1]) == Lo(c, s[x])
  {
  }

  lemma RunTiles(c: Config, s: seq<Block>, j: nat, k: nat)
    requires c.page > 0 && j < k <= |s|
    requires forall x :: j <= x < k ==> BlockOk(c, s[x])
    requires forall x :: j < x < k ==> Hi(c, s[x - 1]) == Lo(c, s[x])
    ensures Tiles(c, s[j..k], Lo(c, s[j]), Hi(c, s[k - 1]))
  {
    var m := s[j..k];
    assert forall x :: 0 <= x < |m| ==> m[x] == s[j + x];
  }

  // The blocks that are merged are free and tile one range, and so does the
  // block that replaces them.
  lemma MergedRun(c: Config, s: seq<Block>, i: nat, j: nat, k: nat)
    requires c.page > 0 && Chain(c, s) && i < |s| && s[i].Free?
    requires j == MergeFrom(c, s, i) && k == MergeTo(c, s, i)
    ensures forall x :: j <= x < k ==> s[x].Free?
    ensures Tiles(c, s[j..k], Lo(c, s[j]), Hi(c, s[k - 1]))
    ensures RunSize(s, j, k) == Hi(c, s[k - 1]) - Lo(c, s[j])
  {
    MergeBorders(c, s, i, j, k);
    RunSpans(c, s, j, k);
    RunTiles(c, s, j, k);
  }

  lemma MergedBlock(c: Config, s: seq<Block>, mem: seq<byte>, owned: set<int>, j: nat, k: nat, b: Block)
    requires Laid(c, s, mem, owned) && j < k <= |s|
    requires forall x :: j <= x < k ==> s[x].Free?
    requires Tiles(c, s[j..k], Lo(c, s[j]), Hi(c, s[k - 1]))
    requires b == Free(s[j].start, Hi(c, s[k - 1]) - Lo(c, s[j]))
    ensures BlockOk(c, b) && Clean(c, mem, b)
    ensures Lo(c, b) == Lo(c, s[j]) && Hi(c, b) == Hi(c, s[k - 1])
  {
    var was := s[j..k];
    TilesCovers(c, was, Lo(c, s[j]), Hi(c, s[k - 1]));
    assert was[0] == s[j] && was[k - j - 1] == s[k - 1];
    if !c.pageAlloc {
      forall x | Lo(c, b) <= x < Hi(c, b) && 0 <= x < |mem|
        ensures mem[x] == c.fbyte
      {
        assert Covers(c, was, x);
        var y :| 0 <= y < |was| && Lo(c, was[y]) <= x < Hi(c, was[y]);
        assert was[y] == s[j + y] && Clean(c, mem, s[j + y]);
      }
    }
  }

  // Merging restores the property that no two free blocks border, wherever
  // the new free block came from.
  lemma CoalesceLaid(c: Config, s: seq<Block>, mem: seq<byte>, owned: set<int>, i: nat)
    requires Laid(c, s, mem, owned) && i < |s| && s[i].Free? && NoBorderExcept(c, s, i)
    ensures Laid(c, Coalesced(c, s, i), mem, owned)
    ensures NoBorder(c, Coalesced(c, s, i))
  {
    var j, k := MergeFrom(c, s, i), MergeTo(c, s, i);
    MergedRun(c, s, i, j, k);
    var b := Free(s[j].start, RunSize(s, j, k));
    MergedBlock(c, s, mem, owned, j, k, b);
    SpliceLaid(c, s, mem, owned, j, k - j, [b], mem, Lo(c, b), Hi(c, b));
    CoalescedFits(c, s, i, j, k, b);
    SpliceNoBorder(c, s, j, k - j, [b]);
  }

  // Merging leaves the freed blocks alone.
  lemma CoalescedFreed(c: Config, s: seq<Block>, i: nat)
    requires c.page > 0 && i < |s| && s[i].Free?
    ensures FreedStarts(Coalesced(c, s, i)) == FreedStarts(s)
  {
    var j, k := MergeFrom(c, s, i), MergeTo(c, s, i);
    var b := Free(s[j].start, RunSize(s, j, k));
    assert forall x :: j <= x < k ==> s[x].Free?;
    FreeReplaced(s, j, k - j, [b]);
  }

  lemma FreeReplaced(s: seq<Block>, j: nat, n: nat, m: seq<Block>)
    requires j + n <= |s| && (forall x :: j <= x < j + n ==> s[x].Free?) && forall x :: 0 <= x < |m| ==> m[x].Free?
    ensures FreedStarts(Splice(s, j, n, m)) == FreedStarts(s)
  {
    FreedSplice(s, j, n, m);
    NoneFreed(s[j..j + n]);
    NoneFreed(m);
  }

  lemma NoneFreed(m: seq<Block>)
    requires forall x :: 0 <= x < |m| ==> m[x].Free?
    ensures FreedStarts(m) == {}
  {
  }

  lemma CoalescedFits(c: Config, s: seq<Block>, i: nat, j: nat, k: nat, b: Block)
    requires c.page > 0 && Chain(c, s) && i < |s| && s[i].Free? && NoBorderExcept(c, s, i)
    requires j == MergeFrom(c, s, i) && k == MergeTo(c, s, i)
    requires b.Free? && Lo(c, b) == Lo(c, s[j]) && Hi(c, b) == Hi(c, s[k - 1])
    ensures Fits(c, s, j, k - j, [b])
  {
    if j > 0 && Borders(c, s[j - 1], b) {
      assert Borders(c, s[j - 1], s[j]);
    }
    if k < |s| && Borders(c, b, s[k]) {
      assert Borders(c, s[k - 1], s[k]);
    }
  }

  lemma FreedSplice(s: seq<Block>, i: nat, k: nat, m: seq<Block>)
    requires i + k <= |s|
    ensures FreedStarts(s) == FreedStarts(s[..i]) + FreedStarts(s[i..i + k]) + FreedStarts(s[i + k..])
    ensures FreedStarts(Splice(s, i, k, m)) == FreedStarts(s[..i]) + FreedStarts(m) + FreedStarts(s[i + k..])
  {
    assert s == s[..i] + s[i..i + k] + s[i + k..];
    FreedConcat(s[..i], s[i..i + k], s[i + k..]);
    FreedConcat(s[..i], m, s[i + k..]);
  }

  lemma FreedConcat(a: seq<Block>, b: seq<Block>, d: seq<Block>)
    ensures FreedStarts(a + b + d) == FreedStarts(a) + FreedStarts(b) + FreedStarts(d)
  {
    var s := a + b + d;
    assert forall x :: x in s <==> x in a || x in b || x in d;
  }

  // ---- Carving: splitnode ----

  // Alignment padding in front of the allocation; page allocations have none.
  function Pad(c: Config, b: Block, a: nat): nat
    requires a > 0
  {
    if c.pageAlloc then 0 else RoundUp(b.start + c.oflow, a) - (b.start + c.oflow)
  }

  // The bytes between the overflow buffers of an allocation of l bytes.
  function Span(c: Config, l: nat): (r: nat)
    requires c.page > 0
    ensures l <= r
  {
    if c.pageAlloc then RoundUp(l, c.page) else l
  }

  // Free block b has room for l bytes aligned to a and their overflow buffers.
  predicate CanHold(c: Config, b: Block, l: nat, a: nat)
    requires c.page > 0 && a > 0
  {
    b.size >= 2 * c.oflow + Pad(c, b, a) + Span(c, l)
  }

  // src/alloc.c:230-239: how far the allocation is moved up to end at the end
  // of its last page.
  function Shift(c: Config, l: nat, a: nat): (r: nat)
    requires c.page > 0 && a > 0
    ensures r <= Span(c, l) - l
  {
    if c.pageAlloc && c.upper then RoundDown(Span(c, l) - l, a) else 0
  }

  // What is left over on the right: a size_t, so it wraps if there is no room.
  function Rest(c: Config, b: Block, l: nat, a: nat): (r: nat)
    requires c.page > 0 && a > 0
  {
    Wrap(b.size - 2 * c.oflow - Pad(c, b, a) - Span(c, l))
  }

  function CarvedBlock(c: Config, b: Block, l: nat, a: nat, info: Info): Block
    requires c.page > 0 && a > 0
  {
    Live(b.start + c.oflow + Pad(c, b, a) + Shift(c, l, a), l, info)
  }

  function LeftPart(c: Config, b: Block, a: nat): (r: seq<Block>)
    requires c.page > 0 && a > 0
  {
    if Pad(c, b, a) > 0 then [Free(b.start, Pad(c, b, a))] else []
  }

  function RightPart(c: Config, b: Block, l: nat, a: nat): (r: seq<Block>)
    requires c.page > 0 && a > 0
  {
    var rest := Rest(c, b, l, a);
    if rest > 0 then [Free(b.start + c.oflow + Pad(c, b, a) + Span(c, l) + c.oflow, rest)] else []
  }

  // src/alloc.c:164-268: the blocks that replace the free block b.
  function Carved(c: Config, b: Block, l: nat, a: nat, info: Info): (r: seq<Block>)
    requires c.page > 0 && a > 0
    ensures |r| > 0
  {
    LeftPart(c, b, a) + [CarvedBlock(c, b, l, a, info)] + RightPart(c, b, l, a)
  }

  // src/alloc.c:221-264: the overflow buffers, or in page mode the unused
  // bytes of the first and the last page, receive the overflow byte.
  function CarvedMem(c: Config, mem: seq<byte>, b: Block, l: nat, a: nat): (r: seq<byte>)
    requires c.page > 0 && a > 0
    ensures |r| == |mem|
  {
    var base := b.start + c.oflow + Pad(c, b, a);
    var at := base + Shift(c, l, a);
    if c.watch then mem
    else if c.pageAlloc then
      Filled(Filled(mem, base, c.obyte, at - base), at + l, c.obyte, base + Span(c, l) - (at + l))
    else
      Filled(Filled(mem, at - c.oflow, c.obyte, c.oflow), at + l, c.obyte, c.oflow)
  }

  function Carve(c: Config, st: State, i: nat, l: nat, a: nat, info: Info): (r: State)
    requires c.page > 0 && a > 0 && i < |st.list|
  {
    var b := st.list[i];
    st.(list := Splice(st.list, i, 1, Carved(c, b, l, a, info)), mem := CarvedMem(c, st.mem, b, l, a))
  }

  // What the callers of splitnode guarantee of the request.
  ghost predicate Request(c: Config, b: Block, l: nat, a: nat) {
    && c.Valid() && BlockOk(c, b) && b.Free? && b.size < SIZE_MAX1
    && 0 < l && 0 < a && c.page % a == 0
    && 2 * c.oflow + Pad(c, b, a) + Span(c, l) < SIZE_MAX1
  }

  // In either mode the extent recomputed from the new block's address and
  // size is the one that was carved, and the address is aligned.
  lemma CarvedExtent(c: Config, b: Block, l: nat, a: nat, info: Info)
    requires Request(c, b, l, a)
    ensures var n := CarvedBlock(c, b, l, a, info);
            && Lo(c, n) == b.start + Pad(c, b, a)
            && Hi(c, n) == b.start + Pad(c, b, a) + Span(c, l) + 2 * c.oflow
            && n.start % a == 0
            && BlockOk(c, n)
            && (c.pageAlloc && c.upper ==> Hi(c, n) - c.oflow - (n.start + l) < a)
  {
    var n := CarvedBlock(c, b, l, a, info);
    if c.pageAlloc {
      var base := b.start + c.oflow;
      ModSum(b.start, c.oflow, c.page);
      ModTrans(base, c.page, a);
      ModTrans(Span(c, l), c.page, a);
      RoundDownIs(n.start, c.page, base);
      RoundUpIs(l + Shift(c, l, a), c.page, Span(c, l));
      if c.upper {
        ModSum(base, Shift(c, l, a), a);
      }
      ModSum(b.start, Span(c, l), c.page);
      ModSum(b.start + Span(c, l), c.oflow, c.page);
      ModSum(b.start + Span(c, l) + c.oflow, c.oflow, c.page);
    }
  }

  // The carved run covers exactly the free block it replaces if and only if
  // the block had room; otherwise the size of the right part wraps around.
  lemma CarvedTiles(c: Config, b: Block, l: nat, a: nat, info: Info)
    requires Request(c, b, l, a)
    ensures CanHold(c, b, l, a) <==> Tiles(c, Carved(c, b, l, a, info), Lo(c, b), Hi(c, b))
  {
    CarvedExtent(c, b, l, a, info);
    var m := Carved(c, b, l, a, info);
    var n := CarvedBlock(c, b, l, a, info);
    var pad, rest := Pad(c, b, a), Rest(c, b, l, a);
    var x := b.size - 2 * c.oflow - pad - Span(c, l);
    assert rest == x <==> CanHold(c, b, l, a);
    var right := Free(b.start + c.oflow + pad + Span(c, l) + c.oflow, rest);
    assert Hi(c, m[|m| - 1]) == Hi(c, b) - x + rest;
    if CanHold(c, b, l, a) && c.pageAlloc && rest > 0 {
      ModSum(Hi(c, b), Hi(c, n), c.page);
    }
  }

  // The new run matches the memory that carving leaves behind.
  lemma CarvedClean(c: Config, mem: seq<byte>, b: Block, l: nat, a: nat, info: Info)
    requires Request(c, b, l, a) && CanHold(c, b, l, a)
    requires Clean(c, mem, b)
    ensures SameOutside(mem, CarvedMem(c, mem, b, l, a), Lo(c, b), Hi(c, b))
    ensures forall j :: 0 <= j < |Carved(c, b, l, a, info)| ==>
              Clean(c, CarvedMem(c, mem, b, l, a), Carved(c, b, l, a, info)[j])
  {
    CarvedExtent(c, b, l, a, info);
    var now := CarvedMem(c, mem, b, l, a);
    assert Clean(c, now, CarvedBlock(c, b, l, a, info));
  }

  lemma CarveLaid(c: Config, st: State, i: nat, l: nat, a: nat, info: Info)
    requires Sound(c, st) && i < |st.list|
    requires Request(c, st.list[i], l, a) && CanHold(c, st.list[i], l, a)
    ensures Sound(c, Carve(c, st, i, l, a, info))
  {
    var b := st.list[i];
    var m := Carved(c, b, l, a, info);
    CarvedTiles(c, b, l, a, info);
    CarvedClean(c, st.mem, b, l, a, info);
    assert st.list[i..i + 1] == [b];
    SpliceLaid(c, st.list, st.mem, st.owned, i, 1, m, CarvedMem(c, st.mem, b, l, a), Lo(c, b), Hi(c, b));
    CarvedFits(c, st.list, i, l, a, info);
    SpliceNoBorder(c, st.list, i, 1, m);
    CarvedFreed(c, st.list, i, l, a, info);
  }

  lemma CarvedFreed(c: Config, s: seq<Block>, i: nat, l: nat, a: nat, info: Info)
    requires c.page > 0 && a > 0 && i < |s| && s[i].Free?
    ensures FreedStarts(Splice(s, i, 1, Carved(c, s[i], l, a, info))) == FreedStarts(s)
  {
    var m := Carved(c, s[i], l, a, info);
    FreedSplice(s, i, 1, m);
    assert s[i..i + 1] == [s[i]];
    NoneFreed([s[i]]);
    assert forall x :: 0 <= x < |m| ==> !m[x].Freed?;
    NoneKept(m);
  }

  lemma NoneKept(m: seq<Block>)
    requires forall x :: 0 <= x < |m| ==> !m[x].Freed?
    ensures FreedStarts(m) == {}
  {
  }

  lemma CarvedFits(c: Config, s: seq<Block>, i: nat, l: nat, a: nat, info: Info)
    requires i < |s| && Request(c, s[i], l, a) && CanHold(c, s[i], l, a)
    requires NoBorder(c, s)
    ensures Fits(c, s, i, 1, Carved(c, s[i], l, a, info))
  {
    var m := Carved(c, s[i], l, a, info);
    CarvedTiles(c, s[i], l, a, info);
    if i > 0 && Borders(c, s[i - 1], m[0]) {
      assert Borders(c, s[i - 1], s[i]);
    }
    if i + 1 < |s| && Borders(c, m[|m| - 1], s[i + 1]) {
      assert Borders(c, s[i], s[i + 1]);
    }
  }

  // splitnode keeps the heap sound exactly when the free block has room for
  // the request, its padding and its buffers.
  lemma CarveSoundIff(c: Config, st: State, i: nat, l: nat, a: nat, info: Info)
    requires Sound(c, st) && i < |st.list| && |st.mem| < SIZE_MAX1
    requires Request(c, st.list[i], l, a)
    ensures Sound(c, Carve(c, st, i, l, a, info)) <==> CanHold(c, st.list[i], l, a)
  {
    var b := st.list[i];
    if CanHold(c, b, l, a) {
      CarveLaid(c, st, i, l, a, info);
    } else {
      var m := Carved(c, b, l, a, info);
      var next := Carve(c, st, i, l, a, info);
      assert Rest(c, b, l, a) == b.size - 2 * c.oflow - Pad(c, b, a) - Span(c, l) + SIZE_MAX1;
      var right := m[|m| - 1];
      assert right == next.list[i + |m| - 1];
      assert Hi(c, right) == b.start + b.size + SIZE_MAX1;
    }
  }

  // ---- Fresh memory from the heap manager ----

  // The position in address order of a block that starts at p.
  function Position(s: seq<Block>, p: int): (i: nat)
    ensures i <= |s|
    ensures forall j :: 0 <= j < i ==> s[j].start < p
    ensures i < |s| ==> s[i].start >= p
  {
    if s == [] || s[0].start >= p then 0 else 1 + Position(s[1..], p)
  }

  function Range(lo: int, hi: int): (r: set<int>)
    ensures forall x :: x in r <==> lo <= x < hi
    decreases hi - lo
  {
    if lo >= hi then {} else {lo} + Range(lo + 1, hi)
  }

  // src/alloc.c:367-395
  function Grow(c: Config, st: State, p: nat, size: nat): (r: State)
    requires c.page > 0
  {
    var i := Position(st.list, p);
    st.(list := Coalesced(c, Splice(st.list, i, 0, [Free(p, size)]), i),
        mem := FreshMem(c, st.mem, p, size),
        owned := st.owned + Range(p, p + size))
  }

  function FreshMem(c: Config, mem: seq<byte>, p: nat, size: nat): (r: seq<byte>)
    ensures SameOutside(mem, r, p, p + size)
  {
    if c.pageAlloc then mem else Filled(mem, p, c.fbyte, size)
  }

  // What the heap manager promises of a block that it hands out.
  ghost predicate FreshRange(c: Config, st: State, p: nat, size: nat) {
    && 0 < p && 0 < size && p + size <= |st.mem|
    && (forall x | p <= x < p + size :: x !in st.owned)
    && c.page > 0 && (c.pageAlloc ==> p % c.page == 0 && size % c.page == 0)
  }

  lemma FreshGap(c: Config, st: State, p: nat, size: nat, j: nat)
    requires Laid(c, st.list, st.mem, st.owned) && FreshRange(c, st, p, size)
    requires j < |st.list|
    ensures Hi(c, st.list[j]) <= p || p + size <= Lo(c, st.list[j])
    ensures st.list[j].start < p ==> Hi(c, st.list[j]) <= p
    ensures st.list[j].start >= p ==> p + size <= Lo(c, st.list[j])
  {
    var b := st.list[j];
    LoBelowHi(c, b);
    if Lo(c, b) < p + size && p < Hi(c, b) {
      var x := if Lo(c, b) < p then p else Lo(c, b);
      assert Covers(c, st.list, x);
      assert false;
    }
  }

  lemma InsertNoBorder(c: Config, s: seq<Block>, i: nat, b: Block)
    requires c.page > 0 && i <= |s| && NoBorder(c, s)
    ensures NoBorderExcept(c, Splice(s, i, 0, [b]), i)
  {
    var r := Splice(s, i, 0, [b]);
    forall j | 0 < j < |r| && j != i && j != i + 1
      ensures !Borders(c, r[j - 1], r[j])
    {
      if j < i {
        assert r[j - 1] == s[j - 1] && r[j] == s[j];
      } else {
        assert r[j - 1] == s[j - 2] && r[j] == s[j - 1];
      }
    }
  }

  lemma InsertFreed(s: seq<Block>, i: nat, b: Block)
    requires i <= |s| && b.Free?
    ensures FreedStarts(Splice(s, i, 0, [b])) == FreedStarts(s)
  {
    FreedSplice(s, i, 0, [b]);
    assert s[i..i] == [];
    assert FreedStarts([b]) == {} == FreedStarts([]);
  }

  lemma GrowSound(c: Config, st: State, p: nat, size: nat)
    requires Sound(c, st) && FreshRange(c, st, p, size)
    ensures Sound(c, Grow(c, st, p, size))
  {
    var i := Position(st.list, p);
    var s := Splice(st.list, i, 0, [Free(p, size)]);
    GrowLaid(c, st, p, size);
    InsertNoBorder(c, st.list, i, Free(p, size));
    CoalesceLaid(c, s, FreshMem(c, st.mem, p, size), st.owned + Range(p, p + size), i);
    InsertFreed(st.list, i, Free(p, size));
    CoalescedFreed(c, s, i);
  }

  lemma InsertChain(c: Config, s: seq<Block>, i: nat, b: Block)
    requires c.page > 0 && i <= |s| && Chain(c, s) && BlockOk(c, b)
    requires forall j :: 0 <= j < i ==> Hi(c, s[j]) <= Lo(c, b)
    requires forall j :: i <= j < |s| ==> Hi(c, b) <= Lo(c, s[j])
    ensures Chain(c, Splice(s, i, 0, [b]))
  {
    var r := Splice(s, i, 0, [b]);
    assert forall j :: 0 <= j < |r| ==> r[j] == if j < i then s[j] else if j == i then b else s[j - 1];
  }

  lemma InsertClean(c: Config, s: seq<Block>, i: nat, b: Block, mem: seq<byte>, now: seq<byte>)
    requires c.page > 0 && i <= |s| && Clean(c, now, b) && Hi(c, b) <= |now|
    requires SameOutside(mem, now, Lo(c, b), Hi(c, b))
    requires forall j :: 0 <= j < |s| ==> s[j].size > 0 && Clean(c, mem, s[j]) && Hi(c, s[j]) <= |mem|
    requires forall j :: 0 <= j < i ==> Hi(c, s[j]) <= Lo(c, b)
    requires forall j :: i <= j < |s| ==> Hi(c, b) <= Lo(c, s[j])
    ensures forall j :: 0 <= j <= |s| ==>
      Clean(c, now, Splice(s, i, 0, [b])[j]) && Hi(c, Splice(s, i, 0, [b])[j]) <= |now|
  {
    var r := Splice(s, i, 0, [b]);
    forall j | 0 <= j < |r|
      ensures Clean(c, now, r[j]) && Hi(c, r[j]) <= |now|
    {
      if j != i {
        assert r[j] == s[if j < i then j else j - 1];
        CleanFrame(c, mem, now, r[j]);
      }
    }
  }

  lemma FreshOrder(c: Config, st: State, p: nat, size: nat, j: nat)
    requires Laid(c, st.list, st.mem, st.owned) && FreshRange(c, st, p, size) && j < |st.list|
    ensures j < Position(st.list, p) ==> Hi(c, st.list[j]) <= p
    ensures Position(st.list, p) <= j ==> p + size <= Lo(c, st.list[j])
  {
    var i := Position(st.list, p);
    FreshGap(c, st, p, size, j);
    if i < j {
      StartsDistinct(c, st.list, i);
    }
  }

  lemma FreshBlockOk(c: Config, st: State, p: nat, size: nat)
    requires FreshRange(c, st, p, size)
    ensures BlockOk(c, Free(p, size)) && Clean(c, FreshMem(c, st.mem, p, size), Free(p, size))
  {
    if c.pageAlloc {
      ModSum(p, size, c.page);
    }
  }

  lemma GrowLaid(c: Config, st: State, p: nat, size: nat)
    requires Laid(c, st.list, st.mem, st.owned) && FreshRange(c, st, p, size)
    ensures Laid(c, Splice(st.list, Position(st.list, p), 0, [Free(p, size)]),
                 FreshMem(c, st.mem, p, size), st.owned + Range(p, p + size))
  {
    var i := Position(st.list, p);
    var b := Free(p, size);
    forall j | 0 <= j < i ensures Hi(c, st.list[j]) <= Lo(c, b) { FreshOrder(c, st, p, size, j); }
    forall j | i <= j < |st.list| ensures Hi(c, b) <= Lo(c, st.list[j]) { FreshOrder(c, st, p, size, j); }
    FreshBlockOk(c, st, p, size);
    InsertChain(c, st.list, i, b);
    InsertClean(c, st.list, i, b, st.mem, FreshMem(c, st.mem, p, size));
    GrowCovers(c, st, p, size, i);
  }

  lemma GrowCovers(c: Config, st: State, p: nat, size: nat, i: nat)
    requires Laid(c, st.list, st.mem, st.owned) && c.page > 0 && i <= |st.list|
    ensures forall x :: Covers(c, Splice(st.list, i, 0, [Free(p, size)]), x) <==> x in st.owned + Range(p, p + size)
  {
    forall x
      ensures Covers(c, Splice(st.list, i, 0, [Free(p, size)]), x) <==> x in st.owned + Range(p, p + size)
    {
      InsertCovers(c, st.list, i, p, size, x);
    }
  }

  lemma InsertCovers(c: Config, s: seq<Block>, i: nat, p: nat, size: nat, x: int)
    requires c.page > 0 && i <= |s|
    ensures Covers(c, Splice(s, i, 0, [Free(p, size)]), x) <==> Covers(c, s, x) || p <= x < p + size
  {
    var b := [Free(p, size)];
    CoversParts(c, s[..i], b, s[i..], x);
    CoversParts(c, s[..i], [], s[i..], x);
    assert s == s[..i] + [] + s[i..];
    assert Lo(c, b[0]) == p && Hi(c, b[0]) == p + size;
  }

  // ---- Freeing: __mp_freealloc and __mp_recyclefreed ----

  // The addresses of a used block become a free block, buffers and all.
  function Vacated(c: Config, b: Block): (r: Block)
    requires c.page > 0
  {
    if 0 < Lo(c, b) <= Hi(c, b) then Free(Lo(c, b), Hi(c, b) - Lo(c, b)) else b
  }

  function VacatedMem(c: Config, mem: seq<byte>, b: Block): (r: seq<byte>)
    requires c.page > 0
  {
    if c.pageAlloc then mem else Filled(mem, Lo(c, b), c.fbyte, Hi(c, b) - Lo(c, b))
  }

  // src/alloc.c:638-673 and 694-743
  function Release(c: Config, st: State, i: nat): (r: State)
    requires c.page > 0 && i < |st.list|
  {
    var b := st.list[i];
    var f := Vacated(c, b);
    if !f.Free? then st
    else st.(list := Coalesced(c, Splice(st.list, i, 1, [f]), i), mem := VacatedMem(c, st.mem, b))
  }

  lemma VacatedOk(c: Config, mem: seq<byte>, b: Block, now: seq<byte>)
    requires c.page > 0 && BlockOk(c, b) && !b.Free? && Hi(c, b) <= |mem|
    requires now == VacatedMem(c, mem, b)
    ensures 0 < Lo(c, b) < Hi(c, b)
    ensures Tiles(c, [b], Lo(c, b), Hi(c, b)) && Tiles(c, [Vacated(c, b)], Lo(c, b), Hi(c, b))
    ensures Clean(c, now, Vacated(c, b)) && SameOutside(mem, now, Lo(c, b), Hi(c, b))
  {
    LoBelowHi(c, b);
  }

  lemma ReleaseLaid(c: Config, st: State, i: nat)
    requires Sound(c, st) && i < |st.list| && !st.list[i].Free?
    ensures 0 < Lo(c, st.list[i]) < Hi(c, st.list[i])
    ensures var now := Release(c, st, i);
            Laid(c, now.list, now.mem, now.owned) && NoBorder(c, now.list)
  {
    var b := st.list[i];
    LoBelowHi(c, b);
    var f := Vacated(c, b);
    var now := Release(c, st, i);
    var s := Splice(st.list, i, 1, [f]);
    VacatedOk(c, st.mem, b, now.mem);
    assert st.list[i..i + 1] == [b];
    SpliceLaid(c, st.list, st.mem, st.owned, i, 1, [f], now.mem, Lo(c, b), Hi(c, b));
    ReplaceNoBorder(c, st.list, i, f);
    CoalesceLaid(c, s, now.mem, now.owned, i);
  }

  lemma ReleaseFreed(c: Config, st: State, i: nat)
    requires c.page > 0 && i < |st.list| && 0 < Lo(c, st.list[i]) <= Hi(c, st.list[i])
    requires Chain(c, st.list)
    ensures FreedStarts(Release(c, st, i).list) == FreedStarts(st.list) - {st.list[i].start}
  {
    var f := Vacated(c, st.list[i]);
    CoalescedFreed(c, Splice(st.list, i, 1, [f]), i);
    FreedSplice(st.list, i, 1, [f]);
    FreedSplice(st.list, i, 1, []);
    assert FreedStarts([f]) == {} == FreedStarts([]);
    FreedDrop(c, st.list, i);
  }

  lemma ReplaceNoBorder(c: Config, s: seq<Block>, i: nat, b: Block)
    requires c.page > 0 && i < |s| && NoBorder(c, s)
    ensures NoBorderExcept(c, Splice(s, i, 1, [b]), i)
  {
    var r := Splice(s, i, 1, [b]);
    assert forall j :: 0 <= j < |s| && j != i ==> r[j] == s[j];
  }

  lemma StartsDistinct(c: Config, s: seq<Block>, i: nat)
    requires c.page > 0 && Chain(c, s) && i < |s|
    ensures forall j :: 0 <= j < i ==> s[j].start < s[i].start
    ensures forall j :: i < j < |s| ==> s[i].start < s[j].start
    ensures Position(s, s[i].start) == i
  {
    forall j | 0 <= j < |s|
      ensures j < i ==> s[j].start < s[i].start
      ensures i < j ==> s[i].start < s[j].start
    {
      LoBelowHi(c, s[i]);
      LoBelowHi(c, s[j]);
    }
  }

  // Block i is the only one at its address.
  lemma StartOnce(c: Config, s: seq<Block>, i: nat)
    requires c.page > 0 && Chain(c, s) && i < |s|
    ensures s[i].start !in FreedStarts(s[..i]) && s[i].start !in FreedStarts(s[i + 1..])
    ensures !s[i].Freed? ==> s[i].start !in FreedStarts(s)
  {
    StartsDistinct(c, s, i);
  }

  // Dropping block i from the list drops its address from the freed ones.
  lemma FreedDrop(c: Config, s: seq<Block>, i: nat)
    requires c.page > 0 && Chain(c, s) && i < |s|
    ensures FreedStarts(Splice(s, i, 1, [])) == FreedStarts(s) - {s[i].start}
  {
    StartOnce(c, s, i);
    FreedWithout(s, i);
  }

  lemma FreedWithout(s: seq<Block>, i: nat)
    requires i < |s|
    requires s[i].start !in FreedStarts(s[..i]) && s[i].start !in FreedStarts(s[i + 1..])
    ensures FreedStarts(Splice(s, i, 1, [])) == FreedStarts(s) - {s[i].start}
  {
    FreedSplice(s, i, 1, []);
    assert s[i..i + 1] == [s[i]];
    FreedOne(s[i]);
    NoneFreed([]);
    DropMiddle(FreedStarts(s[..i]), FreedStarts([s[i]]), FreedStarts(s[i + 1..]), s[i].start);
  }

  lemma DropMiddle<T>(a: set<T>, m: set<T>, b: set<T>, x: T)
    requires x !in a && x !in b && m <= {x}
    ensures a + {} + b == a + m + b - {x}
  {
  }

  lemma ReleaseSound(c: Config, st: State, i: nat)
    requires Sound(c, st) && i < |st.list| && st.list[i].Live?
    ensures 0 < Lo(c, st.list[i]) < Hi(c, st.list[i])
    ensures Sound(c, Release(c, st, i))
  {
    ReleaseLaid(c, st, i);
    ReleaseFreed(c, st, i);
    StartOnce(c, st.list, i);
  }

  // The oldest freed block goes back to the free ones.
  function Recycle(c: Config, st: State): (r: State)
    requires c.page > 0
  {
    var i := if |st.queue| > 0 then Position(st.list, st.queue[0]) else |st.list|;
    if i < |st.list| then Release(c, st.(queue := st.queue[1..]), i) else st
  }

  lemma QueueHead(c: Config, st: State)
    requires Sound(c, st) && |st.queue| > 0
    ensures var i := Position(st.list, st.queue[0]);
            && i < |st.list| && st.list[i].Freed? && st.list[i].start == st.queue[0]
            && 0 < Lo(c, st.list[i]) < Hi(c, st.list[i])
  {
    assert st.queue[0] in FreedStarts(st.list);
    var b :| b in st.list && b.Freed? && b.start == st.queue[0];
    var i :| 0 <= i < |st.list| && st.list[i] == b;
    StartsDistinct(c, st.list, i);
    LoBelowHi(c, b);
  }

  lemma RecycleSound(c: Config, st: State)
    requires Sound(c, st) && |st.queue| > 0
    ensures Sound(c, Recycle(c, st)) && Recycle(c, st).queue == st.queue[1..]
  {
    QueueHead(c, st);
    var i := Position(st.list, st.queue[0]);
    ReleaseLaid(c, st, i);
    ReleaseFreed(c, st, i);
    var now := Recycle(c, st);
    assert st.queue == [st.queue[0]] + now.queue;
    assert forall x :: x in st.queue <==> x == st.queue[0] || x in now.queue;
  }

  // src/alloc.c:600-637: the block is kept with its new details.
  function Retire(c: Config, st: State, i: nat, info: Info): (r: State)
    requires i < |st.list|
  {
    var b := st.list[i];
    st.(list := Splice(st.list, i, 1, [Freed(b.start, b.size, info)]),
        mem := if c.pageAlloc || c.preserve then st.mem else Filled(st.mem, b.start, c.fbyte, b.size),
        queue := st.queue + [b.start])
  }

  lemma RetireLaid(c: Config, st: State, i: nat, info: Info)
    requires Sound(c, st) && i < |st.list| && st.list[i].Live?
    ensures var now := Retire(c, st, i, info);
            Laid(c, now.list, now.mem, now.owned) && NoBorder(c, now.list)
  {
    var b := st.list[i];
    var g := Freed(b.start, b.size, info);
    var now := Retire(c, st, i, info);
    LoBelowHi(c, b);
    assert BlockOk(c, b) && Clean(c, st.mem, b);
    assert BlockOk(c, g) && Clean(c, now.mem, g);
    assert st.list[i..i + 1] == [b];
    SpliceLaid(c, st.list, st.mem, st.owned, i, 1, [g], now.mem, Lo(c, b), Hi(c, b));
    SpliceNoBorder(c, st.list, i, 1, [g]);
  }

  lemma RetireQueue(c: Config, s: seq<Block>, queue: seq<nat>, i: nat, g: Block)
    requires c.page > 0 && Chain(c, s) && i < |s| && s[i].Live?
    requires QueueOk(s, queue) && g.Freed? && g.start == s[i].start
    ensures QueueOk(Splice(s, i, 1, [g]), queue + [g.start])
  {
    assert FreedStarts(Splice(s, i, 1, [g])) == FreedStarts(s) + {g.start} by {
      FreedSplice(s, i, 1, [g]);
      assert s[i..i + 1] == [s[i]];
      FreedOne(s[i]);
      FreedOne(g);
    }
    StartOnce(c, s, i);
    Pushed(queue, g.start);
  }

  lemma FreedOne(b: Block)
    ensures FreedStarts([b]) == if b.Freed? then {b.start} else {}
  {
  }

  lemma RetireSound(c: Config, st: State, i: nat, info: Info)
    requires Sound(c, st) && i < |st.list| && st.list[i].Live?
    ensures Sound(c, Retire(c, st, i, info))
  {
    RetireLaid(c, st, i, info);
    RetireQueue(c, st.list, st.queue, i, Freed(st.list[i].start, st.list[i].size, info));
  }

  lemma Pushed(q: seq<nat>, p: nat)
    requires Distinct(q) && p !in q
    ensures Distinct(q + [p])
    ensures (set x | x in q + [p]) == (set x | x in q) + {p}
  {
  }

  // __mp_freealloc: with keep, the block is queued, and the oldest one is
  // recycled first if the queue is full.
  predicate Full(st: State) {
    |st.queue| != 0 && |st.queue| == st.fmax
  }

  function FreeBlock(c: Config, st: State, p: nat, keep: Option<Info>): (r: State)
    requires c.page > 0
  {
    var base := if keep.Some? && Full(st) then Recycle(c, st) else st;
    var i := Position(base.list, p);
    if i >= |base.list| then base
    else if keep.None? then Release(c, base, i)
    else Retire(c, base, i, keep.value)
  }

  // Block b is still in the list, with the same bytes, after a splice that
  // does not replace it.
  lemma SpliceKeeps(s: seq<Block>, i: nat, k: nat, m: seq<Block>, j: nat)
    requires i + k <= |s| && j < |s| && (j < i || i + k <= j)
    ensures s[j] in Splice(s, i, k, m)
  {
    var r := Splice(s, i, k, m);
    assert s[j] == r[if j < i then j else j - k + |m|];
  }

  lemma CoalescedKeeps(c: Config, s: seq<Block>, i: nat, b: Block)
    requires c.page > 0 && i < |s| && s[i].Free? && b in s && !b.Free?
    ensures b in Coalesced(c, s, i)
  {
    var j :| 0 <= j < |s| && s[j] == b;
    var f, t := MergeFrom(c, s, i), MergeTo(c, s, i);
    SpliceKeeps(s, f, t - f, [Free(s[f].start, RunSize(s, f, t))], j);
  }

  // Freeing one block leaves every other used block in the list.
  lemma ReleaseKeeps(c: Config, st: State, i: nat, b: Block)
    requires c.page > 0 && i < |st.list| && b in st.list && !b.Free? && b != st.list[i]
    ensures b in Release(c, st, i).list
  {
    var f := Vacated(c, st.list[i]);
    var j :| 0 <= j < |st.list| && st.list[j] == b;
    SpliceKeeps(st.list, i, 1, [f], j);
    if f.Free? {
      CoalescedKeeps(c, Splice(st.list, i, 1, [f]), i, b);
    }
  }

  lemma LiveIndex(c: Config, s: seq<Block>, b: Block) returns (i: nat)
    requires c.page > 0 && Chain(c, s) && b in s
    ensures i < |s| && s[i] == b && i == Position(s, b.start)
  {
    i :| 0 <= i < |s| && s[i] == b;
    StartsDistinct(c, s, i);
  }

  lemma RecycleKeeps(c: Config, st: State, b: Block)
    requires Sound(c, st) && b in st.list && b.Live?
    ensures b in Recycle(c, st).list
  {
    if |st.queue| > 0 {
      QueueHead(c, st);
      ReleaseKeeps(c, st.(queue := st.queue[1..]), Position(st.list, st.queue[0]), b);
    }
  }

  lemma FreeBlockSound(c: Config, st: State, b: Block, keep: Option<Info>)
    requires Sound(c, st) && b in st.list && b.Live?
    ensures Sound(c, FreeBlock(c, st, b.start, keep))
  {
    var base := if keep.Some? && Full(st) then Recycle(c, st) else st;
    if keep.Some? && Full(st) {
      RecycleSound(c, st);
      RecycleKeeps(c, st, b);
    }
    var i := LiveIndex(c, base.list, b);
    if keep.None? {
      ReleaseSound(c, base, i);
    } else {
      RetireSound(c, base, i, keep.value);
    }
  }

  // src/option.c:1386-1387: recycle until at most v freed blocks are kept.
  function Drain(c: Config, st: State, v: nat): (r: State)
    requires c.page > 0
    decreases |st.queue|
  {
    if |st.queue| <= v || |Recycle(c, st).queue| >= |st.queue| then st
    else Drain(c, Recycle(c, st), v)
  }

  // Lowering the limit drains the oldest blocks first and no more than it has
  // to.
  lemma {:induction false} DrainSound(c: Config, st: State, v: nat)
    requires Sound(c, st)
    ensures Sound(c, Drain(c, st, v))
    ensures Drain(c, st, v).queue == Newest(st.queue, v)
    decreases |st.queue|
  {
    if |st.queue| > v {
      RecycleSound(c, st);
      DrainSound(c, Recycle(c, st), v);
      NewestRest(st.queue, v);
    }
  }

  lemma NewestRest(q: seq<nat>, n: nat)
    requires |q| > n
    ensures Newest(q[1..], n) == Newest(q, n)
  {
  }

  // The last n elements of q.
  function Newest<T>(q: seq<T>, n: nat): (r: seq<T>) {
    if |q| <= n then q else q[|q| - n..]
  }

  // What keeping one more freed block does to the queue.
  function Push(q: seq<nat>, fmax: nat, p: nat): seq<nat> {
    (if |q| != 0 && |q| == fmax then q[1..] else q) + [p]
  }

  lemma FreeBlockQueue(c: Config, st: State, b: Block, info: Info)
    requires Sound(c, st) && b in st.list && b.Live?
    ensures FreeBlock(c, st, b.start, Some(info)).queue == Push(st.queue, st.fmax, b.start)
  {
    if Full(st) {
      RecycleSound(c, st);
      RecycleKeeps(c, st, b);
      var _ := LiveIndex(c, Recycle(c, st).list, b);
    } else {
      var _ := LiveIndex(c, st.list, b);
    }
  }

  // The queue after the blocks of freed have been kept one by one.
  function PushAll(q: seq<nat>, fmax: nat, freed: seq<nat>): seq<nat>
    decreases |freed|
  {
    if freed == [] then q else PushAll(Push(q, fmax, freed[0]), fmax, freed[1..])
  }

  // With a fixed limit the queue holds exactly the most recently freed blocks
  // in the order in which they were freed.
  lemma {:induction false} QueueHoldsNewest(q: seq<nat>, fmax: nat, freed: seq<nat>)
    requires 0 < fmax && |q| <= fmax
    ensures PushAll(q, fmax, freed) == Newest(q + freed, fmax)
    decreases |freed|
  {
    if freed == [] {
      assert q + freed == q;
    } else {
      var n := Push(q, fmax, freed[0]);
      QueueHoldsNewest(n, fmax, freed[1..]);
      if |q| == fmax {
        assert q + freed == [q[0]] + (n + freed[1..]);
      } else {
        assert q + freed == n + freed[1..];
      }
    }
  }

  // New details for a live block.
  function Relabel(st: State, i: nat, info: Info): (r: State)
    requires i < |st.list|
  {
    st.(list := Splice(st.list, i, 1, [Live(st.list[i].start, st.list[i].size, info)]))
  }

  // ---- Settings that the user may change ----

  // src/option.c:1343-1353: the default alignment and the allocation byte make
  // no difference to the heap.
  lemma SettingsSound(c: Config, st: State, align: nat, abyte: byte)
    requires Sound(c, st) && IsPowerOfTwo(align) && align <= c.page
    ensures Sound(c.(align := align, abyte := abyte), st)
  {
    var d := c.(align := align, abyte := abyte);
    forall b: Block
      ensures Lo(d, b) == Lo(c, b) && Hi(d, b) == Hi(c, b) && (BlockOk(d, b) <==> BlockOk(c, b))
      ensures Clean(d, st.mem, b) <==> Clean(c, st.mem, b)
    {
    }
    SettingsCover(c, d, st.list);
  }

  lemma SettingsCover(c: Config, d: Config, s: seq<Block>)
    requires c.page > 0 && d.page > 0 && forall b: Block :: Lo(d, b) == Lo(c, b) && Hi(d, b) == Hi(c, b)
    ensures forall x :: Covers(d, s, x) <==> Covers(c, s, x)
    ensures NoBorder(c, s) ==> NoBorder(d, s)
  {
    forall x
      ensures Covers(d, s, x) <==> Covers(c, s, x)
    {
    }
  }
}
