// __mp_resizealloc (src/alloc.c:409-559): a live block grows into the free
// block on its right, or gives its end back.
module Resizing {
  import opened Memory
  import opened Rounding
  import opened Blocks
  import opened Heap

  // The free block that borders on live block i, if there is one.
  predicate HasRoom(c: Config, s: seq<Block>, i: nat)
    requires c.page > 0 && i < |s|
  {
    i + 1 < |s| && s[i + 1].Free? && Hi(c, s[i]) == s[i + 1].start
  }

  function Room(c: Config, s: seq<Block>, i: nat): nat
    requires c.page > 0 && i < |s|
  {
    if HasRoom(c, s, i) then s[i + 1].size else 0
  }

  // How many bytes (whole pages in page mode) the block needs on top of what
  // it has.
  function Need(c: Config, b: Block, l: nat): int
    requires c.page > 0
  {
    Span(c, l) - Span(c, b.size)
  }

  predicate CanResize(c: Config, s: seq<Block>, i: nat, l: nat)
    requires c.page > 0 && i < |s|
  {
    !(c.pageAlloc && c.upper) && Need(c, s[i], l) <= Room(c, s, i)
  }

  function Resized(c: Config, s: seq<Block>, i: nat, l: nat): (r: seq<Block>)
    requires c.page > 0 && i < |s| && s[i].Live?
    requires Need(c, s[i], l) <= Room(c, s, i)
    ensures |r| > 0
  {
    [Live(s[i].start, l, s[i].info)] + Leftover(c, s, i, l)
  }

  // The free block that remains on the right.
  function Leftover(c: Config, s: seq<Block>, i: nat, l: nat): (r: seq<Block>)
    requires c.page > 0 && i < |s|
  {
    var left := Room(c, s, i) - Need(c, s[i], l);
    var end := Hi(c, s[i]) + Need(c, s[i], l);
    if left > 0 && end >= 0 then [Free(end, left)] else []
  }

  function RunLength(c: Config, s: seq<Block>, i: nat): (k: nat)
    requires c.page > 0 && i < |s|
    ensures i + k <= |s| && (k == 1 || k == 2)
  {
    if HasRoom(c, s, i) then 2 else 1
  }

  // src/alloc.c:533-555: what is given back receives the free byte, the new
  // overflow buffer or page slack the overflow byte.
  function ResizedMem(c: Config, mem: seq<byte>, b: Block, l: nat): (r: seq<byte>)
    requires c.page > 0
    ensures |r| == |mem|
  {
    if c.pageAlloc then
      if c.watch then mem else Filled(mem, b.start + l, c.obyte, Span(c, l) - l)
    else
      var m := if l < b.size then Filled(mem, b.start + l + c.oflow, c.fbyte, b.size - l) else mem;
      if c.watch then m else Filled(m, b.start + l, c.obyte, c.oflow)
  }

  function Resize(c: Config, st: State, i: nat, l: nat): (r: State)
    requires c.page > 0 && i < |st.list| && st.list[i].Live?
    requires Need(c, st.list[i], l) <= Room(c, st.list, i)
  {
    st.(list := Splice(st.list, i, RunLength(c, st.list, i), Resized(c, st.list, i, l)),
        mem := ResizedMem(c, st.mem, st.list[i], l))
  }

  // The extent of the resized block ends where its new span ends.
  lemma ResizedExtent(c: Config, b: Block, l: nat)
    requires c.Valid() && BlockOk(c, b) && b.Live? && 0 < l && !(c.pageAlloc && c.upper)
    ensures var n := Live(b.start, l, b.info);
            && Lo(c, n) == Lo(c, b) && Hi(c, n) == Hi(c, b) + Need(c, b, l)
            && Hi(c, n) == b.start + Span(c, l) + c.oflow
            && BlockOk(c, n) && 0 < Hi(c, n)
  {
    var n := Live(b.start, l, b.info);
    LoBelowHi(c, b);
    LoBelowHi(c, n);
    if c.pageAlloc {
      RoundDownIs(b.start, c.page, b.start);
      ModSum(b.start, Span(c, l), c.page);
      ModSum(b.start + Span(c, l), c.oflow, c.page);
    }
  }

  // src/alloc.c:437-440 and 459-460: the tests of the C code decide exactly
  // whether the block can be resized.
  ghost predicate ResizeTests(c: Config, s: seq<Block>, i: nat, l: nat)
    requires c.page > 0 && i < |s|
  {
    var need, m := Need(c, s[i], l), Span(c, s[i].size);
    && (need == 0 <==> if c.pageAlloc then l <= m && l > m - c.page else l == s[i].size)
    && (need != 0 ==> (need > 0 <==> l > s[i].size))
    && (need > 0 && HasRoom(c, s, i) ==> (need <= s[i + 1].size <==> m + s[i + 1].size >= l))
    && Hi(c, s[i]) == s[i].start + m + c.oflow
    && (i + 1 < |s| ==> Hi(c, s[i]) <= Lo(c, s[i + 1]))
  }

  lemma CanResizeTest(c: Config, s: seq<Block>, i: nat, l: nat)
    requires c.Valid() && Chain(c, s) && i < |s| && s[i].Live? && 0 < l && !(c.pageAlloc && c.upper)
    ensures ResizeTests(c, s, i, l)
  {
    var b := s[i];
    var m := Span(c, b.size);
    ResizedExtent(c, b, b.size);
    if c.pageAlloc {
      if l <= m && l > m - c.page {
        RoundUpIs(l, c.page, m);
      }
      if HasRoom(c, s, i) {
        assert BlockOk(c, s[i + 1]);
        ModSum(s[i + 1].start + s[i + 1].size, s[i + 1].start, c.page);
        ModSum(m, s[i + 1].size, c.page);
        if m + s[i + 1].size >= l {
          RoundUpLeast(l, c.page, m + s[i + 1].size);
        }
      }
      if b.size < l {
        SpanMonotone(c, b.size, l);
      } else {
        SpanMonotone(c, l, b.size);
      }
    }
  }

  lemma SpanMonotone(c: Config, l: nat, k: nat)
    requires c.page > 0 && l <= k
    ensures Span(c, l) <= Span(c, k)
  {
    if c.pageAlloc {
      RoundUpLeast(l, c.page, RoundUp(k, c.page));
    }
  }

  lemma ResizedTiles(c: Config, s: seq<Block>, i: nat, l: nat)
    requires c.Valid() && Chain(c, s) && i < |s| && s[i].Live? && 0 < l && CanResize(c, s, i, l)
    ensures var hi := Hi(c, s[i]) + Room(c, s, i);
            && Tiles(c, s[i..i + RunLength(c, s, i)], Lo(c, s[i]), hi)
            && Tiles(c, Resized(c, s, i, l), Lo(c, s[i]), hi)
  {
    var b := s[i];
    var hi := Hi(c, b) + Room(c, s, i);
    ResizedExtent(c, b, l);
    LoBelowHi(c, b);
    if HasRoom(c, s, i) {
      assert BlockOk(c, s[i + 1]);
      assert s[i..i + 2] == [s[i], s[i + 1]];
    } else {
      assert s[i..i + 1] == [s[i]];
    }
    assert c.pageAlloc ==> hi % c.page == 0;
    var m := Resized(c, s, i, l);
    if |m| == 2 && c.pageAlloc {
      ModSum(hi, Hi(c, m[0]), c.page);
    }
  }

  lemma ResizedClean(c: Config, s: seq<Block>, mem: seq<byte>, i: nat, l: nat)
    requires c.Valid() && Chain(c, s) && i < |s| && s[i].Live? && 0 < l && CanResize(c, s, i, l)
    requires Clean(c, mem, s[i]) && (HasRoom(c, s, i) ==> Clean(c, mem, s[i + 1]))
    ensures SameOutside(mem, ResizedMem(c, mem, s[i], l), Lo(c, s[i]), Hi(c, s[i]) + Room(c, s, i))
    ensures forall j :: 0 <= j < |Resized(c, s, i, l)| ==>
              Clean(c, ResizedMem(c, mem, s[i], l), Resized(c, s, i, l)[j])
    ensures forall x :: s[i].start <= x < s[i].start + (if l < s[i].size then l else s[i].size) && x < |mem| ==>
              ResizedMem(c, mem, s[i], l)[x] == mem[x]
  {
    var b := s[i];
    ResizedExtent(c, b, l);
    LoBelowHi(c, b);
    if c.pageAlloc {
      RoundDownIs(b.start, c.page, b.start);
    }
    var m := Resized(c, s, i, l);
    var now := ResizedMem(c, mem, b, l);
    assert Clean(c, now, m[0]);
    assert |m| == 2 ==> Clean(c, now, m[1]);
  }

  lemma ResizedFits(c: Config, s: seq<Block>, i: nat, l: nat)
    requires c.Valid() && Chain(c, s) && NoBorder(c, s) && i < |s| && s[i].Live? && 0 < l && CanResize(c, s, i, l)
    ensures Fits(c, s, i, RunLength(c, s, i), Resized(c, s, i, l))
  {
    var m, k := Resized(c, s, i, l), RunLength(c, s, i);
    ResizedTiles(c, s, i, l);
    if i + k < |s| && Borders(c, m[|m| - 1], s[i + k]) {
      if k == 2 {
        assert Borders(c, s[i + 1], s[i + 2]);
      }
    }
  }

  lemma ResizeSound(c: Config, st: State, i: nat, l: nat)
    requires Sound(c, st) && i < |st.list| && st.list[i].Live? && 0 < l && CanResize(c, st.list, i, l)
    ensures Sound(c, Resize(c, st, i, l))
  {
    var s, b := st.list, st.list[i];
    var m, k := Resized(c, s, i, l), RunLength(c, s, i);
    ResizedTiles(c, s, i, l);
    ResizedClean(c, s, st.mem, i, l);
    SpliceLaid(c, s, st.mem, st.owned, i, k, m, ResizedMem(c, st.mem, b, l), Lo(c, b), Hi(c, b) + Room(c, s, i));
    ResizedFits(c, s, i, l);
    SpliceNoBorder(c, s, i, k, m);
    FreedSplice(s, i, k, m);
    assert FreedStarts(s[i..i + k]) == {} == FreedStarts(m);
  }
}
