// The address-ordered list of memory blocks behind src/alloc.c, as values:
// what it means for the list to tile the heap, and how the allocator's
// operations replace a run of blocks by another run over the same addresses.
module Blocks {
  import opened Memory
  import opened Rounding
  import opened BitTricks

  // The settings of an allochead.  The user may change align and abyte later;
  // what they are makes no difference to the heap (see SettingsSound).
  datatype Config = Config(page: nat, align: nat, oflow: nat, obyte: byte, abyte: byte, fbyte: byte,
                           pageAlloc: bool, upper: bool, watch: bool, preserve: bool)
  {
    // src/alloc.c:74-83: the buffer size is a power of two or zero, and whole
    // pages when every allocation is made of pages.
    ghost predicate Valid() {
      && IsPowerOfTwo(page) && IsPowerOfTwo(align) && align <= page
      && (oflow == 0 || IsPowerOfTwo(oflow))
      && (pageAlloc ==> oflow > 0 && oflow % page == 0)
    }
  }

  // src/alloc.c:80-83
  function InPages(oflow: nat, page: nat, pageAlloc: bool): nat
    requires page > 0
  {
    if !pageAlloc then oflow else if oflow == 0 then RoundUp(1, page) else RoundUp(oflow, page)
  }

  // src/alloc.c:74-84: the buffer size that the user asks for is rounded up.
  function BufferSize(page: nat, s: nat, pageAlloc: bool, k: Machine): Option<nat>
    requires page > 0 && k.Valid()
  {
    match RoundedPower(s, k)
    case None => None
    case Some(oflow) => Some(InPages(oflow, page, pageAlloc))
  }

  // The settings are valid whatever small enough buffer size the user asks for.
  lemma NewConfigOk(c: Config, s: nat, k: Machine)
    requires IsPowerOfTwo(c.page) && IsPowerOfTwo(c.align) && c.align <= c.page
    requires k.Valid() && s < k.words && Shiftable(s, k) && BufferSize(c.page, s, c.pageAlloc, k) == Some(c.oflow)
    ensures c.Valid()
  {
    var r := BufferSizeLeast(c.page, s, c.pageAlloc, k, c.page);
    if c.pageAlloc {
      PowersDivide(c.page, r);
    }
  }

  // No smaller than s, a power of two, at least a page in page mode, and no
  // greater than any such m.
  predicate LeastBuffer(r: nat, page: nat, s: nat, pageAlloc: bool, m: nat) {
    && s <= r && (r == 0 <==> s == 0 && !pageAlloc) && (r > 0 ==> IsPowerOfTwo(r))
    && (pageAlloc ==> page <= r)
    && (IsPowerOfTwo(m) && s <= m && (pageAlloc ==> page <= m) ==> r <= m)
  }

  lemma BufferSizeLeast(page: nat, s: nat, pageAlloc: bool, k: Machine, m: nat) returns (r: nat)
    requires IsPowerOfTwo(page) && k.Valid() && s < k.words && Shiftable(s, k)
    ensures BufferSize(page, s, pageAlloc, k) == Some(r) && LeastBuffer(r, page, s, pageAlloc, m)
  {
    ShiftRoundsIff(s, k);
    LeastPower(s, m);
    r := InPagesLeast(PowerOfTwo(s), page, s, pageAlloc, m);
  }

  lemma InPagesLeast(n: nat, page: nat, s: nat, pageAlloc: bool, m: nat) returns (r: nat)
    requires IsPowerOfTwo(page)
    requires if s == 0 then n == 0 else s <= n && IsPowerOfTwo(n) && (IsPowerOfTwo(m) && s <= m ==> n <= m)
    ensures r == InPages(n, page, pageAlloc) && LeastBuffer(r, page, s, pageAlloc, m)
  {
    r := InPages(n, page, pageAlloc);
    InPagesIs(n, page, pageAlloc);
    IsLeast(r, n, page, s, pageAlloc, m);
  }

  lemma LeastPower(s: nat, m: nat)
    ensures var n := PowerOfTwo(s);
      if s == 0 then n == 0 else s <= n && IsPowerOfTwo(n) && (IsPowerOfTwo(m) && s <= m ==> n <= m)
  {
    if s > 0 {
      PowerOfTwoIsLeast(s, m);
    }
  }

  lemma OnePage(page: nat)
    requires IsPowerOfTwo(page)
    ensures RoundUp(1, page) == page
  {
    ModIsZero(1, page);
    RoundUpIs(1, page, page);
  }

  lemma InPagesIs(n: nat, page: nat, pageAlloc: bool)
    requires IsPowerOfTwo(page) && (n == 0 || IsPowerOfTwo(n))
    ensures InPages(n, page, pageAlloc) == if pageAlloc && n < page then page else n
  {
    if pageAlloc {
      if n == 0 {
        OnePage(page);
      } else {
        WholePages(n, page);
      }
    }
  }

  lemma IsLeast(r: nat, n: nat, page: nat, s: nat, pageAlloc: bool, m: nat)
    requires IsPowerOfTwo(page) && r == (if pageAlloc && n < page then page else n)
    requires if s == 0 then n == 0 else s <= n && IsPowerOfTwo(n) && (IsPowerOfTwo(m) && s <= m ==> n <= m)
    ensures LeastBuffer(r, page, s, pageAlloc, m)
  {
  }

  // The allocator gets the least buffer size if and only if the one that the
  // user asks for is small enough.
  lemma BufferSizeIff(page: nat, s: nat, pageAlloc: bool, k: Machine, m: nat)
    requires IsPowerOfTwo(page) && k.Valid() && s < k.words && page <= Exp2(k.bits - 2)
    ensures Shiftable(s, k) <==>
      exists r :: BufferSize(page, s, pageAlloc, k) == Some(r) && LeastBuffer(r, page, s, pageAlloc, m)
  {
    if Shiftable(s, k) {
      var r := BufferSizeLeast(page, s, pageAlloc, k, m);
    } else {
      forall r | BufferSize(page, s, pageAlloc, k) == Some(r)
        ensures !LeastBuffer(r, page, s, pageAlloc, m)
      {
        TooLarge(page, s, pageAlloc, k, r);
      }
    }
  }

  // A larger size gives no buffer size, one that is too small, or one that is
  // no power of two.
  lemma TooLarge(page: nat, s: nat, pageAlloc: bool, k: Machine, r: nat)
    requires IsPowerOfTwo(page) && k.Valid() && s < k.words && page <= Exp2(k.bits - 2) && !Shiftable(s, k)
    requires BufferSize(page, s, pageAlloc, k) == Some(r)
    ensures r < s || !IsPowerOfTwo(r)
    ensures s > 0 && r == 0 ==> r < s
  {
    ShiftRoundsIff(s, k);
    var o := RoundedPower(s, k).value;
    if o == 0 {
      NotAbove(s, page, k);
      NoBuffer(o, page, pageAlloc);
    } else {
      LargePages(page, k);
      SameInPages(o, page, pageAlloc);
    }
  }

  lemma NoBuffer(n: nat, page: nat, pageAlloc: bool)
    requires IsPowerOfTwo(page) && n == 0
    ensures InPages(n, page, pageAlloc) <= page
  {
    InPagesIs(n, page, pageAlloc);
  }

  lemma SameInPages(n: nat, page: nat, pageAlloc: bool)
    requires n > 0 && page > 0 && RoundUp(n, page) == n
    ensures InPages(n, page, pageAlloc) == n
  {
  }

  lemma NotAbove(s: nat, page: nat, k: Machine)
    requires k.Valid() && page <= Exp2(k.bits - 2) && !Shiftable(s, k) && IsPowerOfTwo(page)
    ensures page < s
  {
  }

  lemma LargePages(page: nat, k: Machine)
    requires IsPowerOfTwo(page) && k.Valid() && page <= Exp2(k.bits - 2)
    ensures 0 < Exp2(k.bits - 1) <= k.words
    ensures RoundUp(k.words - Exp2(k.bits - 1), page) == k.words - Exp2(k.bits - 1)
  {
    var h := Exp2(k.bits - 1);
    assert h == 2 * Exp2(k.bits - 2) && Exp2(k.bits) == 2 * h;
    PowersDivide(page, h);
    PowersDivide(page, k.words);
    ModSum(k.words, h, page);
    RoundUpIs(k.words - h, page, k.words - h);
  }

  lemma BufferSizeIs(page: nat, n: nat, k: nat, pageAlloc: bool)
    requires IsPowerOfTwo(page) && IsPowerOfTwo(k) && k == if n == 0 then 1 else n
    ensures pageAlloc ==> var r := RoundUp(k, page); r == (if k < page then page else k) && IsPowerOfTwo(r)
  {
    if pageAlloc {
      WholePages(k, page);
    }
  }

  // A power of two is rounded up to the larger one of it and the page size.
  lemma WholePages(n: nat, page: nat)
    requires IsPowerOfTwo(n) && IsPowerOfTwo(page)
    ensures RoundUp(n, page) == if n < page then page else n
  {
    ModIsZero(1, page);
    if n < page {
      RoundUpIs(n, page, page);
    } else {
      PowersDivide(page, n);
      RoundUpIs(n, page, n);
    }
  }

  datatype AllocType = Alloca | StrDupA | StrNDupA | New | NewVec | Delete | DeleteVec | DeAlloca
                     | Calloc | XCalloc | ReCalloc | Realloc | ReallocF | Expand | MemAlign | VAlloc | PVAlloc | Other

  // The fields of an infonode that the allocator's clients act on.
  datatype Info = Info(kind: AllocType, alloc: nat, realloc: nat, freed: bool, marked: bool)

  // An allocnode, by the search tree that its tree node belongs to.
  datatype Block =
    | Free(start: nat, size: nat)
    | Live(start: nat, size: nat, info: Info)
    | Freed(start: nat, size: nat, info: Info)

  // The addresses a block occupies with its overflow buffers and page slack:
  // what src/alloc.c:581-588 and 849-865 recompute from block and size.
  function Lo(c: Config, b: Block): int
    requires c.page > 0
  {
    if b.Free? then b.start
    else if c.pageAlloc then RoundDown(b.start, c.page) - c.oflow
    else b.start - c.oflow
  }

  function Hi(c: Config, b: Block): int
    requires c.page > 0
  {
    if b.Free? then b.start + b.size
    else if c.pageAlloc then
      RoundDown(b.start, c.page) + RoundUp(b.size + b.start - RoundDown(b.start, c.page), c.page) + c.oflow
    else b.start + b.size + c.oflow
  }

  ghost predicate BlockOk(c: Config, b: Block)
    requires c.page > 0
  {
    && b.size > 0 && 0 < Lo(c, b)
    && (c.pageAlloc ==> Lo(c, b) % c.page == 0 && Hi(c, b) % c.page == 0)
    && (c.pageAlloc && !c.upper && !b.Free? ==> b.start % c.page == 0)
  }

  // In address order, and no two blocks overlap.
  ghost predicate Chain(c: Config, s: seq<Block>)
    requires c.page > 0
  {
    && (forall i :: 0 <= i < |s| ==> BlockOk(c, s[i]))
    && (forall i, j :: 0 <= i < j < |s| ==> Hi(c, s[i]) <= Lo(c, s[j]))
  }

  ghost predicate Ascending(s: seq<Block>) {
    forall i, j :: 0 <= i < j < |s| ==> s[i].start < s[j].start
  }

  lemma ChainAscends(c: Config, s: seq<Block>)
    requires c.page > 0 && Chain(c, s)
    ensures Ascending(s)
  {
    forall i, j | 0 <= i < j < |s|
      ensures s[i].start < s[j].start
    {
      LoBelowHi(c, s[i]);
      LoBelowHi(c, s[j]);
    }
  }

  ghost predicate Borders(c: Config, a: Block, b: Block)
    requires c.page > 0
  {
    a.Free? && b.Free? && Hi(c, a) == Lo(c, b)
  }

  // Free neighbours in the list never touch.
  ghost predicate NoBorder(c: Config, s: seq<Block>)
    requires c.page > 0
  {
    forall i :: 0 < i < |s| ==> !Borders(c, s[i - 1], s[i])
  }

  // Some block of the list covers address x.
  ghost predicate Covers(c: Config, s: seq<Block>, x: int)
    requires c.page > 0
  {
    exists i :: 0 <= i < |s| && Lo(c, s[i]) <= x < Hi(c, s[i])
  }

  // The run m covers lo..hi without a gap.
  ghost predicate Tiles(c: Config, m: seq<Block>, lo: int, hi: int)
    requires c.page > 0
  {
    && |m| > 0 && Lo(c, m[0]) == lo && Hi(c, m[|m| - 1]) == hi
    && (forall i :: 0 <= i < |m| ==> BlockOk(c, m[i]))
    && (forall i :: 0 < i < |m| ==> Hi(c, m[i - 1]) == Lo(c, m[i]))
  }

  lemma LoBelowHi(c: Config, b: Block)
    requires c.page > 0 && b.size > 0
    ensures Lo(c, b) < Hi(c, b)
    ensures !b.Free? ==> Lo(c, b) + c.oflow <= b.start && b.start + b.size + c.oflow <= Hi(c, b)
  {
  }

  // A run is bounded by its ends, and covers exactly what lies between them.
  lemma {:induction false} TilesCovers(c: Config, m: seq<Block>, lo: int, hi: int)
    requires c.page > 0 && Tiles(c, m, lo, hi)
    ensures Chain(c, m)
    ensures forall i :: 0 <= i < |m| ==> lo <= Lo(c, m[i]) < Hi(c, m[i]) <= hi
    ensures forall x :: Covers(c, m, x) <==> lo <= x < hi
  {
    LoBelowHi(c, m[0]);
    if |m| > 1 {
      var t := m[1..];
      TilesCovers(c, t, Lo(c, m[1]), hi);
      assert forall i :: 1 <= i < |m| ==> m[i] == t[i - 1];
      forall x
        ensures Covers(c, m, x) <==> lo <= x < hi
      {
        CoversFirst(c, m, x);
      }
    }
  }

  lemma CoversFirst(c: Config, m: seq<Block>, x: int)
    requires c.page > 0 && m != []
    ensures Covers(c, m, x) <==> Lo(c, m[0]) <= x < Hi(c, m[0]) || Covers(c, m[1..], x)
  {
    var t := m[1..];
    if Covers(c, t, x) {
      var i :| 0 <= i < |t| && Lo(c, t[i]) <= x < Hi(c, t[i]);
      assert t[i] == m[i + 1];
    }
    if Covers(c, m, x) {
      var i :| 0 <= i < |m| && Lo(c, m[i]) <= x < Hi(c, m[i]);
      assert i > 0 ==> m[i] == t[i - 1];
    }
  }

  // s with the k blocks from i on replaced by m.
  function Splice(s: seq<Block>, i: nat, k: nat, m: seq<Block>): (r: seq<Block>)
    requires i + k <= |s|
  {
    s[..i] + m + s[i + k..]
  }

  // No free block of m borders on a free block of s next to the gap.
  ghost predicate Fits(c: Config, s: seq<Block>, i: nat, k: nat, m: seq<Block>)
    requires c.page > 0 && i + k <= |s| && |m| > 0
  {
    && NoBorder(c, m)
    && (i > 0 ==> !Borders(c, s[i - 1], m[0]))
    && (i + k < |s| ==> !Borders(c, m[|m| - 1], s[i + k]))
  }

  // Replacing a run by another over the same addresses keeps the list in
  // order and the covered addresses the same.
  lemma SpliceChain(c: Config, s: seq<Block>, i: nat, k: nat, m: seq<Block>, lo: int, hi: int)
    requires c.page > 0 && i + k <= |s| && Chain(c, s)
    requires Tiles(c, s[i..i + k], lo, hi) && Tiles(c, m, lo, hi)
    ensures Chain(c, Splice(s, i, k, m))
    ensures forall x :: Covers(c, Splice(s, i, k, m), x) <==> Covers(c, s, x)
  {
    var was := s[i..i + k];
    TilesCovers(c, was, lo, hi);
    TilesCovers(c, m, lo, hi);
    var r := Splice(s, i, k, m);
    forall p, q | 0 <= p < q < |r|
      ensures Hi(c, r[p]) <= Lo(c, r[q])
    {
      assert was[0] == s[i] && was[k - 1] == s[i + k - 1];
    }
    SpliceCovers(c, s, i, k, m, was);
  }

  lemma SpliceCovers(c: Config, s: seq<Block>, i: nat, k: nat, m: seq<Block>, was: seq<Block>)
    requires c.page > 0 && i + k <= |s| && was == s[i..i + k]
    requires forall x :: Covers(c, was, x) <==> Covers(c, m, x)
    ensures forall x :: Covers(c, Splice(s, i, k, m), x) <==> Covers(c, s, x)
  {
    var r := Splice(s, i, k, m);
    forall x
      ensures Covers(c, r, x) <==> Covers(c, s, x)
    {
      CoversParts(c, s[..i], m, s[i + k..], x);
      CoversParts(c, s[..i], was, s[i + k..], x);
      assert s == s[..i] + was + s[i + k..];
    }
  }

  lemma CoversParts(c: Config, a: seq<Block>, b: seq<Block>, d: seq<Block>, x: int)
    requires c.page > 0
    ensures Covers(c, a + b + d, x) <==> Covers(c, a, x) || Covers(c, b, x) || Covers(c, d, x)
  {
    var s := a + b + d;
    if i :| 0 <= i < |a| && Lo(c, a[i]) <= x < Hi(c, a[i]) {
      assert s[i] == a[i];
    }
    if i :| 0 <= i < |b| && Lo(c, b[i]) <= x < Hi(c, b[i]) {
      assert s[|a| + i] == b[i];
    }
    if i :| 0 <= i < |d| && Lo(c, d[i]) <= x < Hi(c, d[i]) {
      assert s[|a| + |b| + i] == d[i];
    }
    if i :| 0 <= i < |s| && Lo(c, s[i]) <= x < Hi(c, s[i]) {
      if i < |a| {
        assert s[i] == a[i];
      } else if i < |a| + |b| {
        assert s[i] == b[i - |a|];
      } else {
        assert s[i] == d[i - |a| - |b|];
      }
    }
  }

  lemma SpliceNoBorder(c: Config, s: seq<Block>, i: nat, k: nat, m: seq<Block>)
    requires c.page > 0 && i + k <= |s| && |m| > 0
    requires forall j :: 0 < j < |s| && (j < i || i + k < j) ==> !Borders(c, s[j - 1], s[j])
    requires Fits(c, s, i, k, m)
    ensures NoBorder(c, Splice(s, i, k, m))
  {
    var r := Splice(s, i, k, m);
    forall j | 0 < j < |r|
      ensures !Borders(c, r[j - 1], r[j])
    {
      if j < i {
        assert r[j - 1] == s[j - 1] && r[j] == s[j];
      } else if j == i {
        assert r[j - 1] == s[i - 1] && r[j] == m[0];
      } else if j < i + |m| {
        assert r[j - 1] == m[j - 1 - i] && r[j] == m[j - i];
      } else if j == i + |m| {
        assert r[j - 1] == m[|m| - 1] && r[j] == s[i + k];
      } else {
        assert r[j - 1] == s[j - 1 - |m| + k] && r[j] == s[j - |m| + k];
      }
    }
  }
}
