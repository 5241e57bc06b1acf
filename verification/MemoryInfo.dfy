// The calls behind malloc, realloc and free (src/info.c), without logging and
// profiling: the allocator with the details of each allocation and the stack
// of blocks made by alloca.
module MemoryInfo {
  import opened Memory
  import opened Rounding
  import opened Blocks
  import opened Heap
  import opened Resizing
  import opened Allocator
  import opened Canonical
  import opened Effects
  import opened AllocaStack

  // What the outside world answers during one call: the heap manager, the
  // slot tables for nodes, and the random failures of FAILFREQ.
  datatype Supply = Supply(heap: Option<(nat, nat)>, node: bool, left: bool, right: bool,
                           infoNode: bool, allocaNode: bool, inject: bool)

  ghost predicate Suits(c: Config, st: State, l: nat, a: nat, s: Supply) {
    s.heap.Some? ==> Answers(c, st, AtLeastOne(l), AlignOf(c, a), s.heap.value.0, s.heap.value.1)
  }

  // Address p is aligned as the request wants it.
  predicate Aligned(c: Config, p: nat, a: nat) {
    0 < AlignOf(c, a) && p % AlignOf(c, a) == 0
  }

  // A free block or the heap manager serves the request, and there are slots
  // for its nodes.
  ghost predicate Supplied(c: Config, list: seq<Block>, l: nat, a: nat, s: Supply) {
    s.left && s.right && (!NoFit(list, Want(c, AtLeastOne(l), AlignOf(c, a))) || (s.node && s.heap.Some?))
  }

  // The block at p can be resized where it is.
  ghost predicate InPlace(c: Config, list: seq<Block>, p: nat, l: nat, node: bool)
    requires c.page > 0
  {
    var i := Position(list, p);
    i < |list| && CanResize(c, list, i, l) && (NeedsNode(c, list, i, l) ==> node)
  }

  // The same blocks in the same places, whatever their details.
  ghost predicate SameShape(c: Config, was: seq<Block>, now: seq<Block>)
    requires c.page > 0
  {
    |now| == |was| && forall j :: 0 <= j < |was| ==>
      && now[j].Free? == was[j].Free? && now[j].start == was[j].start && now[j].size == was[j].size
      && Hi(c, now[j]) == Hi(c, was[j])
  }

  lemma SameFit(c: Config, was: seq<Block>, now: seq<Block>, want: int)
    requires c.page > 0 && SameShape(c, was, now)
    ensures NoFit(now, want) == NoFit(was, want)
  {
  }

  lemma SamePosition(c: Config, was: seq<Block>, now: seq<Block>, p: int)
    requires c.page > 0 && SameShape(c, was, now)
    ensures Position(now, p) == Position(was, p)
  {
    var i, j := Position(now, p), Position(was, p);
    assert i < |now| ==> was[i].start >= p;
    assert j < |was| ==> now[j].start >= p;
  }

  lemma SameResize(c: Config, was: seq<Block>, now: seq<Block>, i: nat, l: nat)
    requires c.page > 0 && SameShape(c, was, now) && i < |was|
    ensures CanResize(c, now, i, l) == CanResize(c, was, i, l) && NeedsNode(c, now, i, l) == NeedsNode(c, was, i, l)
  {
  }

  // New details for a block change neither answer.
  lemma SameRoom(c: Config, was: seq<Block>, i: nat, info: Info, now: seq<Block>, p: nat, l: nat, a: nat, s: Supply)
    requires c.page > 0 && i < |was| && was[i].Live?
    requires now == Splice(was, i, 1, [Live(was[i].start, was[i].size, info)])
    ensures Supplied(c, now, l, a, s) == Supplied(c, was, l, a, s)
    ensures InPlace(c, now, p, l, s.node) == InPlace(c, was, p, l, s.node)
  {
    assert SameShape(c, was, now);
    SameFit(c, was, now, Want(c, AtLeastOne(l), AlignOf(c, a)));
    SamePosition(c, was, now, p);
    if Position(was, p) < |was| {
      SameResize(c, was, now, Position(was, p), l);
    }
  }

  predicate Zeroed(k: AllocType) {
    k.Calloc? || k.XCalloc? || k.ReCalloc?
  }

  // The live block at address p.
  function At(s: seq<Block>, p: nat): (r: Option<Block>)
    ensures r.Some? ==> r.value in s && r.value.Live? && r.value.start == p
  {
    var i := Position(s, p);
    if i < |s| && s[i].Live? && s[i].start == p then Some(s[i]) else None
  }

  // __mp_getalloc seen through the set of live blocks; p is 0 for NULL.  fits
  // is false where the fresh heap block is too small for the alignment.
  method Obtain(alloc: AllocHead, l: nat, a: nat, info: Info, s: Supply) returns (p: nat, ghost fits: bool)
    requires alloc.Valid() && Bounded(alloc.c, AtLeastOne(l)) && Suits(alloc.c, alloc.View(), l, a, s)
    modifies alloc`list, alloc`ftree, alloc`fsize, alloc`atree, alloc`asize, alloc`owned, alloc.mem
    ensures alloc.Valid()
    ensures p == 0 ==> Lives(alloc.list) == old(Lives(alloc.list)) && Used(alloc.list) == old(Used(alloc.list))
    ensures p != 0 ==> var n := Live(p, AtLeastOne(l), info);
      && n !in old(Lives(alloc.list)) && Lives(alloc.list) == old(Lives(alloc.list)) + {n}
      && Used(alloc.list) == old(Used(alloc.list)) + {n}
      && Aligned(alloc.c, p, a)
    ensures AllUntouched(old(alloc.mem[..]), alloc.mem[..], old(Lives(alloc.list)))
    ensures 0 < AlignOf(alloc.c, a) && (Slack(alloc.c, AtLeastOne(l), AlignOf(alloc.c, a)) ==> fits)
    ensures !fits ==> p == 0
    ensures fits ==> (p != 0 <==> Supplied(alloc.c, old(alloc.list), l, a, s))
  {
    AlignOfDivides(alloc.c, a);
    ghost var was := alloc.View();
    var r, base, i := alloc.GetAllocIfRoom(l, a, info, s.heap, s.node, s.left, s.right);
    fits := !r.NoRoom?;
    p := if r.Got? then r.block else 0;
    ObtainEffect(alloc.c, was, base, alloc.View(), i, l, a, info, s, r);
  }

  lemma ObtainEffect(c: Config, was: State, base: State, now: State, i: nat, l: nat, a: nat, info: Info, s: Supply,
                     r: AllocResult)
    requires Sound(c, was) && Suits(c, was, l, a, s)
    requires base == was || (s.heap.Some? && base == Grow(c, was, s.heap.value.0, s.heap.value.1))
    requires !r.Got? ==> now == base
    requires r.Got? ==>
      && i < |base.list| && Request(c, base.list[i], AtLeastOne(l), AlignOf(c, a))
      && CanHold(c, base.list[i], AtLeastOne(l), AlignOf(c, a))
      && now == Carve(c, base, i, AtLeastOne(l), AlignOf(c, a), info)
      && r.block == CarvedBlock(c, base.list[i], AtLeastOne(l), AlignOf(c, a), info).start
    ensures AllUntouched(was.mem, now.mem, Lives(was.list))
    ensures !r.Got? ==> Lives(now.list) == Lives(was.list) && Used(now.list) == Used(was.list)
    ensures r.Got? ==> var n := Live(r.block, AtLeastOne(l), info);
      && r.block != 0 && n !in Lives(was.list) && Lives(now.list) == Lives(was.list) + {n}
      && Used(now.list) == Used(was.list) + {n}
      && 0 < AlignOf(c, a) && r.block % AlignOf(c, a) == 0
  {
    if base != was {
      GrowEffect(c, was, s.heap.value.0, s.heap.value.1);
      GrowSound(c, was, s.heap.value.0, s.heap.value.1);
    }
    if r.Got? {
      CarveEffect(c, base, i, AtLeastOne(l), AlignOf(c, a), info);
      CarvedExtent(c, base.list[i], AtLeastOne(l), AlignOf(c, a), info);
      UntouchedTrans(was.mem, base.mem, now.mem, Lives(was.list));
    }
  }

  // Filling bytes of one live block.
  method FillPayload(alloc: AllocHead, ghost b: Block, p: nat, v: byte, l: nat)
    requires alloc.Valid() && b in Lives(alloc.list) && b.start <= p && p + l <= b.start + b.size
    modifies alloc.mem
    ensures alloc.Valid()
    ensures AllUntouched(old(alloc.mem[..]), alloc.mem[..], old(Lives(alloc.list)) - {b})
    ensures alloc.mem[..] == Filled(old(alloc.mem[..]), p, v, l)
  {
    PayloadFits(alloc.c, alloc.View(), b);
    ghost var i := LiveAt(alloc.c, alloc.list, b);
    ghost var was := alloc.View();
    MemSet(alloc.mem, p, v, l);
    PayloadWrite(alloc.c, was, i, alloc.mem[..]);
  }

  lemma LiveAt(c: Config, s: seq<Block>, b: Block) returns (i: nat)
    requires c.page > 0 && Chain(c, s) && b in Lives(s)
    ensures i < |s| && s[i] == b && i == Position(s, b.start) && b.Live? && At(s, b.start) == Some(b)
  {
    InLives(s, b);
    i := LiveIndex(c, s, b);
  }

  lemma PayloadFits(c: Config, st: State, b: Block)
    requires Sound(c, st) && b in Lives(st.list)
    ensures 0 < b.start && 0 < b.size && b.start + b.size <= |st.mem|
  {
    var i := LiveAt(c, st.list, b);
    assert BlockOk(c, st.list[i]) && Hi(c, st.list[i]) <= |st.mem|;
    LoBelowHi(c, b);
  }

  // What is known of a live block.
  lemma LiveOk(c: Config, st: State, b: Block)
    requires Sound(c, st) && Tagged(Used(st.list)) && b in Lives(st.list)
    ensures b.Live? && TagOk(b) && Sole(Lives(st.list), b) && b.start != 0
  {
    LivesApart(c, st.list);
    PayloadFits(c, st, b);
    InLives(st.list, b);
    InUsed(st.list, b);
  }

  // Copying from one live block to another.
  method CopyPayload(alloc: AllocHead, ghost n: Block, ghost b: Block, p: nat, q: nat, l: nat)
    requires alloc.Valid() && n in Lives(alloc.list) && b in Lives(alloc.list)
    requires p == n.start && q == b.start && l <= n.size && l <= b.size
    modifies alloc.mem
    ensures alloc.Valid()
    ensures AllUntouched(old(alloc.mem[..]), alloc.mem[..], old(Lives(alloc.list)) - {n})
    ensures p + l <= alloc.mem.Length && q + l <= alloc.mem.Length
    ensures alloc.mem[..] == Copied(old(alloc.mem[..]), p, q, l)
  {
    PayloadFits(alloc.c, alloc.View(), b);
    PayloadFits(alloc.c, alloc.View(), n);
    ghost var i := LiveAt(alloc.c, alloc.list, n);
    ghost var was := alloc.View();
    MemCopy(alloc.mem, p, q, l);
    PayloadWrite(alloc.c, was, i, alloc.mem[..]);
  }

  // A new block with its payload filled.
  method ObtainFilled(alloc: AllocHead, l: nat, a: nat, info: Info, v: byte, s: Supply)
    returns (p: nat, ghost fits: bool)
    requires alloc.Valid() && Bounded(alloc.c, AtLeastOne(l)) && Suits(alloc.c, alloc.View(), l, a, s)
    modifies alloc`list, alloc`ftree, alloc`fsize, alloc`atree, alloc`asize, alloc`owned, alloc.mem
    ensures alloc.Valid()
    ensures p == 0 ==> Lives(alloc.list) == old(Lives(alloc.list)) && Used(alloc.list) == old(Used(alloc.list))
    ensures p != 0 ==> var n := Live(p, AtLeastOne(l), info);
      && n !in old(Lives(alloc.list)) && Lives(alloc.list) == old(Lives(alloc.list)) + {n}
      && Used(alloc.list) == old(Used(alloc.list)) + {n}
      && Aligned(alloc.c, p, a)
      && Holds(alloc.mem[..], p, p + l, v)
    ensures AllUntouched(old(alloc.mem[..]), alloc.mem[..], old(Lives(alloc.list)))
    ensures 0 < AlignOf(alloc.c, a) && (Slack(alloc.c, AtLeastOne(l), AlignOf(alloc.c, a)) ==> fits)
    ensures !fits ==> p == 0
    ensures fits ==> (p != 0 <==> Supplied(alloc.c, old(alloc.list), l, a, s))
  {
    p, fits := Obtain(alloc, l, a, info, s);
    if p != 0 {
      ghost var n, mid := Live(p, AtLeastOne(l), info), alloc.mem[..];
      FillPayload(alloc, n, p, v, l);
      SetAddDrop(old(Lives(alloc.list)), n);
      UntouchedTrans(old(alloc.mem[..]), mid, alloc.mem[..], old(Lives(alloc.list)));
    }
  }

  lemma SetAddDrop<T>(a: set<T>, x: T)
    requires x !in a
    ensures a + {x} - {x} == a
  {
  }

  // The details of a live block change.
  method Describe(alloc: AllocHead, b: Block, info: Info)
    requires alloc.Valid() && b in Lives(alloc.list)
    modifies alloc`list
    ensures alloc.Valid()
    ensures Lives(alloc.list) == old(Lives(alloc.list)) - {b} + {Live(b.start, b.size, info)}
    ensures Used(alloc.list) <= old(Used(alloc.list)) + {Live(b.start, b.size, info)}
  {
    ghost var k := LiveAt(alloc.c, alloc.list, b);
    ChainAscends(alloc.c, alloc.list);
    RelabelEffect(alloc.c, alloc.View(), k, info);
    var i := Position(alloc.list, b.start);
    alloc.SetInfo(i, info);
  }

  // src/info.c:621: the details change, and not the room around the block.
  method Count(alloc: AllocHead, b: Block, ghost l: nat, ghost a: nat, ghost s: Supply)
    requires alloc.Valid() && Tagged(Used(alloc.list)) && b in Lives(alloc.list) && b.Live? && TagOk(b)
    modifies alloc`list
    ensures alloc.Valid() && alloc.c.page > 0 && Tagged(Used(alloc.list))
    ensures Lives(alloc.list) == old(Lives(alloc.list)) - {b} + {Counted(b)}
    ensures Supplied(alloc.c, alloc.list, l, a, s) == Supplied(alloc.c, old(alloc.list), l, a, s)
    ensures InPlace(alloc.c, alloc.list, b.start, l, s.node) == InPlace(alloc.c, old(alloc.list), b.start, l, s.node)
  {
    ghost var k := LiveAt(alloc.c, alloc.list, b);
    ChainAscends(alloc.c, alloc.list);
    RelabelEffect(alloc.c, alloc.View(), k, Counted(b).info);
    var i := Position(alloc.list, b.start);
    alloc.SetInfo(i, Counted(b).info);
    SameRoom(alloc.c, old(alloc.list), k, Counted(b).info, alloc.list, b.start, l, a, s);
    TagChange(old(Used(alloc.list)), Used(alloc.list), Counted(b));
  }

  // __mp_freealloc seen through the set of live blocks.
  method GiveUp(alloc: AllocHead, b: Block, keep: Option<Info>)
    requires alloc.Valid() && b in Lives(alloc.list)
    modifies alloc, alloc.mem
    ensures alloc.Valid() && alloc.fmax == old(alloc.fmax)
    ensures Lives(alloc.list) == old(Lives(alloc.list)) - {b}
    ensures Used(alloc.list)
      <= old(Used(alloc.list)) + (if keep.Some? then {Freed(b.start, b.size, keep.value)} else {})
    ensures AllUntouched(old(alloc.mem[..]), alloc.mem[..], old(Lives(alloc.list)) - {b})
    ensures alloc.flist == if keep.Some? then Push(old(alloc.flist), alloc.fmax, b.start) else old(alloc.flist)
  {
    InLives(alloc.list, b);
    FreeEffect(alloc.c, alloc.View(), b, keep);
    if keep.Some? {
      FreeBlockQueue(alloc.c, alloc.View(), b, keep.value);
    }
    FreeBlockLimit(alloc.c, alloc.View(), b.start, keep);
    alloc.FreeAlloc(b.start, keep);
  }

  lemma FreeBlockLimit(c: Config, st: State, p: nat, keep: Option<Info>)
    requires c.page > 0
    ensures FreeBlock(c, st, p, keep).fmax == st.fmax
    ensures keep.None? ==> FreeBlock(c, st, p, keep).queue == st.queue
  {
  }

  // __mp_resizealloc seen through the set of live blocks.
  method ResizeInPlace(alloc: AllocHead, b: Block, l: nat, node: bool) returns (ok: bool)
    requires alloc.Valid() && b in Lives(alloc.list) && 0 < l && Bounded(alloc.c, l)
    modifies alloc`list, alloc`ftree, alloc`fsize, alloc`asize, alloc.mem
    ensures alloc.Valid()
    ensures alloc.c.page > 0 && (ok <==> InPlace(alloc.c, old(alloc.list), b.start, l, node))
    ensures !ok ==> alloc.View() == old(alloc.View())
    ensures ok ==>
      && Lives(alloc.list) == old(Lives(alloc.list)) - {b} + {Live(b.start, l, b.info)}
      && Used(alloc.list) <= old(Used(alloc.list)) + {Live(b.start, l, b.info)}
    ensures ok ==> AllUntouched(old(alloc.mem[..]), alloc.mem[..], old(Lives(alloc.list)) - {b})
    ensures ok ==> forall x :: b.start <= x < b.start + (if l < b.size then l else b.size) && x < alloc.mem.Length ==>
                     alloc.mem[x] == old(alloc.mem[..])[x]
  {
    ghost var k := LiveAt(alloc.c, alloc.list, b);
    ghost var was := alloc.View();
    ok := alloc.ResizeAlloc(b.start, l, node);
    if ok {
      ResizeEffect(alloc.c, was, k, l);
    }
  }

  // What src/info.c:338-387 makes of the size and the alignment it is given.
  function SizeFor(c: Config, kind: AllocType, l: nat): nat
    requires c.page > 0
  {
    if kind.PVAlloc? then RoundUp(AtLeastOne(l), c.page) else l
  }

  function AlignFor(c: Config, kind: AllocType, a: nat): nat {
    if kind.MemAlign? then
      if a == 0 then c.align else if !IsPowerOfTwo(a) then PowerOfTwo(a) else if a > c.page then c.page else a
    else if kind.VAlloc? || kind.PVAlloc? then c.page
    else a
  }

  // A valid alignment is honoured, and valloc and pvalloc align to pages.
  lemma AlignmentHonoured(c: Config, kind: AllocType, a: nat)
    requires c.Valid()
    ensures 0 < a <= c.page && IsPowerOfTwo(a) && !kind.VAlloc? && !kind.PVAlloc? ==>
              AlignOf(c, AlignFor(c, kind, a)) == a
    ensures kind.VAlloc? || kind.PVAlloc? ==> AlignOf(c, AlignFor(c, kind, a)) == c.page
  {
    if 0 < a <= c.page && IsPowerOfTwo(a) {
      PowerOfTwoIsLeast(a, a);
    }
    PowerOfTwoIsLeast(c.page, c.page);
  }

  datatype Outcome = NullPointer | PreviouslyFreed | NotAllocated | Mismatch | Incompatible | Marked | Done

  // src/info.c:817-826
  predicate Compatible(was: AllocType, now: AllocType) {
    && (IsAlloca(was) <==> now.Alloca? || now.DeAlloca?)
    && (was.New? <==> now.Delete?)
    && (was.NewVec? <==> now.DeleteVec?)
  }

  predicate Freeable(s: seq<Block>, p: nat, kind: AllocType) {
    && At(s, p).Some? && Compatible(At(s, p).value.info.kind, kind) && !At(s, p).value.info.marked
  }

  // Some payload of a block of the wanted status contains p.
  ghost predicate Somewhere(s: seq<Block>, p: nat, live: bool) {
    exists b :: b in s && b.Live? == live && !b.Free? && Inside(b, p)
  }

  // Payloads do not overlap.
  lemma InsideOnce(c: Config, s: seq<Block>, i: nat, j: nat, p: nat)
    requires c.page > 0 && Chain(c, s) && i < |s| && j < |s| && !s[i].Free? && !s[j].Free?
    requires Inside(s[i], p) && Inside(s[j], p)
    ensures i == j
  {
    LoBelowHi(c, s[i]);
    LoBelowHi(c, s[j]);
  }

  // src/info.c:338-387
  method Adjust(c: Config, l0: nat, a0: nat, kind: AllocType) returns (l: nat, a: nat)
    requires c.page > 0
    ensures l == SizeFor(c, kind, l0) && a == AlignFor(c, kind, a0)
  {
    l, a := l0, a0;
    if kind.MemAlign? {
      if a == 0 {
        a := c.align;
      } else if !IsPowerOfTwo(a) {
        a := PowerOfTwo(a);
      } else if a > c.page {
        a := c.page;
      }
    } else if kind.VAlloc? || kind.PVAlloc? {
      if kind.PVAlloc? {
        if l == 0 {
          l := 1;
        }
        l := RoundUp(l, c.page);
      }
      a := c.page;
    }
  }

  lemma TagAdd(u: set<Block>, n: Block)
    requires Tagged(u) && TagOk(n)
    ensures Tagged(u + {n})
  {
  }

  lemma DiagnoseFound(c: Config, s: seq<Block>, p: nat, g: Option<nat>, n: Option<nat>)
    requires c.page > 0 && Chain(c, s)
    requires g.Some? ==> g.value < |s| && s[g.value].Freed? && Inside(s[g.value], p)
    requires g.None? ==> forall b :: b in s && b.Freed? ==> !Inside(b, p)
    requires n.Some? ==> n.value < |s| && s[n.value].Live? && Inside(s[n.value], p)
    requires n.None? ==> forall b :: b in s && b.Live? ==> !Inside(b, p)
    ensures g.Some? <==> Somewhere(s, p, false)
    ensures n.Some? <==> Somewhere(s, p, true)
    ensures g.None? || n.None?
    ensures At(s, p) == if n.Some? && s[n.value].start == p then Some(s[n.value]) else None
  {
    if g.Some? {
      assert s[g.value] in s;
      if n.Some? {
        InsideOnce(c, s, g.value, n.value, p);
      }
    }
    if n.Some? {
      assert s[n.value] in s;
      StartsDistinct(c, s, n.value);
    }
    if At(s, p).Some? {
      var k := LiveIndex(c, s, At(s, p).value);
      LoBelowHi(c, s[k]);
      assert Inside(s[k], p);
      if n.Some? {
        InsideOnce(c, s, k, n.value, p);
      }
    }
  }

  ghost predicate Removed(q: seq<nat>, now: seq<nat>, p: nat) {
    exists k :: 0 <= k < |q| && q[k] == p && now == q[..k] + q[k + 1..]
  }

  lemma OnStackIn(q: seq<nat>, lives: set<Block>, b: Block)
    requires StackOk(q, lives) && b in lives && b.Live? && Apart(lives)
    ensures b.start in q <==> OnStack(b)
  {
    StartsShrink(lives, b);
    assert b.start in q <==> b.start in StackStarts(lives);
    if b.start in StackStarts(lives) {
      var d :| d in lives && OnStack(d) && d.start == b.start;
    }
  }

  // What is left of the stack when live block b is freed.
  lemma DropStack(q: seq<nat>, now: seq<nat>, lives: set<Block>, b: Block)
    requires StackOk(q, lives) && b in lives && b.Live? && Apart(lives)
    requires !OnStack(b) ==> now == q
    requires OnStack(b) ==> Removed(q, now, b.start)
    ensures StackOk(now, lives - {b})
  {
    if OnStack(b) {
      var k :| 0 <= k < |q| && q[k] == b.start && now == q[..k] + q[k + 1..];
      PopStack(q, lives, b, k);
    } else {
      KeepStack(q, lives, b, b);
    }
  }

  lemma TagShrink(u: set<Block>, now: set<Block>, b: Block, keep: Option<Info>)
    requires Tagged(u) && (keep.Some? ==> keep.value.freed)
    requires now <= u + (if keep.Some? then {Freed(b.start, b.size, keep.value)} else {})
    ensures Tagged(now)
  {
  }

  function Min(x: nat, y: nat): nat {
    if x < y then x else y
  }

  // The k bytes at q are what the k bytes at p were.
  ghost predicate Carried(m: seq<byte>, now: seq<byte>, p: nat, q: nat, k: nat) {
    p + k <= |m| && q + k <= |now| && now[q..q + k] == m[p..p + k]
  }

  lemma CarriedOn(m: seq<byte>, mid: seq<byte>, now: seq<byte>, p: nat, q: nat, k: nat, n: Block)
    requires Carried(m, mid, p, q, k) && n.start == q && k <= n.size && Untouched(mid, now, n)
    ensures Carried(m, now, p, q, k)
  {
    assert forall x :: q <= x < q + k ==> now[x] == mid[x];
  }

  lemma SetMove<T>(a: set<T>, b: T, n: T)
    requires b in a && n !in a
    ensures a + {n} - {b} == a - {b} + {n}
    ensures a + {n} - {n} == a
    ensures n in a + {n} - {b}
  {
  }

  // A new block takes over the contents of live block b, which is freed.
  method Move(alloc: AllocHead, b: Block, l: nat, a: nat, info: Info, keep: Option<Info>, s: Supply)
    returns (r: nat, ghost fits: bool)
    requires alloc.Valid() && b in Lives(alloc.list) && 0 < l && Bounded(alloc.c, l)
    requires Suits(alloc.c, alloc.View(), l, a, s)
    modifies alloc, alloc.mem
    ensures alloc.Valid() && alloc.fmax == old(alloc.fmax)
    ensures r == 0 ==>
      && Lives(alloc.list) == old(Lives(alloc.list)) && Used(alloc.list) == old(Used(alloc.list))
      && AllUntouched(old(alloc.mem[..]), alloc.mem[..], old(Lives(alloc.list)))
    ensures r != 0 ==>
      && Live(r, l, info) !in old(Lives(alloc.list))
      && Lives(alloc.list) == old(Lives(alloc.list)) - {b} + {Live(r, l, info)}
      && Used(alloc.list) <= old(Used(alloc.list)) + {Live(r, l, info)}
                             + (if keep.Some? then {Freed(b.start, b.size, keep.value)} else {})
      && AllUntouched(old(alloc.mem[..]), alloc.mem[..], old(Lives(alloc.list)) - {b})
      && Carried(old(alloc.mem[..]), alloc.mem[..], b.start, r, Min(l, b.size))
      && r != b.start && Aligned(alloc.c, r, a)
    ensures alloc.flist
      == if r != 0 && keep.Some? then Push(old(alloc.flist), alloc.fmax, b.start) else old(alloc.flist)
    ensures 0 < AlignOf(alloc.c, a) && (Slack(alloc.c, l, AlignOf(alloc.c, a)) ==> fits)
    ensures !fits ==> r == 0
    ensures fits ==> (r != 0 <==> Supplied(alloc.c, old(alloc.list), l, a, s))
  {
    ghost var lives, m0 := Lives(alloc.list), alloc.mem[..];
    r, fits := Obtain(alloc, l, a, info, s);
    if r != 0 {
      ghost var n, m1 := Live(r, l, info), alloc.mem[..];
      SetMove(lives, b, n);
      LivesApart(alloc.c, alloc.list);
      PayloadFits(alloc.c, alloc.View(), b);
      CopyPayload(alloc, n, b, r, b.start, Min(l, b.size));
      ghost var m2 := alloc.mem[..];
      assert Untouched(m0, m1, b);
      UntouchedTrans(m0, m1, m2, lives);
      CopiedCarried(m0, m1, m2, b, n, Min(l, b.size));
      GiveUp(alloc, b, keep);
      UntouchedTrans(m0, m2, alloc.mem[..], lives - {b});
      assert Untouched(m2, alloc.mem[..], n);
      CarriedOn(m0, m2, alloc.mem[..], b.start, r, Min(l, b.size), n);
    }
  }

  lemma CopiedCarried(m0: seq<byte>, m1: seq<byte>, m2: seq<byte>, b: Block, n: Block, k: nat)
    requires Untouched(m0, m1, b) && b.start + k <= |m1| && n.start + k <= |m1| && k <= b.size
    requires m2 == Copied(m1, n.start, b.start, k)
    ensures Carried(m0, m2, b.start, n.start, k)
  {
    var u, v := m2[n.start..n.start + k], m0[b.start..b.start + k];
    forall x | 0 <= x < k
      ensures u[x] == v[x]
    {
      assert u[x] == m2[n.start + x] == m1[b.start + x];
      assert v[x] == m0[b.start + x];
    }
  }

  // The kinds of call that end up in __mp_resizememory.
  predicate IsRealloc(k: AllocType) {
    k.Realloc? || k.ReallocF? || k.ReCalloc? || k.Expand? || k.Other?
  }

  // Live block b after a reallocation that failed, and one that succeeded.
  function Counted(b: Block): (r: Block)
    requires b.Live?
    ensures r.start == b.start && r.size == b.size
  {
    Live(b.start, b.size, b.info.(realloc := b.info.realloc + 1))
  }

  function Reworked(b: Block, p: nat, l: nat, kind: AllocType): Block
    requires b.Live?
  {
    Live(p, l, b.info.(realloc := b.info.realloc + 1, kind := kind))
  }

  // No other block of the set has the address of b.
  ghost predicate Sole(lives: set<Block>, b: Block) {
    b in lives && forall d :: d in lives && d.start == b.start ==> d == b
  }

  // The address is determined, so the details can change and change again.
  lemma TwoSwaps(lives: set<Block>, b: Block, m: Block, n: Block)
    requires Sole(lives, b) && m.start == b.start
    ensures lives - {b} + {m} - {m} == lives - {b}
    ensures lives - {b} + {m} - {m} + {n} == lives - {b} + {n}
  {
    if m in lives {
      assert m == b;
    }
  }

  lemma SameExtent(m: seq<byte>, now: seq<byte>, lives: set<Block>, b: Block, d: Block)
    requires b in lives && b.start == d.start && b.size == d.size
    requires AllUntouched(m, now, lives - {b} + {d})
    ensures AllUntouched(m, now, lives)
  {
    assert d in lives - {b} + {d};
    assert Untouched(m, now, d);
    forall x | x in lives
      ensures Untouched(m, now, x)
    {
      if x != b {
        assert x in lives - {b} + {d};
      }
    }
  }

  lemma TagChange(u: set<Block>, now: set<Block>, x: Block)
    requires Tagged(u) && TagOk(x) && now <= u + {x}
    ensures Tagged(now)
  {
  }

  // What became of live block b: either it is still there, counted and with
  // its contents, or it is now the l bytes at r with as much of its contents
  // as fits.  Nothing else changed.
  ghost predicate Settled(lives: set<Block>, m: seq<byte>, b: Block, r: nat, l: nat, kind: AllocType,
                          nowLives: set<Block>, now: seq<byte>)
    requires b.Live?
  {
    if r == 0 then
      nowLives == lives - {b} + {Counted(b)} && AllUntouched(m, now, lives)
    else
      && Reworked(b, r, l, kind) !in lives - {b} && nowLives == lives - {b} + {Reworked(b, r, l, kind)}
      && AllUntouched(m, now, lives - {b})
      && Carried(m, now, b.start, r, Min(l, b.size))
  }

  // src/info.c:622-662 and 674-690: the contents move to a new block.
  method Replace(alloc: AllocHead, ghost lives: set<Block>, b: Block, l: nat, a: nat, kind: AllocType,
                 keep: Option<Info>, s: Supply) returns (r: nat, ghost fits: bool)
    requires b.Live? && Sole(lives, b) && alloc.Valid() && Tagged(Used(alloc.list))
    requires Lives(alloc.list) == lives - {b} + {Counted(b)} && TagOk(b) && !OnStack(b)
    requires 0 < l && Bounded(alloc.c, l) && IsRealloc(kind) && Suits(alloc.c, alloc.View(), l, a, s)
    requires keep.Some? ==> keep.value.freed
    modifies alloc, alloc.mem
    ensures alloc.Valid() && Tagged(Used(alloc.list)) && alloc.fmax == old(alloc.fmax)
    ensures Settled(lives, old(alloc.mem[..]), b, r, l, kind, Lives(alloc.list), alloc.mem[..])
    ensures alloc.flist
      == if r != 0 && keep.Some? then Push(old(alloc.flist), alloc.fmax, b.start) else old(alloc.flist)
    ensures r != b.start
    ensures 0 < AlignOf(alloc.c, a) && (Slack(alloc.c, l, AlignOf(alloc.c, a)) ==> fits)
    ensures r != 0 && r != b.start ==> Aligned(alloc.c, r, a)
    ensures !fits ==> r == 0
    ensures fits ==> (r != 0 <==> Supplied(alloc.c, old(alloc.list), l, a, s))
  {
    var m := Counted(b);
    ghost var u, m0: seq<byte> := Used(alloc.list), alloc.mem[..];
    PayloadFits(alloc.c, alloc.View(), m);
    r, fits := Move(alloc, m, l, a, m.info.(kind := kind), keep, s);
    MoveSettles(lives, m0, u, b, r, l, kind, keep, Lives(alloc.list), alloc.mem[..], Used(alloc.list));
  }

  lemma MoveSettles(lives: set<Block>, m: seq<byte>, u: set<Block>, b: Block, r: nat, l: nat, kind: AllocType,
                    keep: Option<Info>, nowLives: set<Block>, now: seq<byte>, nowUsed: set<Block>)
    requires b.Live? && Sole(lives, b) && Tagged(u) && TagOk(b) && !OnStack(b) && IsRealloc(kind)
    requires keep.Some? ==> keep.value.freed
    requires nowUsed <= u + (if r != 0 then {Reworked(b, r, l, kind)} else {})
                    + (if r != 0 && keep.Some? then {Freed(b.start, b.size, keep.value)} else {})
    requires var was := lives - {b} + {Counted(b)};
      if r == 0 then nowLives == was && AllUntouched(m, now, was)
      else
        && Reworked(b, r, l, kind) !in was && nowLives == was - {Counted(b)} + {Reworked(b, r, l, kind)}
        && AllUntouched(m, now, was - {Counted(b)})
        && Carried(m, now, b.start, r, Min(l, b.size))
    ensures Settled(lives, m, b, r, l, kind, nowLives, now) && Tagged(nowUsed)
  {
    if r == 0 {
      SameExtent(m, now, lives, b, Counted(b));
    } else {
      TwoSwaps(lives, b, Counted(b), Reworked(b, r, l, kind));
    }
  }

  // src/info.c:674-676
  predicate MayMove(c: Config, b: Block, l: nat, kind: AllocType) {
    !kind.Expand? && ((c.pageAlloc && c.upper) || l > b.size)
  }

  // When a live block gets its new size, and when it keeps its address.
  ghost predicate CanRework(c: Config, list: seq<Block>, fmax: nat, b: Block, l: nat, a: nat, kind: AllocType,
                            s: Supply)
    requires c.page > 0
  {
    if !kind.Expand? && fmax != 0 then s.infoNode && Supplied(c, list, l, a, s)
    else StaysThere(c, list, fmax, b, l, kind, s) || (MayMove(c, b, l, kind) && Supplied(c, list, l, a, s))
  }

  ghost predicate StaysThere(c: Config, list: seq<Block>, fmax: nat, b: Block, l: nat, kind: AllocType, s: Supply)
    requires c.page > 0
  {
    (kind.Expand? || fmax == 0) && (l == b.size || InPlace(c, list, b.start, l, s.node))
  }

  // src/info.c:663-667 and 703-732: the block has the wanted size already.
  method Retain(alloc: AllocHead, ghost lives: set<Block>, b: Block, kind: AllocType)
    requires b.Live? && Sole(lives, b) && alloc.Valid() && Tagged(Used(alloc.list))
    requires Lives(alloc.list) == lives - {b} + {Counted(b)} && TagOk(b) && !OnStack(b) && IsRealloc(kind)
    modifies alloc`list
    ensures alloc.Valid() && Tagged(Used(alloc.list))
    ensures Settled(lives, old(alloc.mem[..]), b, b.start, b.size, kind, Lives(alloc.list), alloc.mem[..])
  {
    var m := Counted(b);
    var d := Reworked(b, b.start, b.size, kind);
    PayloadFits(alloc.c, alloc.View(), m);
    Describe(alloc, m, d.info);
    TwoSwaps(lives, b, m, d);
    TagChange(old(Used(alloc.list)), Used(alloc.list), d);
  }

  // src/info.c:668-702
  method ResizeOrMove(alloc: AllocHead, ghost lives: set<Block>, b: Block, l: nat, a: nat, kind: AllocType, s: Supply)
    returns (r: nat, ghost fits: bool)
    requires b.Live? && Sole(lives, b) && alloc.Valid() && Tagged(Used(alloc.list))
    requires Lives(alloc.list) == lives - {b} + {Counted(b)} && TagOk(b) && !OnStack(b)
    requires 0 < l && Bounded(alloc.c, l) && IsRealloc(kind) && Suits(alloc.c, alloc.View(), l, a, s)
    modifies alloc, alloc.mem
    ensures alloc.Valid() && Tagged(Used(alloc.list)) && alloc.fmax == old(alloc.fmax)
    ensures Settled(lives, old(alloc.mem[..]), b, r, l, kind, Lives(alloc.list), alloc.mem[..])
    ensures alloc.flist == old(alloc.flist)
    ensures 0 < AlignOf(alloc.c, a) && (Slack(alloc.c, l, AlignOf(alloc.c, a)) ==> fits)
    ensures r != 0 && r != b.start ==> Aligned(alloc.c, r, a)
    ensures !fits ==> r == 0
    ensures alloc.c.page > 0
    ensures fits ==>
      (r != 0 <==> InPlace(alloc.c, old(alloc.list), b.start, l, s.node)
                   || (MayMove(alloc.c, b, l, kind) && Supplied(alloc.c, old(alloc.list), l, a, s)))
    ensures r == b.start <==> InPlace(alloc.c, old(alloc.list), b.start, l, s.node)
  {
    AlignOfDivides(alloc.c, a);
    var m := Counted(b);
    r, fits := 0, true;
    PayloadFits(alloc.c, alloc.View(), m);
    var ok := ResizeInPlace(alloc, m, l, s.node);
    if ok {
      r := b.start;
      PayloadFits(alloc.c, alloc.View(), Live(b.start, l, m.info));
      ResizedTwice(alloc, lives, b, l, kind, old(alloc.mem[..]), old(Used(alloc.list)));
    } else if MayMove(alloc.c, b, l, kind) {
      r, fits := Replace(alloc, lives, b, l, a, kind, None, s);
    }
  }

  // src/info.c:691-732: the resized block gets its new details.
  method ResizedTwice(alloc: AllocHead, ghost lives: set<Block>, b: Block, l: nat, kind: AllocType,
                      ghost m0: seq<byte>, ghost u: set<Block>)
    requires b.Live? && Sole(lives, b) && alloc.Valid() && Tagged(u) && TagOk(b) && !OnStack(b)
    requires IsRealloc(kind)
    requires var n := Live(b.start, l, Counted(b).info);
      && Lives(alloc.list) == lives - {b} + {Counted(b)} - {Counted(b)} + {n}
      && Used(alloc.list) <= u + {n}
    requires AllUntouched(m0, alloc.mem[..], lives - {b} + {Counted(b)} - {Counted(b)})
    requires 0 < b.start && b.start + b.size <= |m0| && b.start + l <= |m0|
    requires forall x :: b.start <= x < b.start + (if l < b.size then l else b.size) && x < alloc.mem.Length ==>
                     alloc.mem[x] == m0[x]
    modifies alloc`list
    ensures alloc.Valid() && Tagged(Used(alloc.list))
    ensures Settled(lives, m0, b, b.start, l, kind, Lives(alloc.list), alloc.mem[..])
  {
    var n, d := Live(b.start, l, Counted(b).info), Reworked(b, b.start, l, kind);
    TwoSwaps(lives, b, Counted(b), n);
    TwoSwaps(lives, b, n, d);
    Describe(alloc, n, d.info);
    TagChange(u, old(Used(alloc.list)), n);
    TagChange(old(Used(alloc.list)), Used(alloc.list), d);
  }

  // src/info.c:663-702
  method StayOrMove(alloc: AllocHead, ghost lives: set<Block>, b: Block, l: nat, a: nat, kind: AllocType, s: Supply)
    returns (r: nat, ghost fits: bool)
    requires b.Live? && Sole(lives, b) && alloc.Valid() && Tagged(Used(alloc.list))
    requires Lives(alloc.list) == lives - {b} + {Counted(b)} && TagOk(b) && !OnStack(b)
    requires 0 < l && Bounded(alloc.c, l) && IsRealloc(kind) && Suits(alloc.c, alloc.View(), l, a, s)
    requires b.start != 0 && (kind.Expand? || alloc.fmax == 0)
    modifies alloc, alloc.mem
    ensures alloc.Valid() && Tagged(Used(alloc.list)) && alloc.fmax == old(alloc.fmax)
    ensures Settled(lives, old(alloc.mem[..]), b, r, l, kind, Lives(alloc.list), alloc.mem[..])
    ensures alloc.flist == old(alloc.flist)
    ensures 0 < AlignOf(alloc.c, a) && (Slack(alloc.c, l, AlignOf(alloc.c, a)) ==> fits)
    ensures r != 0 && r != b.start ==> Aligned(alloc.c, r, a)
    ensures !fits ==> r == 0
    ensures alloc.c.page > 0
    ensures fits ==> (r != 0 <==> CanRework(alloc.c, old(alloc.list), alloc.fmax, b, l, a, kind, s))
    ensures r == b.start <==> StaysThere(alloc.c, old(alloc.list), alloc.fmax, b, l, kind, s)
  {
    AlignOfDivides(alloc.c, a);
    if l == b.size {
      r, fits := b.start, true;
      Retain(alloc, lives, b, kind);
    } else {
      r, fits := ResizeOrMove(alloc, lives, b, l, a, kind, s);
    }
  }

  // src/info.c:622-702, after the reallocation has been counted.
  method Relocate(alloc: AllocHead, ghost lives: set<Block>, b: Block, l: nat, a: nat, kind: AllocType, s: Supply)
    returns (r: nat, ghost fits: bool)
    requires b.Live? && Sole(lives, b) && alloc.Valid() && Tagged(Used(alloc.list))
    requires Lives(alloc.list) == lives - {b} + {Counted(b)} && TagOk(b) && !OnStack(b) && b.start != 0
    requires 0 < l && Bounded(alloc.c, l) && IsRealloc(kind) && Suits(alloc.c, alloc.View(), l, a, s)
    modifies alloc, alloc.mem
    ensures alloc.Valid() && Tagged(Used(alloc.list)) && alloc.fmax == old(alloc.fmax)
    ensures Settled(lives, old(alloc.mem[..]), b, r, l, kind, Lives(alloc.list), alloc.mem[..])
    ensures alloc.flist
            == if r != 0 && !kind.Expand? && alloc.fmax != 0 then Push(old(alloc.flist), alloc.fmax, b.start)
               else old(alloc.flist)
    ensures 0 < AlignOf(alloc.c, a) && (Slack(alloc.c, l, AlignOf(alloc.c, a)) ==> fits)
    ensures r != 0 && r != b.start ==> Aligned(alloc.c, r, a)
    ensures !fits ==> r == 0
    ensures alloc.c.page > 0
    ensures fits ==> (r != 0 <==> CanRework(alloc.c, old(alloc.list), alloc.fmax, b, l, a, kind, s))
    ensures r == b.start <==> StaysThere(alloc.c, old(alloc.list), alloc.fmax, b, l, kind, s)
  {
    AlignOfDivides(alloc.c, a);
    var m := Counted(b);
    r, fits := 0, true;
    if !kind.Expand? && alloc.fmax != 0 {
      if s.infoNode {
        var keep := Info(kind, m.info.alloc, m.info.realloc - 1, true, m.info.marked);
        r, fits := Replace(alloc, lives, b, l, a, kind, Some(keep), s);
      }
    } else {
      r, fits := StayOrMove(alloc, lives, b, l, a, kind, s);
    }
  }

  // src/info.c:618-702: block b is resized where it is, or its contents move to
  // a new block and it is freed.
  method Rework(alloc: AllocHead, b: Block, l: nat, a: nat, kind: AllocType, s: Supply)
    returns (r: nat, ghost fits: bool)
    requires alloc.Valid() && Tagged(Used(alloc.list)) && b in Lives(alloc.list) && 0 < l && Bounded(alloc.c, l)
    requires IsRealloc(kind) && !OnStack(b) && Suits(alloc.c, alloc.View(), l, a, s)
    modifies alloc, alloc.mem
    ensures alloc.Valid() && Tagged(Used(alloc.list)) && alloc.fmax == old(alloc.fmax)
    ensures Settled(old(Lives(alloc.list)), old(alloc.mem[..]), b, r, l, kind, Lives(alloc.list), alloc.mem[..])
    ensures alloc.flist
            == if r != 0 && !kind.Expand? && alloc.fmax != 0 then Push(old(alloc.flist), alloc.fmax, b.start)
               else old(alloc.flist)
    ensures 0 < AlignOf(alloc.c, a) && (Slack(alloc.c, l, AlignOf(alloc.c, a)) ==> fits)
    ensures r != 0 && r != b.start ==> Aligned(alloc.c, r, a)
    ensures !fits ==> r == 0
    ensures alloc.c.page > 0
    ensures fits ==> (r != 0 <==> CanRework(alloc.c, old(alloc.list), alloc.fmax, b, l, a, kind, s))
    ensures r == b.start <==> StaysThere(alloc.c, old(alloc.list), alloc.fmax, b, l, kind, s)
  {
    LiveOk(alloc.c, alloc.View(), b);
    Count(alloc, b, l, a, s);
    r, fits := Relocate(alloc, old(Lives(alloc.list)), b, l, a, kind, s);
  }

  // A pointer that realloc accepts.
  predicate Resizable(s: seq<Block>, p: nat) {
    At(s, p).Some? &&
    var k := At(s, p).value.info.kind;
    !IsAlloca(k) && !k.New? && !k.NewVec?
  }

  // Block b is still live, at its address, with its size and its contents.
  ghost predicate Stays(lives: set<Block>, m: seq<byte>, b: Block, nowLives: set<Block>, now: seq<byte>)
    requires b.Live?
  {
    (nowLives == lives || nowLives == lives - {b} + {Counted(b)}) && AllUntouched(m, now, lives)
  }

  ghost predicate Goes(lives: set<Block>, m: seq<byte>, b: Block, nowLives: set<Block>, now: seq<byte>) {
    nowLives == lives - {b} && AllUntouched(m, now, lives - {b})
  }

  lemma StaysThenGoes(lives: set<Block>, m: seq<byte>, b: Block, was: set<Block>, mid: seq<byte>, d: Block,
                      nowLives: set<Block>, now: seq<byte>)
    requires b.Live? && Sole(lives, b) && Stays(lives, m, b, was, mid)
    requires d in was && (d == b || (d == Counted(b) && b !in was)) && Goes(was, mid, d, nowLives, now)
    ensures Goes(lives, m, b, nowLives, now)
  {
    TwoSwaps(lives, b, Counted(b), Counted(b));
    assert was - {d} == lives - {b};
    UntouchedTrans(m, mid, now, lives - {b});
  }

  function TailByte(c: Config, kind: AllocType): byte {
    if kind.ReCalloc? then 0 else c.abyte
  }

  // The call succeeded: r is live with l bytes, which begin with the contents
  // of b and end with the fill byte.
  ghost predicate Becomes(c: Config, lives: set<Block>, m: seq<byte>, b: Block, r: nat, l: nat, kind: AllocType,
                          nowLives: set<Block>, now: seq<byte>)
    requires b.Live?
  {
    && Reworked(b, r, l, kind) !in lives - {b} && nowLives == lives - {b} + {Reworked(b, r, l, kind)}
    && AllUntouched(m, now, lives - {b})
    && Carried(m, now, b.start, r, Min(l, b.size))
    && Holds(now, r + b.size, r + l, TailByte(c, kind))
  }

  ghost predicate Answered(c: Config, lives: set<Block>, m: seq<byte>, b: Block, r: nat, l: nat, kind: AllocType,
                           nowLives: set<Block>, now: seq<byte>)
    requires b.Live?
  {
    if r != 0 then l > 0 && Becomes(c, lives, m, b, r, l, kind, nowLives, now)
    else if (l == 0 || kind.ReallocF?) && !b.info.marked then Goes(lives, m, b, nowLives, now)
    else Stays(lives, m, b, nowLives, now)
  }

  lemma StaysPut(lives: set<Block>, m: seq<byte>, b: Block)
    requires b.Live?
    ensures Stays(lives, m, b, lives, m)
  {
    assert forall d :: d in lives ==> Untouched(m, m, d);
  }

  // src/info.c:613-741
  method ReworkFilled(alloc: AllocHead, b: Block, l: nat, a: nat, kind: AllocType, s: Supply)
    returns (r: nat, ghost fits: bool)
    requires alloc.Valid() && Tagged(Used(alloc.list)) && b in Lives(alloc.list) && 0 < l && Bounded(alloc.c, l)
    requires IsRealloc(kind) && !OnStack(b) && Suits(alloc.c, alloc.View(), l, a, s)
    modifies alloc, alloc.mem
    ensures alloc.Valid() && Tagged(Used(alloc.list)) && alloc.fmax == old(alloc.fmax)
    ensures b.Live?
    ensures r == 0 ==> Stays(old(Lives(alloc.list)), old(alloc.mem[..]), b, Lives(alloc.list), alloc.mem[..])
    ensures r != 0 ==>
      Becomes(alloc.c, old(Lives(alloc.list)), old(alloc.mem[..]), b, r, l, kind, Lives(alloc.list), alloc.mem[..])
    ensures alloc.flist
            == if r != 0 && !kind.Expand? && alloc.fmax != 0 then Push(old(alloc.flist), alloc.fmax, b.start)
               else old(alloc.flist)
    ensures 0 < AlignOf(alloc.c, a) && (Slack(alloc.c, l, AlignOf(alloc.c, a)) ==> fits)
    ensures r != 0 && r != b.start ==> Aligned(alloc.c, r, a)
    ensures !fits ==> r == 0
    ensures alloc.c.page > 0
    ensures fits ==> (r != 0 <==> CanRework(alloc.c, old(alloc.list), alloc.fmax, b, l, a, kind, s))
    ensures r == b.start <==> StaysThere(alloc.c, old(alloc.list), alloc.fmax, b, l, kind, s)
  {
    ghost var lives := Lives(alloc.list);
    InLives(alloc.list, b);
    r, fits := Rework(alloc, b, l, a, kind, s);
    if r != 0 && l > b.size {
      ghost var n, mid := Reworked(b, r, l, kind), alloc.mem[..];
      LivesApart(alloc.c, alloc.list);
      FillPayload(alloc, n, r + b.size, TailByte(alloc.c, kind), l - b.size);
      TailFilled(lives, old(alloc.mem[..]), mid, alloc.mem[..], b, r, l, kind, TailByte(alloc.c, kind));
    }
  }

  lemma TailFilled(lives: set<Block>, m: seq<byte>, mid: seq<byte>, now: seq<byte>, b: Block, r: nat, l: nat,
                   kind: AllocType, v: byte)
    requires b.Live? && b.size < l && AllUntouched(m, mid, lives - {b})
    requires Carried(m, mid, b.start, r, b.size)
    requires now == Filled(mid, r + b.size, v, l - b.size)
    requires var n := Reworked(b, r, l, kind); AllUntouched(mid, now, lives - {b} + {n} - {n})
    requires Reworked(b, r, l, kind) !in lives - {b}
    ensures AllUntouched(m, now, lives - {b}) && Carried(m, now, b.start, r, b.size)
    ensures Holds(now, r + b.size, r + l, v)
  {
    var n := Reworked(b, r, l, kind);
    assert lives - {b} + {n} - {n} == lives - {b};
    UntouchedTrans(m, mid, now, lives - {b});
    assert now[r..r + b.size] == mid[r..r + b.size];
  }

  // src/inter.c:1675-1678
  predicate Markable(b: Block)
    requires b.Live?
  {
    !b.info.marked && !IsAlloca(b.info.kind)
  }

  lemma OnlyInside(c: Config, s: seq<Block>, i: nat, p: nat)
    requires c.page > 0 && Chain(c, s) && i < |s| && s[i].Live? && Inside(s[i], p)
    ensures forall b :: b in s && b.Live? && Inside(b, p) ==> b == s[i]
  {
    forall b | b in s && b.Live? && Inside(b, p)
      ensures b == s[i]
    {
      var j := LiveIndex(c, s, b);
      InsideOnce(c, s, i, j, p);
    }
  }

  // The blocks that a check of the alloca stack frees.
  ghost function Doomed(lives: set<Block>, force: bool, gone: set<nat>): set<Block> {
    set b | b in lives && OnStack(b) && (force || b.start in gone)
  }

  lemma NothingDoomed(q: seq<nat>, lives: set<Block>, force: bool, gone: set<nat>)
    requires StackOk(q, lives)
    ensures q == [] ==> lives - Doomed(lives, force, gone) == lives
  {
    if q == [] {
      assert StackStarts(lives) == {};
      assert forall b :: b in lives && OnStack(b) ==> b.start in StackStarts(lives);
    }
  }

  lemma StackedAt(q: seq<nat>, lives: set<Block>, k: nat) returns (b: Block)
    requires StackOk(q, lives) && k < |q|
    ensures b in lives && OnStack(b) && b.start == q[k]
  {
    assert q[k] in StackStarts(lives);
    b :| b in lives && OnStack(b) && b.start == q[k];
  }

  lemma UntouchedLess(m: seq<byte>, mid: seq<byte>, now: seq<byte>, lives: set<Block>, b: Block)
    requires AllUntouched(m, mid, lives) && AllUntouched(mid, now, lives - {b})
    ensures AllUntouched(m, now, lives - {b})
  {
    UntouchedTrans(m, mid, now, lives - {b});
  }

  lemma DoomedMore(lives: set<Block>, done: set<Block>, b: Block, force: bool, gone: set<nat>)
    requires done <= Doomed(lives, force, gone) && b in lives - done && OnStack(b) && (force || b.start in gone)
    ensures done + {b} <= Doomed(lives, force, gone) && lives - (done + {b}) == lives - done - {b}
  {
  }

  lemma AllDoomed(q: seq<nat>, lives: set<Block>, done: set<Block>, force: bool, gone: set<nat>)
    requires done <= Doomed(lives, force, gone) && StackOk(q, lives - done)
    requires forall p :: p in q ==> !force && p !in gone
    ensures done == Doomed(lives, force, gone) && (force ==> q == [])
  {
    forall b | b in Doomed(lives, force, gone)
      ensures b in done
    {
      assert b !in done ==> b.start in StackStarts(lives - done);
      assert b.start in StackStarts(lives - done) ==> b.start in q;
    }
    assert q != [] ==> q[0] in q;
  }

  lemma RemovedOnce(q: seq<nat>, now: seq<nat>, k: nat)
    requires Distinct(q) && k < |q|
    requires Removed(q, now, q[k])
    ensures now == q[..k] + q[k + 1..]
  {
  }

  // Bytes lo..hi are to hold v.
  datatype Check = Check(lo: int, hi: int, v: byte)

  // What is checked of a block, in this order.
  function Checks(c: Config, b: Block): seq<Check>
    requires c.page > 0
  {
    Inner(c, b) + Outer(c, b)
  }

  // The payload of free blocks, and of freed ones that are not preserved.
  function Inner(c: Config, b: Block): seq<Check>
    requires c.page > 0
  {
    if b.Live? || c.pageAlloc || (b.Freed? && c.preserve) then []
    else [Check(b.start, b.start + b.size, c.fbyte)]
  }

  function Outer(c: Config, b: Block): seq<Check>
    requires c.page > 0
  {
    if b.Free? || c.watch || (c.pageAlloc && b.Freed?) then [] else Around(c, b)
  }

  // In page mode the overflow buffers are protected pages, and what is checked
  // is the rest of the first and the last page.
  function Around(c: Config, b: Block): seq<Check>
    requires c.page > 0
  {
    var buffer := if c.pageAlloc then c.oflow else 0;
    [Check(Lo(c, b) + buffer, b.start, c.obyte), Check(b.start + b.size, Hi(c, b) - buffer, c.obyte)]
  }

  ghost predicate Passed(m: seq<byte>, k: Check) {
    Holds(m, k.lo, k.hi, k.v)
  }

  ghost predicate AllPassed(m: seq<byte>, checks: seq<Check>) {
    forall i :: 0 <= i < |checks| ==> Passed(m, checks[i])
  }

  // Byte x is the first that is wrong in the i-th check.
  ghost predicate FailsAt(m: seq<byte>, k: Check, x: nat) {
    k.lo <= x < k.hi && x < |m| && m[x] != k.v && Holds(m, k.lo, x, k.v)
  }

  // Byte x is not as it should be, and nothing that is checked before it is
  // wrong.
  ghost predicate FirstWrong(m: seq<byte>, checks: seq<Check>, x: nat) {
    exists i :: 0 <= i < |checks| && FailsAt(m, checks[i], x) && AllPassed(m, checks[..i])
  }

  lemma ChecksMean(c: Config, m: seq<byte>, b: Block)
    requires c.page > 0
    ensures Clean(c, m, b) <==> AllPassed(m, Checks(c, b))
  {
    var s := Checks(c, b);
    assert |s| > 0 ==> (AllPassed(m, s) ==> Passed(m, s[0]));
    assert |s| > 1 ==> (AllPassed(m, s) ==> Passed(m, s[1]));
    assert |s| > 2 ==> (AllPassed(m, s) ==> Passed(m, s[2]));
  }

  // A check that fails after others have passed.
  lemma WrongAfter(m: seq<byte>, a: seq<Check>, k: Check, rest: seq<Check>, x: nat)
    requires AllPassed(m, a) && FailsAt(m, k, x)
    ensures FirstWrong(m, a + [k] + rest, x)
  {
    var s := a + [k] + rest;
    assert s[|a|] == k && s[..|a|] == a;
  }

  // src/info.c:1126-1241: the checks of one block, one after the other.
  method CheckBlock(c: Config, mem: array<byte>, b: Block) returns (bad: Option<nat>)
    requires c.page > 0 && BlockOk(c, b) && Hi(c, b) <= mem.Length && (b.Free? || TagOk(b))
    ensures bad.None? <==> Clean(c, mem[..], b)
    ensures bad.Some? ==> FirstWrong(mem[..], Checks(c, b), bad.value)
  {
    LoBelowHi(c, b);
    ChecksMean(c, mem[..], b);
    ghost var inner, outer := Inner(c, b), Outer(c, b);
    assert [] + inner == inner && inner + [] == inner && [] + outer == outer;
    if (b.Free? || (b.info.freed && !c.preserve)) && !c.pageAlloc {
      bad := CheckFill(mem, b.start, c.fbyte, b.size, [], outer);
      if bad.Some? {
        return;
      }
    }
    if b.Free? || c.watch {
      return None;
    }
    bad := CheckAround(c, mem, b, inner);
  }

  // src/info.c:1179-1241
  method CheckAround(c: Config, mem: array<byte>, b: Block, ghost done: seq<Check>) returns (bad: Option<nat>)
    requires c.page > 0 && BlockOk(c, b) && Hi(c, b) <= mem.Length && !b.Free? && TagOk(b) && !c.watch
    requires AllPassed(mem[..], done)
    ensures bad.None? <==> AllPassed(mem[..], done + Outer(c, b))
    ensures bad.Some? ==> FirstWrong(mem[..], done + Outer(c, b), bad.value)
  {
    LoBelowHi(c, b);
    bad := None;
    assert Outer(c, b) == [] ==> done + Outer(c, b) == done;
    if c.pageAlloc && !b.info.freed {
      var p := RoundDown(b.start, c.page);
      var s := b.start - p;
      var l := RoundUp(b.size + s, c.page);
      bad := CheckBoth(mem, p, s, b.start + b.size, l - b.size - s, c.obyte, done);
    }
    if !c.pageAlloc {
      if c.oflow > 0 {
        bad := CheckBoth(mem, b.start - c.oflow, c.oflow, b.start + b.size, c.oflow, c.obyte, done);
      }
    }
  }

  // Two stretches of memory, after the checks in done.
  method CheckBoth(mem: array<byte>, t: nat, l: nat, u: nat, k: nat, v: byte, ghost done: seq<Check>)
    returns (bad: Option<nat>)
    requires t + l <= mem.Length && u + k <= mem.Length && AllPassed(mem[..], done)
    ensures bad.None? <==> AllPassed(mem[..], done + [Check(t, t + l, v), Check(u, u + k, v)])
    ensures bad.Some? ==> FirstWrong(mem[..], done + [Check(t, t + l, v), Check(u, u + k, v)], bad.value)
  {
    ghost var first, second := Check(t, t + l, v), Check(u, u + k, v);
    assert done + [first, second] == done + [first] + [second] == (done + [first]) + [second] + [];
    bad := CheckFill(mem, t, v, l, done, [second]);
    if bad.None? {
      bad := CheckFill(mem, u, v, k, done + [first], []);
    }
  }

  method CheckFill(mem: array<byte>, t: nat, v: byte, l: nat, ghost done: seq<Check>, ghost rest: seq<Check>)
    returns (bad: Option<nat>)
    requires t + l <= mem.Length && AllPassed(mem[..], done)
    ensures bad.None? ==> AllPassed(mem[..], done + [Check(t, t + l, v)])
    ensures bad.Some? ==> FirstWrong(mem[..], done + [Check(t, t + l, v)] + rest, bad.value)
    ensures bad.Some? ==> !AllPassed(mem[..], done + [Check(t, t + l, v)] + rest)
  {
    bad := MemCheck(mem, t, v, l);
    ghost var k := Check(t, t + l, v);
    if bad.Some? {
      assert FailsAt(mem[..], k, bad.value);
      WrongAfter(mem[..], done, k, rest, bad.value);
      assert (done + [k] + rest)[|done|] == k && !Passed(mem[..], k);
    }
  }

  predicate Encloses(b: Block, p: nat, s: nat) {
    b.start <= p && p + s <= b.start + b.size
  }

  // No node of the list meets the range.
  ghost predicate Clear(c: Config, s: seq<Block>, p: nat, n: nat)
    requires c.page > 0
  {
    forall j :: 0 <= j < |s| ==> !Meets(c, s[j], p, n)
  }

  ghost predicate First(c: Config, s: seq<Block>, p: nat, n: nat, i: nat)
    requires c.page > 0
  {
    i < |s| && Meets(c, s[i], p, n) && forall j :: 0 <= j < i ==> !Meets(c, s[j], p, n)
  }

  // A payload that encloses the range belongs to the only node that meets it.
  lemma FirstOnly(c: Config, s: seq<Block>, p: nat, n: nat, i: nat)
    requires c.page > 0 && Chain(c, s) && n > 0 && First(c, s, p, n, i)
    ensures !Clear(c, s, p, n)
    ensures forall b :: b in s && !b.Free? && Encloses(b, p, n) ==> b == s[i]
    ensures forall j: nat :: First(c, s, p, n, j) ==> j == i
  {
    forall b | b in s && !b.Free? && Encloses(b, p, n)
      ensures b == s[i]
    {
      var j := LiveIndex(c, s, b);
      LoBelowHi(c, s[j]);
      LoBelowHi(c, s[i]);
    }
  }

  lemma NothingKept(list: seq<Block>, queue: seq<nat>)
    requires QueueOk(list, queue)
    ensures list == [] ==> queue == []
  {
    if |queue| > 0 {
      assert queue[0] in FreedStarts(list);
      var b :| b in list && b.Freed? && b.start == queue[0];
    }
  }

  class InfoHead {
    const alloc: AllocHead
    var astack: seq<nat>
    var count: nat
    var limit: nat
    var recur: nat
    var fini: bool

    // The heap is sound, the flags match the status of each block, the alloca
    // stack holds exactly the live blocks of the alloca family, and no more
    // freed blocks are kept than the user allows.
    ghost predicate Valid()
      reads this, alloc, alloc.mem
    {
      && alloc.Valid() && Tagged(Used(alloc.list)) && StackOk(astack, Lives(alloc.list))
      && |alloc.flist| <= alloc.fmax
    }

    constructor (alloc: AllocHead)
      requires alloc.Valid() && alloc.list == []
      ensures Valid() && this.alloc == alloc && astack == [] && count == 0 && recur == 0 && !fini
    {
      this.alloc, astack, count, limit, recur, fini := alloc, [], 0, 0, 0, false;
      NothingKept(alloc.list, alloc.flist);
    }

    // src/info.c:388-390 and 604-606: more bytes than the user allows, or a
    // failure that the user asked for.
    predicate Refused(more: int, limited: bool, inject: bool)
      reads this, alloc
    {
      recur == 1 && ((limit > 0 && limited && alloc.asize + more > limit) || inject)
    }

    // src/info.c:307-493
    method GetMemory(l0: nat, a0: nat, kind: AllocType, s: Supply) returns (p: nat, ghost fits: bool)
      requires Valid() && Bounded(alloc.c, AtLeastOne(SizeFor(alloc.c, kind, l0)))
      requires Suits(alloc.c, alloc.View(), SizeFor(alloc.c, kind, l0), AlignFor(alloc.c, kind, a0), s)
      modifies this`count, this`astack, alloc, alloc.mem
      ensures Valid() && count == old(count) + 1
      ensures alloc.flist == old(alloc.flist) && alloc.fmax == old(alloc.fmax)
      ensures p == 0 ==> astack == old(astack) && Lives(alloc.list) == old(Lives(alloc.list))
      ensures p != 0 ==>
        var n := Live(p, AtLeastOne(SizeFor(alloc.c, kind, l0)), Info(kind, count, 0, false, false));
        && n !in old(Lives(alloc.list)) && Lives(alloc.list) == old(Lives(alloc.list)) + {n}
        && astack == (if IsAlloca(kind) then [p] else []) + old(astack)
      ensures p != 0 ==>
        && Aligned(alloc.c, p, AlignFor(alloc.c, kind, a0))
        && Holds(alloc.mem[..], p, p + SizeFor(alloc.c, kind, l0), if Zeroed(kind) then 0 else alloc.c.abyte)
      ensures AllUntouched(old(alloc.mem[..]), alloc.mem[..], old(Lives(alloc.list)))
      ensures old(Refused(SizeFor(alloc.c, kind, l0), true, s.inject)) ==> p == 0 && alloc.View() == old(alloc.View())
      ensures 0 < AlignOf(alloc.c, AlignFor(alloc.c, kind, a0))
      ensures Slack(alloc.c, AtLeastOne(SizeFor(alloc.c, kind, l0)), AlignOf(alloc.c, AlignFor(alloc.c, kind, a0)))
        ==> fits
      ensures !fits ==> p == 0
      ensures fits ==>
        (p != 0 <==>
         && !old(Refused(SizeFor(alloc.c, kind, l0), true, s.inject)) && s.infoNode && (IsAlloca(kind) ==> s.allocaNode)
         && Supplied(alloc.c, old(alloc.list), SizeFor(alloc.c, kind, l0), AlignFor(alloc.c, kind, a0), s))
    {
      count := count + 1;
      var l, a := Adjust(alloc.c, l0, a0, kind);
      p, fits := GetAdjusted(l, a, kind, s);
    }

    // src/info.c:389-493
    method GetAdjusted(l: nat, a: nat, kind: AllocType, s: Supply) returns (p: nat, ghost fits: bool)
      requires Valid() && Bounded(alloc.c, AtLeastOne(l)) && Suits(alloc.c, alloc.View(), l, a, s)
      modifies this`astack, alloc, alloc.mem
      ensures Valid() && alloc.flist == old(alloc.flist) && alloc.fmax == old(alloc.fmax)
      ensures p == 0 ==> astack == old(astack) && Lives(alloc.list) == old(Lives(alloc.list))
      ensures p != 0 ==>
        var n := Live(p, AtLeastOne(l), Info(kind, count, 0, false, false));
        && n !in old(Lives(alloc.list)) && Lives(alloc.list) == old(Lives(alloc.list)) + {n}
        && astack == (if IsAlloca(kind) then [p] else []) + old(astack)
      ensures p != 0 ==>
        Aligned(alloc.c, p, a) && Holds(alloc.mem[..], p, p + l, if Zeroed(kind) then 0 else alloc.c.abyte)
      ensures AllUntouched(old(alloc.mem[..]), alloc.mem[..], old(Lives(alloc.list)))
      ensures old(Refused(l, true, s.inject)) ==> p == 0 && alloc.View() == old(alloc.View())
      ensures 0 < AlignOf(alloc.c, a) && (Slack(alloc.c, AtLeastOne(l), AlignOf(alloc.c, a)) ==> fits)
      ensures !fits ==> p == 0
      ensures fits ==>
        (p != 0 <==> !old(Refused(l, true, s.inject)) && s.infoNode && (IsAlloca(kind) ==> s.allocaNode)
                     && Supplied(alloc.c, old(alloc.list), l, a, s))
    {
      AlignOfDivides(alloc.c, a);
      p, fits := 0, true;
      if Refused(l, true, s.inject) {
        return;
      }
      if (IsAlloca(kind) && !s.allocaNode) || !s.infoNode {
        return;
      }
      var info := Info(kind, count, 0, false, false);
      p, fits := ObtainFilled(alloc, l, a, info, if Zeroed(kind) then 0 else alloc.c.abyte, s);
      if p != 0 {
        Enter(Live(p, AtLeastOne(l), info), old(Lives(alloc.list)), old(Used(alloc.list)));
      }
    }

    // src/info.c:455-482: a new block of the alloca family goes on the stack.
    method Enter(n: Block, ghost lives: set<Block>, ghost used: set<Block>)
      requires alloc.Valid() && n.Live? && TagOk(n) && n !in lives
      requires Lives(alloc.list) == lives + {n} && Used(alloc.list) == used + {n}
      requires Tagged(used) && StackOk(astack, lives) && |alloc.flist| <= alloc.fmax
      modifies this`astack
      ensures Valid() && astack == (if IsAlloca(n.info.kind) then [n.start] else []) + old(astack)
    {
      LivesApart(alloc.c, alloc.list);
      TagAdd(used, n);
      if IsAlloca(n.info.kind) {
        PushStack(astack, lives, n);
        astack := [n.start] + astack;
      } else {
        KeepStackAdd(astack, lives, n);
      }
    }

    // src/info.c:776-845: what is wrong with a pointer passed to free.
    method Diagnose(p: nat, kind: AllocType) returns (r: Outcome)
      requires alloc.Valid()
      ensures r.NullPointer? <==> p == 0
      ensures r.PreviouslyFreed? <==> p != 0 && Somewhere(alloc.list, p, false)
      ensures r.NotAllocated? <==> p != 0 && !Somewhere(alloc.list, p, false) && !Somewhere(alloc.list, p, true)
      ensures r.Mismatch? <==> p != 0 && Somewhere(alloc.list, p, true) && At(alloc.list, p).None?
      ensures r.Done? <==> p != 0 && Freeable(alloc.list, p, kind)
      ensures r.Incompatible? <==>
        p != 0 && At(alloc.list, p).Some? && !Compatible(At(alloc.list, p).value.info.kind, kind)
      ensures r.Marked? <==>
        && p != 0 && At(alloc.list, p).Some? && Compatible(At(alloc.list, p).value.info.kind, kind)
        && At(alloc.list, p).value.info.marked
    {
      if p == 0 {
        return NullPointer;
      }
      ghost var s := alloc.list;
      var g := alloc.FindFreed(p);
      var n := alloc.FindAlloc(p);
      DiagnoseFound(alloc.c, s, p, g, n);
      if g.Some? {
        return PreviouslyFreed;
      }
      if n.None? {
        return NotAllocated;
      }
      var b := alloc.list[n.value];
      if p != b.start {
        return Mismatch;
      }
      if !Compatible(b.info.kind, kind) {
        return Incompatible;
      }
      return if b.info.marked then Marked else Done;
    }

    // src/info.c:898-919: take p off the stack, wherever it is.
    method Unstack(p: nat)
      modifies this`astack
      ensures p !in old(astack) ==> astack == old(astack)
      ensures p in old(astack) ==> Removed(old(astack), astack, p)
    {
      var k := 0;
      while k < |astack| && astack[k] != p
        invariant k <= |astack| && p !in astack[..k]
      {
        k := k + 1;
      }
      if k < |astack| {
        astack := astack[..k] + astack[k + 1..];
      }
    }

    // src/info.c:764-927
    method FreeMemory(p: nat, kind: AllocType) returns (r: Outcome)
      requires Valid()
      modifies this`astack, alloc, alloc.mem
      ensures Valid() && alloc.fmax == old(alloc.fmax)
      ensures r.Done? <==> p != 0 && Freeable(old(alloc.list), p, kind)
      ensures !r.Done? ==> alloc.View() == old(alloc.View()) && astack == old(astack)
      ensures r.Done? ==> var b := At(old(alloc.list), p).value;
        && Lives(alloc.list) == old(Lives(alloc.list)) - {b}
        && AllUntouched(old(alloc.mem[..]), alloc.mem[..], old(Lives(alloc.list)) - {b})
        && (alloc.fmax != 0 ==> alloc.flist == Push(old(alloc.flist), alloc.fmax, p))
        && (!IsAlloca(b.info.kind) ==> astack == old(astack))
        && (IsAlloca(b.info.kind) ==> Removed(old(astack), astack, p))
    {
      r := Diagnose(p, kind);
      if r.Done? {
        FreeFound(At(alloc.list, p).value, kind);
      }
    }

    // src/info.c:847-926: live block b is freed.
    method FreeFound(b: Block, kind: AllocType)
      requires Valid() && b.Live? && b in alloc.list && Compatible(b.info.kind, kind)
      modifies this`astack, alloc, alloc.mem
      ensures Valid() && alloc.fmax == old(alloc.fmax)
      ensures Lives(alloc.list) == old(Lives(alloc.list)) - {b}
      ensures AllUntouched(old(alloc.mem[..]), alloc.mem[..], old(Lives(alloc.list)) - {b})
      ensures alloc.fmax != 0 ==> alloc.flist == Push(old(alloc.flist), alloc.fmax, b.start)
      ensures !IsAlloca(b.info.kind) ==> astack == old(astack)
      ensures IsAlloca(b.info.kind) ==> Removed(old(astack), astack, b.start)
    {
      InLives(alloc.list, b);
      var keep := None;
      if alloc.fmax != 0 {
        keep := Some(b.info.(kind := kind, freed := true));
      }
      LivesApart(alloc.c, alloc.list);
      OnStackIn(astack, Lives(alloc.list), b);
      if kind.Alloca? || kind.DeAlloca? {
        Unstack(b.start);
      }
      DropStack(old(astack), astack, Lives(alloc.list), b);
      GiveUp(alloc, b, keep);
      TagShrink(old(Used(alloc.list)), Used(alloc.list), b, keep);
    }

    // src/info.c:501-756
    method ResizeMemory(p: nat, l: nat, a: nat, kind: AllocType, s: Supply) returns (r: nat, ghost fits: bool)
      requires Valid() && IsRealloc(kind) && Bounded(alloc.c, AtLeastOne(l)) && Suits(alloc.c, alloc.View(), l, a, s)
      modifies this`count, this`astack, alloc, alloc.mem
      ensures Valid() && alloc.fmax == old(alloc.fmax) && astack == old(astack)
      // A null pointer: a new block.
      ensures p == 0 && r != 0 ==> var n := Live(r, AtLeastOne(l), Info(kind, count, 0, false, false));
        && n !in old(Lives(alloc.list)) && Lives(alloc.list) == old(Lives(alloc.list)) + {n}
        && Holds(alloc.mem[..], r, r + l, TailByte(alloc.c, kind))
      ensures p == 0 && r == 0 ==> Lives(alloc.list) == old(Lives(alloc.list))
      ensures p == 0 ==> AllUntouched(old(alloc.mem[..]), alloc.mem[..], old(Lives(alloc.list)))
      // A pointer that is not accepted changes nothing.
      ensures p != 0 && !Resizable(old(alloc.list), p) ==> r == 0 && alloc.View() == old(alloc.View())
      // Otherwise the call succeeds, fails and leaves the block, or frees it.
      ensures p != 0 && Resizable(old(alloc.list), p) ==>
        Answered(alloc.c, old(Lives(alloc.list)), old(alloc.mem[..]), At(old(alloc.list), p).value, r, l, kind,
                 Lives(alloc.list), alloc.mem[..])
      // Which of the three, and whether the block keeps its address, depends
      // on the room there is.
      ensures alloc.c.page > 0
      ensures fits && p == 0 ==>
        (r != 0 <==> !old(Refused(l, true, s.inject)) && s.infoNode && Supplied(alloc.c, old(alloc.list), l, a, s))
      ensures fits && p != 0 && l > 0 && Resizable(old(alloc.list), p) ==>
        var b := At(old(alloc.list), p).value;
        (r != 0 <==> !old(Refused(l - b.size, l > b.size, s.inject))
                     && CanRework(alloc.c, old(alloc.list), alloc.fmax, b, l, a, kind, s))
      ensures p != 0 && r != 0 && Resizable(old(alloc.list), p) ==>
        (r == p <==> StaysThere(alloc.c, old(alloc.list), alloc.fmax, At(old(alloc.list), p).value, l, kind, s))
      // With NOFREE the old block joins the queue.
      ensures p != 0 && r != 0 && !kind.Expand? && alloc.fmax != 0 ==>
        alloc.flist == Push(old(alloc.flist), alloc.fmax, p)
      ensures 0 < AlignOf(alloc.c, a) && (Slack(alloc.c, AtLeastOne(l), AlignOf(alloc.c, a)) ==> fits)
      ensures r != 0 && r != p ==> Aligned(alloc.c, r, a)
      ensures !fits ==> r == 0
    {
      AlignOfDivides(alloc.c, a);
      r, fits := 0, true;
      if p == 0 {
        r, fits := ResizeNull(l, a, kind, s);
        return;
      }
      var found := Accept(p);
      if found.None? {
        return;
      }
      LivesApart(alloc.c, alloc.list);
      r, fits := ResizeFound(found.value, l, a, kind, s);
    }

    // src/info.c:514-523: a null pointer.
    method ResizeNull(l: nat, a: nat, kind: AllocType, s: Supply) returns (r: nat, ghost fits: bool)
      requires Valid() && IsRealloc(kind) && Bounded(alloc.c, AtLeastOne(l)) && Suits(alloc.c, alloc.View(), l, a, s)
      modifies this`count, this`astack, alloc, alloc.mem
      ensures Valid() && alloc.fmax == old(alloc.fmax) && astack == old(astack)
      ensures r != 0 ==> var n := Live(r, AtLeastOne(l), Info(kind, count, 0, false, false));
        && n !in old(Lives(alloc.list)) && Lives(alloc.list) == old(Lives(alloc.list)) + {n}
        && Holds(alloc.mem[..], r, r + l, TailByte(alloc.c, kind))
      ensures r == 0 ==> Lives(alloc.list) == old(Lives(alloc.list))
      ensures AllUntouched(old(alloc.mem[..]), alloc.mem[..], old(Lives(alloc.list)))
      ensures fits ==>
        (r != 0 <==> !old(Refused(l, true, s.inject)) && s.infoNode && Supplied(alloc.c, old(alloc.list), l, a, s))
      ensures 0 < AlignOf(alloc.c, a) && (Slack(alloc.c, AtLeastOne(l), AlignOf(alloc.c, a)) ==> fits)
      ensures r != 0 ==> Aligned(alloc.c, r, a)
      ensures !fits ==> r == 0
    {
      r, fits := GetMemory(l, a, kind, s);
    }

    // src/info.c:572-752
    method ResizeFound(b: Block, l: nat, a: nat, kind: AllocType, s: Supply) returns (r: nat, ghost fits: bool)
      requires Valid() && IsRealloc(kind) && Bounded(alloc.c, AtLeastOne(l)) && Suits(alloc.c, alloc.View(), l, a, s)
      requires b in Lives(alloc.list) && At(alloc.list, b.start) == Some(b) && Resizable(alloc.list, b.start)
      requires b.start != 0 && Apart(Lives(alloc.list))
      modifies this`astack, alloc, alloc.mem
      ensures Valid() && alloc.fmax == old(alloc.fmax) && astack == old(astack) && b.Live?
      ensures Answered(alloc.c, old(Lives(alloc.list)), old(alloc.mem[..]), b, r, l, kind, Lives(alloc.list),
                       alloc.mem[..])
      ensures r != 0 && !kind.Expand? && alloc.fmax != 0 ==>
        alloc.flist == Push(old(alloc.flist), alloc.fmax, b.start)
      ensures alloc.c.page > 0
      ensures fits && l > 0 ==>
        (r != 0 <==> !old(Refused(l - b.size, l > b.size, s.inject))
                     && CanRework(alloc.c, old(alloc.list), alloc.fmax, b, l, a, kind, s))
      ensures r != 0 ==> (r == b.start <==> StaysThere(alloc.c, old(alloc.list), alloc.fmax, b, l, kind, s))
      ensures 0 < AlignOf(alloc.c, a) && (Slack(alloc.c, AtLeastOne(l), AlignOf(alloc.c, a)) ==> fits)
      ensures r != 0 && r != b.start ==> Aligned(alloc.c, r, a)
      ensures !fits ==> r == 0
    {
      AlignOfDivides(alloc.c, a);
      r, fits := 0, true;
      if l == 0 {
        OnStackIn(astack, Lives(alloc.list), b);
        StaysPut(Lives(alloc.list), alloc.mem[..], b);
        FreeAfter(Lives(alloc.list), alloc.mem[..], b, kind);
        return;
      }
      r, fits := ResizeLive(b, l, a, kind, s);
      if r == 0 && kind.ReallocF? {
        FreeAfter(old(Lives(alloc.list)), old(alloc.mem[..]), b, kind);
      }
    }

    // src/info.c:524-571: the block that realloc is asked to resize.
    method Accept(p: nat) returns (b: Option<Block>)
      requires alloc.Valid()
      ensures b.Some? <==> Resizable(alloc.list, p)
      ensures b.Some? ==> b == At(alloc.list, p) && b.value in Lives(alloc.list) && !OnStack(b.value)
    {
      ghost var s := alloc.list;
      var g := alloc.FindFreed(p);
      var n := alloc.FindAlloc(p);
      DiagnoseFound(alloc.c, s, p, g, n);
      if g.Some? || n.None? {
        return None;
      }
      var d := alloc.list[n.value];
      InLives(s, d);
      if p != d.start || IsAlloca(d.info.kind) || d.info.kind.New? || d.info.kind.NewVec? {
        return None;
      }
      return Some(d);
    }

    // src/info.c:583-746: a live block and a size that is not zero.
    method ResizeLive(b: Block, l: nat, a: nat, kind: AllocType, s: Supply) returns (r: nat, ghost fits: bool)
      requires Valid() && IsRealloc(kind) && 0 < l && Bounded(alloc.c, l) && Suits(alloc.c, alloc.View(), l, a, s)
      requires b in Lives(alloc.list) && !OnStack(b)
      modifies alloc, alloc.mem
      ensures Valid() && alloc.fmax == old(alloc.fmax) && b.Live?
      ensures r == 0 ==> Stays(old(Lives(alloc.list)), old(alloc.mem[..]), b, Lives(alloc.list), alloc.mem[..])
      ensures r != 0 ==>
        Becomes(alloc.c, old(Lives(alloc.list)), old(alloc.mem[..]), b, r, l, kind, Lives(alloc.list), alloc.mem[..])
      ensures r != 0 && !kind.Expand? && alloc.fmax != 0 ==>
        alloc.flist == Push(old(alloc.flist), alloc.fmax, b.start)
      ensures 0 < AlignOf(alloc.c, a) && (Slack(alloc.c, l, AlignOf(alloc.c, a)) ==> fits)
      ensures r != 0 && r != b.start ==> Aligned(alloc.c, r, a)
      ensures !fits ==> r == 0
      ensures alloc.c.page > 0
      ensures fits ==>
        (r != 0 <==> !old(Refused(l - b.size, l > b.size, s.inject))
                     && CanRework(alloc.c, old(alloc.list), alloc.fmax, b, l, a, kind, s))
      ensures r != 0 ==> (r == b.start <==> StaysThere(alloc.c, old(alloc.list), alloc.fmax, b, l, kind, s))
    {
      AlignOfDivides(alloc.c, a);
      InLives(alloc.list, b);
      r, fits := 0, true;
      if Refused(l - b.size, l > b.size, s.inject) {
        return;
      }
      LivesApart(alloc.c, alloc.list);
      KeepStack(astack, Lives(alloc.list), b, Counted(b));
      r, fits := ReworkFilled(alloc, b, l, a, kind, s);
      KeepStack(astack, old(Lives(alloc.list)), b, Reworked(b, r, l, kind));
    }

    // src/info.c:572-582 and 747-751: realloc to no bytes frees the block, and
    // so does reallocf if it could not resize it.
    method FreeAfter(ghost lives: set<Block>, ghost m: seq<byte>, b: Block, kind: AllocType)
      requires Valid() && b.Live? && Sole(lives, b)
      requires Stays(lives, m, b, Lives(alloc.list), alloc.mem[..])
      requires !IsAlloca(b.info.kind) && !b.info.kind.New? && !b.info.kind.NewVec? && IsRealloc(kind)
      modifies this`astack, alloc, alloc.mem
      ensures Valid() && alloc.fmax == old(alloc.fmax) && astack == old(astack)
      ensures if b.info.marked then Stays(lives, m, b, Lives(alloc.list), alloc.mem[..])
              else Goes(lives, m, b, Lives(alloc.list), alloc.mem[..])
    {
      ghost var d := if b in Lives(alloc.list) then b else Counted(b);
      ghost var was, mid := Lives(alloc.list), alloc.mem[..];
      FreeQuietly(d, b.start, kind);
      if !d.info.marked {
        StaysThenGoes(lives, m, b, was, mid, d, Lives(alloc.list), alloc.mem[..]);
      }
    }

    method FreeQuietly(ghost d: Block, p: nat, kind: AllocType)
      requires Valid() && d in Lives(alloc.list) && d.Live? && p == d.start && IsRealloc(kind)
      requires !IsAlloca(d.info.kind) && !d.info.kind.New? && !d.info.kind.NewVec?
      modifies this`astack, alloc, alloc.mem
      ensures Valid() && alloc.fmax == old(alloc.fmax) && astack == old(astack)
      ensures d.info.marked ==> alloc.View() == old(alloc.View())
      ensures !d.info.marked ==> Goes(old(Lives(alloc.list)), old(alloc.mem[..]), d, Lives(alloc.list), alloc.mem[..])
    {
      var _ := LiveAt(alloc.c, alloc.list, d);
      PayloadFits(alloc.c, alloc.View(), d);
      var _ := FreeMemory(p, kind);
    }

    // src/inter.c:1660-1693
    method SetMark(p: nat) returns (ok: bool)
      requires Valid()
      modifies alloc`list
      ensures Valid()
      ensures !ok ==> alloc.View() == old(alloc.View())
      ensures ok <==> exists b :: b in old(alloc.list) && b.Live? && Inside(b, p) && Markable(b)
      ensures ok ==> exists b :: (
        && b in old(Lives(alloc.list)) && b.Live? && Inside(b, p)
        && Lives(alloc.list) == old(Lives(alloc.list)) - {b} + {Live(b.start, b.size, b.info.(marked := true))})
    {
      var n := alloc.FindAlloc(p);
      ok := false;
      if n.Some? {
        var b := alloc.list[n.value];
        ok := Markable(b);
        OnlyInside(alloc.c, alloc.list, n.value, p);
        if ok {
          InLives(alloc.list, b);
          LivesApart(alloc.c, alloc.list);
          Describe(alloc, b, b.info.(marked := true));
          var d := Live(b.start, b.size, b.info.(marked := true));
          TagChange(old(Used(alloc.list)), Used(alloc.list), d);
          KeepStack(astack, old(Lives(alloc.list)), b, d);
        }
      }
    }

    // src/inter.c:296-386: gone holds the blocks whose frames are out of scope.
    method CheckAlloca(force: bool, gone: set<nat>)
      requires Valid()
      modifies this`astack, alloc, alloc.mem
      ensures Valid()
      ensures fini || recur != 1 ==> alloc.View() == old(alloc.View()) && astack == old(astack)
      ensures !fini && recur == 1 ==>
        && Lives(alloc.list) == old(Lives(alloc.list)) - Doomed(old(Lives(alloc.list)), force, gone)
        && AllUntouched(old(alloc.mem[..]), alloc.mem[..], Lives(alloc.list))
      ensures !fini && recur == 1 && force ==> astack == []
    {
      ghost var lives, m := Lives(alloc.list), alloc.mem[..];
      if fini || recur != 1 || |astack| == 0 {
        NothingDoomed(astack, lives, force, gone);
        return;
      }
      var k := 0;
      ghost var done: set<Block> := {};
      while k < |astack|
        invariant Valid() && k <= |astack|
        invariant done <= Doomed(lives, force, gone) && Lives(alloc.list) == lives - done
        invariant AllUntouched(m, alloc.mem[..], Lives(alloc.list))
        invariant forall p :: p in astack[..k] ==> !force && p !in gone
        decreases |astack| - k
      {
        if force || astack[k] in gone {
          label Before:
          ghost var b := StackedAt(astack, Lives(alloc.list), k);
          FreeStacked(k, b);
          UntouchedLess(m, old@Before(alloc.mem[..]), alloc.mem[..], old@Before(Lives(alloc.list)), b);
          DoomedMore(lives, done, b, force, gone);
          done := done + {b};
          assert astack[..k] == old@Before(astack)[..k];
        } else {
          k := k + 1;
        }
      }
      assert astack[..k] == astack;
      AllDoomed(astack, lives, done, force, gone);
    }

    // src/inter.c:372-385 with src/info.c:764-927: a block of the stack is freed.
    method FreeStacked(k: nat, ghost b: Block)
      requires Valid() && k < |astack| && b in Lives(alloc.list) && OnStack(b) && b.start == astack[k]
      modifies this`astack, alloc, alloc.mem
      ensures Valid() && astack == old(astack)[..k] + old(astack)[k + 1..]
      ensures Goes(old(Lives(alloc.list)), old(alloc.mem[..]), b, Lives(alloc.list), alloc.mem[..])
    {
      ghost var q := astack;
      var _ := LiveAt(alloc.c, alloc.list, b);
      PayloadFits(alloc.c, alloc.View(), b);
      InLives(alloc.list, b);
      InUsed(alloc.list, b);
      var _ := FreeMemory(astack[k], Alloca);
      RemovedOnce(q, astack, k);
    }

    // The heap has its shape and its flags; what the payloads and the filled
    // bytes hold is open.
    ghost predicate Shaped()
      reads this, alloc, alloc.mem
    {
      && alloc.c.Valid() && Chain(alloc.c, alloc.list) && Tagged(Used(alloc.list))
      && forall i :: 0 <= i < |alloc.list| ==> Hi(alloc.c, alloc.list[i]) <= alloc.mem.Length
    }

    // src/info.c:1119-1243; the result is the first byte, in the order of the
    // checks, that is not as it should be.
    method CheckInfo() returns (bad: Option<nat>)
      requires Shaped()
      ensures bad.None? <==> forall i :: 0 <= i < |alloc.list| ==> Clean(alloc.c, alloc.mem[..], alloc.list[i])
      ensures bad.Some? ==> alloc.c.page > 0 && exists i ::
        && 0 <= i < |alloc.list| && FirstWrong(alloc.mem[..], Checks(alloc.c, alloc.list[i]), bad.value)
        && forall j :: 0 <= j < i ==> Clean(alloc.c, alloc.mem[..], alloc.list[j])
      ensures Valid() ==> bad.None?
    {
      var n := 0;
      while n < |alloc.list|
        invariant n <= |alloc.list|
        invariant forall i :: 0 <= i < n ==> Clean(alloc.c, alloc.mem[..], alloc.list[i])
      {
        var b := alloc.list[n];
        InUsed(alloc.list, b);
        bad := CheckBlock(alloc.c, alloc.mem, b);
        if bad.Some? {
          return;
        }
        n := n + 1;
      }
      return None;
    }

    // src/info.c:1252-1324
    method CheckRange(p: nat, s: nat, allowOverflow: bool) returns (ok: bool)
      requires Valid()
      ensures p == 0 ==> !ok
      ensures p != 0 && s == 0 ==> ok
      ensures p != 0 && s > 0 && !allowOverflow ==>
        (ok <==> Clear(alloc.c, alloc.list, p, s) || exists b :: b in alloc.list && b.Live? && Encloses(b, p, s))
      ensures p != 0 && s > 0 && allowOverflow ==>
        (ok <==> forall i: nat :: First(alloc.c, alloc.list, p, s, i) ==> alloc.list[i].Live?)
    {
      if p == 0 || s == 0 {
        return p != 0;
      }
      var n := alloc.FindNode(p, s);
      if n.None? {
        return true;
      }
      var b := alloc.list[n.value];
      FirstOnly(alloc.c, alloc.list, p, s, n.value);
      if b.Free? {
        return false;
      }
      InUsed(alloc.list, b);
      if b.info.freed {
        return false;
      }
      return Encloses(b, p, s) || allowOverflow;
    }

    // src/option.c:1385-1392: lowering NOFREE gives up freed blocks only.
    method SetNoFree(v: nat)
      requires Valid()
      modifies alloc, alloc.mem
      ensures Valid() && alloc.fmax == v && alloc.flist == Newest(old(alloc.flist), v)
      ensures Lives(alloc.list) == old(Lives(alloc.list))
      ensures AllUntouched(old(alloc.mem[..]), alloc.mem[..], old(Lives(alloc.list)))
    {
      DrainEffect(alloc.c, alloc.View(), v);
      var _ := alloc.SetFreedLimit(v);
    }
  }
}
