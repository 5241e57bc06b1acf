// What every allocator step does to the set of live blocks and to the bytes
// in them.
module Effects {
  import opened Memory
  import opened Blocks
  import opened Heap
  import opened Resizing
  import opened Canonical
  import opened Runs

  ghost function Lives(s: seq<Block>): set<Block> {
    set b | b in Used(s) && b.Live?
  }

  lemma InLives(s: seq<Block>, b: Block)
    ensures b in Lives(s) <==> b in s && b.Live?
  {
    InUsed(s, b);
  }

  // The payload of b is the same in both memories.
  ghost predicate Untouched(m: seq<byte>, n: seq<byte>, b: Block) {
    |m| == |n| && forall x :: b.start <= x < b.start + b.size && x < |m| ==> n[x] == m[x]
  }

  // Every live block in the set keeps its contents.
  ghost predicate AllUntouched(m: seq<byte>, n: seq<byte>, bs: set<Block>) {
    |m| == |n| && forall b :: b in bs ==> Untouched(m, n, b)
  }

  lemma UntouchedTrans(m: seq<byte>, n: seq<byte>, k: seq<byte>, bs: set<Block>)
    requires AllUntouched(m, n, bs) && AllUntouched(n, k, bs)
    ensures AllUntouched(m, k, bs)
  {
    forall b | b in bs
      ensures Untouched(m, k, b)
    {
      assert Untouched(m, n, b) && Untouched(n, k, b);
    }
  }

  lemma GrowEffect(c: Config, st: State, p: nat, size: nat)
    requires Sound(c, st) && FreshRange(c, st, p, size)
    ensures var now := Grow(c, st, p, size);
            && Lives(now.list) == Lives(st.list) && AllUntouched(st.mem, now.mem, Lives(st.list))
            && Used(now.list) == Used(st.list)
  {
    var i := Position(st.list, p);
    var s := Splice(st.list, i, 0, [Free(p, size)]);
    UsedCoalesced(c, s, i);
    UsedRun(st.list, i, 0, Free(p, size));
    forall b | b in Lives(st.list)
      ensures Untouched(st.mem, Grow(c, st, p, size).mem, b)
    {
      InLives(st.list, b);
      GrowKeeps(c, st, p, size, b);
    }
  }

  lemma CarveEffect(c: Config, st: State, i: nat, l: nat, a: nat, info: Info)
    requires Sound(c, st) && i < |st.list|
    requires Request(c, st.list[i], l, a) && CanHold(c, st.list[i], l, a)
    ensures var now := Carve(c, st, i, l, a, info);
            var n := CarvedBlock(c, st.list[i], l, a, info);
            && Lives(now.list) == Lives(st.list) + {n} && n !in Lives(st.list)
            && Used(now.list) == Used(st.list) + {n}
            && AllUntouched(st.mem, now.mem, Lives(st.list))
  {
    UsedCarved(c, st, i, l, a, info);
    forall b | b in Lives(st.list)
      ensures Untouched(st.mem, Carve(c, st, i, l, a, info).mem, b)
    {
      InLives(st.list, b);
      CarveKeeps(c, st, i, l, a, info, b);
    }
  }

  lemma ResizeEffect(c: Config, st: State, i: nat, l: nat)
    requires Sound(c, st) && i < |st.list| && st.list[i].Live? && 0 < l && CanResize(c, st.list, i, l)
    ensures var now, b := Resize(c, st, i, l), st.list[i];
            && Lives(now.list) == Lives(st.list) - {b} + {Live(b.start, l, b.info)}
            && Used(now.list) <= Used(st.list) + {Live(b.start, l, b.info)}
            && AllUntouched(st.mem, now.mem, Lives(st.list) - {b})
            && forall x :: b.start <= x < b.start + (if l < b.size then l else b.size) && x < |st.mem| ==>
                 now.mem[x] == st.mem[x]
  {
    var now, b := Resize(c, st, i, l), st.list[i];
    ResizedClean(c, st.list, st.mem, i, l);
    forall d | d in Lives(st.list) - {b}
      ensures Untouched(st.mem, now.mem, d)
    {
      InLives(st.list, d);
      ResizeKeeps(c, st, i, l, d);
    }
    ResizeLives(c, st.list, i, l);
  }

  lemma ResizeLives(c: Config, s: seq<Block>, i: nat, l: nat)
    requires c.page > 0 && Chain(c, s) && i < |s| && s[i].Live? && CanResize(c, s, i, l)
    ensures var r, n := Splice(s, i, RunLength(c, s, i), Resized(c, s, i, l)), Live(s[i].start, l, s[i].info);
            Lives(r) == Lives(s) - {s[i]} + {n} && Used(r) <= Used(s) + {n}
  {
    var k, n := RunLength(c, s, i), Live(s[i].start, l, s[i].info);
    UsedResized(c, s, i, l);
    NotElsewhere(c, s, i, k, Free(s[i].start, s[i].size));
    SwapIn(Used(s[..i]), Used(s[i + k..]), s[i], n);
    LivesSwap(Used(s), s[i], n);
  }

  lemma SwapIn<T>(p: set<T>, q: set<T>, x: T, n: T)
    requires x !in p && x !in q
    ensures p + {n} + q == p + {x} + q - {x} + {n}
  {
  }

  lemma LivesSwap(u: set<Block>, x: Block, n: Block)
    requires x.Live?
    ensures (set b | b in u - {x} + {n} && b.Live?) == (set b | b in u && b.Live?) - {x} + if n.Live? then {n} else {}
  {
  }

  lemma ReleaseEffect(c: Config, st: State, i: nat)
    requires Sound(c, st) && i < |st.list| && !st.list[i].Free?
    ensures var now, b := Release(c, st, i), st.list[i];
            && Lives(now.list) == Lives(st.list) - {b} && Used(now.list) <= Used(st.list)
            && AllUntouched(st.mem, now.mem, Lives(st.list) - {b})
  {
    var b := st.list[i];
    UsedRelease(c, st, i);
    forall d | d in Lives(st.list) - {b}
      ensures Untouched(st.mem, Release(c, st, i).mem, d)
    {
      InLives(st.list, d);
      ReleaseKept(c, st, i, d);
    }
  }

  lemma RecycleEffect(c: Config, st: State)
    requires Sound(c, st) && |st.queue| > 0
    ensures var now := Recycle(c, st);
            && Lives(now.list) == Lives(st.list) && AllUntouched(st.mem, now.mem, Lives(st.list))
            && Used(now.list) <= Used(st.list)
  {
    QueueHead(c, st);
    var i := Position(st.list, st.queue[0]);
    ReleaseEffect(c, st, i);
    assert Release(c, st.(queue := st.queue[1..]), i) == Release(c, st, i).(queue := st.queue[1..]);
  }

  lemma RetireEffect(c: Config, st: State, i: nat, info: Info)
    requires Sound(c, st) && i < |st.list| && st.list[i].Live?
    ensures var now, b := Retire(c, st, i, info), st.list[i];
            && Lives(now.list) == Lives(st.list) - {b}
            && Used(now.list) <= Used(st.list) + {Freed(b.start, b.size, info)}
            && AllUntouched(st.mem, now.mem, Lives(st.list) - {b})
  {
    var b := st.list[i];
    var g := Freed(b.start, b.size, info);
    UsedSwap(c, st.list, i, g);
    forall d | d in Lives(st.list) - {b}
      ensures Untouched(st.mem, Retire(c, st, i, info).mem, d)
    {
      InLives(st.list, d);
      RetireKept(c, st, i, info, d);
    }
  }

  lemma UsedOne(b: Block)
    requires !b.Free?
    ensures Used([b]) == {b}
  {
  }

  // Replacing one used block by another.
  lemma UsedSwap(c: Config, s: seq<Block>, i: nat, g: Block)
    requires c.page > 0 && Chain(c, s) && i < |s| && !s[i].Free? && !g.Free?
    ensures Used(Splice(s, i, 1, [g])) == Used(s) - {s[i]} + {g}
  {
    UsedSplice(s, i, 1, [g]);
    assert s[i..i + 1] == [s[i]];
    UsedOne(g);
    UsedOne(s[i]);
    NotElsewhere(c, s, i, 1, Free(s[i].start, s[i].size));
    SwapIn(Used(s[..i]), Used(s[i + 1..]), s[i], g);
  }

  lemma FreeEffect(c: Config, st: State, b: Block, keep: Option<Info>)
    requires Sound(c, st) && b in Lives(st.list)
    ensures var now := FreeBlock(c, st, b.start, keep);
            && Lives(now.list) == Lives(st.list) - {b}
            && Used(now.list) <= Used(st.list) + (if keep.Some? then {Freed(b.start, b.size, keep.value)} else {})
            && AllUntouched(st.mem, now.mem, Lives(st.list) - {b})
  {
    InLives(st.list, b);
    var base := if keep.Some? && Full(st) then Recycle(c, st) else st;
    if keep.Some? && Full(st) {
      RecycleEffect(c, st);
      RecycleSound(c, st);
    }
    InLives(base.list, b);
    var i := LiveIndex(c, base.list, b);
    if keep.None? {
      ReleaseEffect(c, base, i);
    } else {
      RetireEffect(c, base, i, keep.value);
      UntouchedTrans(st.mem, base.mem, FreeBlock(c, st, b.start, keep).mem, Lives(st.list) - {b});
    }
  }

  // Writing inside live block i keeps the heap sound and touches no other
  // live block.
  lemma PayloadWrite(c: Config, st: State, i: nat, now: seq<byte>)
    requires Sound(c, st) && i < |st.list| && st.list[i].Live?
    requires SameOutside(st.mem, now, st.list[i].start, st.list[i].start + st.list[i].size)
    ensures Sound(c, st.(mem := now))
    ensures AllUntouched(st.mem, now, Lives(st.list) - {st.list[i]})
  {
    forall j | 0 <= j < |st.list|
      ensures Clean(c, now, st.list[j])
    {
      WriteElsewhere(c, st, i, now, j);
    }
    forall b | b in Lives(st.list) - {st.list[i]}
      ensures Untouched(st.mem, now, b)
    {
      InLives(st.list, b);
      var j := LiveIndex(c, st.list, b);
      WriteElsewhere(c, st, i, now, j);
    }
  }

  // What block j is to check does not depend on the payload of block i.
  lemma WriteElsewhere(c: Config, st: State, i: nat, now: seq<byte>, j: nat)
    requires Sound(c, st) && i < |st.list| && st.list[i].Live? && j < |st.list|
    requires SameOutside(st.mem, now, st.list[i].start, st.list[i].start + st.list[i].size)
    ensures Clean(c, now, st.list[j])
    ensures j != i ==> Untouched(st.mem, now, st.list[j])
  {
    var n, b := st.list[i], st.list[j];
    assert Clean(c, st.mem, b);
    LoBelowHi(c, n);
    LoBelowHi(c, b);
    if j < i {
      assert Hi(c, b) <= Lo(c, n);
    } else if i < j {
      assert Hi(c, n) <= Lo(c, b);
    }
  }

  lemma RelabelEffect(c: Config, st: State, i: nat, info: Info)
    requires Sound(c, st) && i < |st.list| && st.list[i].Live?
    ensures Sound(c, Relabel(st, i, info))
    ensures var b := st.list[i];
            && Lives(Relabel(st, i, info).list) == Lives(st.list) - {b} + {Live(b.start, b.size, info)}
            && Used(Relabel(st, i, info).list) <= Used(st.list) + {Live(b.start, b.size, info)}
  {
    var s, b := st.list, st.list[i];
    var n := Live(b.start, b.size, info);
    LoBelowHi(c, b);
    assert BlockOk(c, b) && Clean(c, st.mem, b);
    assert BlockOk(c, n) && Clean(c, st.mem, n);
    assert s[i..i + 1] == [b];
    SpliceLaid(c, s, st.mem, st.owned, i, 1, [n], st.mem, Lo(c, b), Hi(c, b));
    SpliceNoBorder(c, s, i, 1, [n]);
    RelabelFreed(s, i, n);
    UsedSwap(c, s, i, n);
    LivesSwap(Used(s), b, n);
  }

  lemma RelabelFreed(s: seq<Block>, i: nat, n: Block)
    requires i < |s| && s[i].Live? && n.Live?
    ensures FreedStarts(Splice(s, i, 1, [n])) == FreedStarts(s)
  {
    FreedSplice(s, i, 1, [n]);
    assert s[i..i + 1] == [s[i]];
    assert FreedStarts([s[i]]) == {} == FreedStarts([n]);
  }

  lemma {:induction false} DrainEffect(c: Config, st: State, v: nat)
    requires Sound(c, st)
    ensures var now := Drain(c, st, v);
            && Lives(now.list) == Lives(st.list) && AllUntouched(st.mem, now.mem, Lives(st.list))
            && Used(now.list) <= Used(st.list)
    decreases |st.queue|
  {
    if |st.queue| > v {
      RecycleSound(c, st);
      RecycleEffect(c, st);
      DrainEffect(c, Recycle(c, st), v);
      UntouchedTrans(st.mem, Recycle(c, st).mem, Drain(c, st, v).mem, Lives(st.list));
    } else {
      assert forall b :: b in Lives(st.list) ==> Untouched(st.mem, st.mem, b);
    }
  }
}
