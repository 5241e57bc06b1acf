// The stack of blocks made by alloca, strdupa and strndupa (src/info.h,
// src/info.c), against the set of live blocks.
module AllocaStack {
  import opened Memory
  import opened Blocks
  import opened Heap
  import opened Effects

  predicate IsAlloca(k: AllocType) {
    k.Alloca? || k.StrDupA? || k.StrNDupA?
  }

  // FLG_FREED marks exactly the freed blocks, and FLG_MARKED is never set on
  // a block of the alloca family.
  predicate TagOk(b: Block) {
    match b
    case Free(_, _) => false
    case Live(_, _, info) => !info.freed && !(IsAlloca(info.kind) && info.marked)
    case Freed(_, _, info) => info.freed
  }

  ghost predicate Tagged(u: set<Block>) {
    forall b :: b in u ==> TagOk(b)
  }

  predicate OnStack(b: Block) {
    b.Live? && IsAlloca(b.info.kind)
  }

  ghost function StackStarts(lives: set<Block>): set<nat> {
    set b | b in lives && OnStack(b) :: b.start
  }

  // One entry for each live block of the alloca family, and no others.
  ghost predicate StackOk(q: seq<nat>, lives: set<Block>) {
    Distinct(q) && (set p | p in q) == StackStarts(lives)
  }

  // A live block is determined by its address.
  ghost predicate Apart(lives: set<Block>) {
    forall b, d :: b in lives && d in lives && b.start == d.start ==> b == d
  }

  lemma LivesApart(c: Config, s: seq<Block>)
    requires c.page > 0 && Chain(c, s)
    ensures Apart(Lives(s))
  {
    forall b, d | b in Lives(s) && d in Lives(s) && b.start == d.start
      ensures b == d
    {
      InLives(s, b);
      InLives(s, d);
      var i := LiveIndex(c, s, b);
      var j := LiveIndex(c, s, d);
    }
  }

  lemma PushStack(q: seq<nat>, lives: set<Block>, n: Block)
    requires StackOk(q, lives) && OnStack(n) && n !in lives && Apart(lives + {n})
    ensures StackOk([n.start] + q, lives + {n})
  {
    StartsGrow(lives, n);
    forall b | b in lives
      ensures b.start != n.start
    {
      assert b in lives + {n} && n in lives + {n};
    }
    assert (set p | p in [n.start] + q) == {n.start} + set p | p in q;
  }

  lemma StartsGrow(lives: set<Block>, n: Block)
    ensures StackStarts(lives + {n}) == StackStarts(lives) + (if OnStack(n) then {n.start} else {})
  {
    forall p
      ensures p in StackStarts(lives + {n}) <==> p in StackStarts(lives) || (OnStack(n) && p == n.start)
    {
      if OnStack(n) {
        assert n in lives + {n};
      }
      if p in StackStarts(lives) {
        var b :| b in lives && OnStack(b) && b.start == p;
        assert b in lives + {n};
      }
    }
  }

  lemma StartsShrink(lives: set<Block>, b: Block)
    requires b in lives && Apart(lives)
    ensures StackStarts(lives - {b}) == StackStarts(lives) - (if OnStack(b) then {b.start} else {})
  {
    StartsGrow(lives - {b}, b);
    assert lives - {b} + {b} == lives;
    forall d | d in lives - {b}
      ensures d.start != b.start
    {
      assert d in lives;
    }
  }

  lemma PopStack(q: seq<nat>, lives: set<Block>, b: Block, k: nat)
    requires StackOk(q, lives) && OnStack(b) && b in lives && Apart(lives)
    requires k < |q| && q[k] == b.start
    ensures StackOk(q[..k] + q[k + 1..], lives - {b})
  {
    StartsShrink(lives, b);
    var r := q[..k] + q[k + 1..];
    assert forall i :: 0 <= i < |r| ==> r[i] == q[if i < k then i else i + 1];
    forall p
      ensures p in r <==> p in q && p != b.start
    {
      if p in q && p != b.start {
        var i :| 0 <= i < |q| && q[i] == p;
        assert r[if i < k then i else i - 1] == p;
      }
    }
  }

  // Only blocks of the alloca family matter.
  lemma KeepStack(q: seq<nat>, lives: set<Block>, b: Block, n: Block)
    requires StackOk(q, lives) && b in lives && Apart(lives) && !OnStack(b) && !OnStack(n)
    ensures StackOk(q, lives - {b}) && StackOk(q, lives - {b} + {n})
  {
    StartsShrink(lives, b);
    StartsGrow(lives - {b}, n);
  }

  lemma KeepStackAdd(q: seq<nat>, lives: set<Block>, n: Block)
    requires StackOk(q, lives) && !OnStack(n)
    ensures StackOk(q, lives + {n})
  {
    StartsGrow(lives, n);
  }
}
