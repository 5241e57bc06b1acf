// Whole runs of the allocator: every sequence of its steps and of user writes
// keeps the heap sound, and leaves a block that no step names alone.
module Runs {
  import opened Memory
  import opened Blocks
  import opened Heap
  import opened Resizing

  datatype Step =
    | Growing(p: nat, size: nat)
    | Carving(i: nat, l: nat, a: nat, info: Info)
    | Reshaping(i: nat, l: nat)
    | Freeing(i: nat, keep: Option<Info>)
    | Recycling
    | Writing(i: nat, x: nat, v: byte)
    | Limiting(limit: nat)

  // When the library or the user may take a step.
  ghost predicate Enabled(c: Config, st: State, s: Step) {
    c.Valid() && |st.mem| < SIZE_MAX1 &&
    match s
    case Growing(p, size) => FreshRange(c, st, p, size)
    case Carving(i, l, a, _) => i < |st.list| && Request(c, st.list[i], l, a)
    case Reshaping(i, l) => i < |st.list| && st.list[i].Live? && 0 < l && CanResize(c, st.list, i, l)
    case Freeing(i, _) => i < |st.list| && st.list[i].Live?
    case Recycling => |st.queue| > 0
    case Writing(i, x, _) =>
      i < |st.list| && st.list[i].Live? && st.list[i].start <= x < st.list[i].start + st.list[i].size && x < |st.mem|
    case Limiting(_) => true
  }

  // A block that is carved has room for the request, which the library makes
  // sure of in its own blocks but not in fresh ones.
  ghost predicate Roomy(c: Config, st: State, s: Step)
    requires Enabled(c, st, s)
  {
    s.Carving? ==> CanHold(c, st.list[s.i], s.l, s.a)
  }

  ghost function Next(c: Config, st: State, s: Step): State
    requires Enabled(c, st, s)
  {
    match s
    case Growing(p, size) => Grow(c, st, p, size)
    case Carving(i, l, a, info) => Carve(c, st, i, l, a, info)
    case Reshaping(i, l) => Resize(c, st, i, l)
    case Freeing(i, keep) => FreeBlock(c, st, st.list[i].start, keep)
    case Recycling => Recycle(c, st)
    case Writing(i, x, v) => st.(mem := st.mem[x := v])
    case Limiting(limit) => Drain(c, st, limit).(fmax := limit)
  }

  // The states after each step of a run from st.
  ghost predicate Run(c: Config, st: State, steps: seq<Step>, states: seq<State>) {
    && |states| == |steps| + 1 && states[0] == st
    && forall k :: 0 <= k < |steps| ==> Enabled(c, states[k], steps[k]) && states[k + 1] == Next(c, states[k], steps[k])
  }

  lemma WriteSound(c: Config, st: State, i: nat, x: nat, v: byte)
    requires Sound(c, st) && Enabled(c, st, Writing(i, x, v))
    ensures Sound(c, Next(c, st, Writing(i, x, v)))
  {
    var s, now := st.list, st.mem[x := v];
    forall j | 0 <= j < |s|
      ensures Clean(c, now, s[j])
    {
      LoBelowHi(c, s[i]);
      LoBelowHi(c, s[j]);
      if j < i {
        assert Hi(c, s[j]) <= Lo(c, s[i]);
      } else if i < j {
        assert Hi(c, s[i]) <= Lo(c, s[j]);
      }
      assert Clean(c, st.mem, s[j]);
    }
  }

  // The only step that breaks the heap is to carve a block without room.
  lemma StepSound(c: Config, st: State, s: Step)
    requires Sound(c, st) && Enabled(c, st, s)
    ensures Sound(c, Next(c, st, s)) <==> Roomy(c, st, s)
  {
    match s
    case Growing(p, size) => GrowSound(c, st, p, size);
    case Carving(i, l, a, info) => CarveSoundIff(c, st, i, l, a, info);
    case Reshaping(i, l) => ResizeSound(c, st, i, l);
    case Freeing(i, keep) => FreeBlockSound(c, st, st.list[i], keep);
    case Recycling => RecycleSound(c, st);
    case Writing(i, x, v) => WriteSound(c, st, i, x, v);
    case Limiting(limit) => DrainSound(c, st, limit);
  }

  // The first k steps of a run are roomy.
  ghost predicate AllRoomy(c: Config, steps: seq<Step>, states: seq<State>, k: nat)
    requires k <= |steps| <= |states| && forall j :: 0 <= j < |steps| ==> Enabled(c, states[j], steps[j])
  {
    forall j :: 0 <= j < k ==> Roomy(c, states[j], steps[j])
  }

  // No run of roomy steps ever breaks the tiling, lets two free blocks border,
  // loses track of a freed block or spoils a fill byte that __mp_checkinfo
  // looks at.
  lemma {:induction false} RunSound(c: Config, st: State, steps: seq<Step>, states: seq<State>, k: nat)
    requires Sound(c, st) && Run(c, st, steps, states) && k <= |steps| && AllRoomy(c, steps, states, k)
    ensures Sound(c, states[k])
  {
    if k > 0 {
      RunSound(c, st, steps, states, k - 1);
      StepSound(c, states[k - 1], steps[k - 1]);
    }
  }

  // And every other run breaks the heap.
  lemma RunSoundIff(c: Config, st: State, steps: seq<Step>, states: seq<State>, k: nat)
    requires Sound(c, st) && Run(c, st, steps, states) && k <= |steps|
    ensures (forall j :: 0 <= j <= k ==> Sound(c, states[j])) <==> AllRoomy(c, steps, states, k)
  {
    if AllRoomy(c, steps, states, k) {
      forall j | 0 <= j <= k
        ensures Sound(c, states[j])
      {
        RunSound(c, st, steps, states, j);
      }
    } else {
      var j :| 0 <= j < k && !Roomy(c, states[j], steps[j]);
      if Sound(c, states[j]) {
        StepSound(c, states[j], steps[j]);
        assert !Sound(c, states[j + 1]);
      }
    }
  }

  // The empty heap, where every run starts.
  lemma StartSound(c: Config, mem: seq<byte>, fmax: nat)
    requires c.Valid()
    ensures Sound(c, State([], [], fmax, mem, {}))
  {
  }

  // The step acts on the live block at address p.
  predicate Names(st: State, s: Step, p: nat) {
    match s
    case Reshaping(i, _) => i < |st.list| && st.list[i].start == p
    case Freeing(i, _) => i < |st.list| && st.list[i].start == p
    case Writing(i, _, _) => i < |st.list| && st.list[i].start == p
    case _ => false
  }

  // Live block b is where it was, with the contents it had.
  ghost predicate Kept(st: State, now: State, b: Block) {
    && b in now.list && |now.mem| == |st.mem|
    && forall x :: b.start <= x < b.start + b.size && x < |st.mem| ==> now.mem[x] == st.mem[x]
  }

  // Bytes outside the extents of the blocks that a splice replaces.
  lemma OutsideOthers(c: Config, s: seq<Block>, i: nat, j: nat)
    requires c.page > 0 && Chain(c, s) && i < |s| && j < |s| && i != j && !s[j].Free?
    ensures s[j].start + s[j].size <= Lo(c, s[i]) || Hi(c, s[i]) <= s[j].start
  {
    LoBelowHi(c, s[i]);
    LoBelowHi(c, s[j]);
    if j < i {
      assert Hi(c, s[j]) <= Lo(c, s[i]);
    } else {
      assert Hi(c, s[i]) <= Lo(c, s[j]);
    }
  }

  lemma GrowKeeps(c: Config, st: State, p: nat, size: nat, b: Block)
    requires Sound(c, st) && FreshRange(c, st, p, size) && b in st.list && b.Live?
    ensures Kept(st, Grow(c, st, p, size), b)
  {
    var j := LiveIndex(c, st.list, b);
    var i := Position(st.list, p);
    SpliceKeeps(st.list, i, 0, [Free(p, size)], j);
    CoalescedKeeps(c, Splice(st.list, i, 0, [Free(p, size)]), i, b);
    FreshGap(c, st, p, size, j);
    LoBelowHi(c, b);
  }

  lemma CarveKeeps(c: Config, st: State, i: nat, l: nat, a: nat, info: Info, b: Block)
    requires Sound(c, st) && b in st.list && b.Live?
    requires i < |st.list| && Request(c, st.list[i], l, a) && CanHold(c, st.list[i], l, a)
    ensures Kept(st, Carve(c, st, i, l, a, info), b)
  {
    var j := LiveIndex(c, st.list, b);
    SpliceKeeps(st.list, i, 1, Carved(c, st.list[i], l, a, info), j);
    CarvedClean(c, st.mem, st.list[i], l, a, info);
    OutsideOthers(c, st.list, i, j);
  }

  lemma ResizeKeeps(c: Config, st: State, i: nat, l: nat, b: Block)
    requires Sound(c, st) && b in st.list && b.Live? && i < |st.list| && b != st.list[i]
    requires st.list[i].Live? && 0 < l && CanResize(c, st.list, i, l)
    ensures Kept(st, Resize(c, st, i, l), b)
  {
    var s := st.list;
    var j := LiveIndex(c, s, b);
    SpliceKeeps(s, i, RunLength(c, s, i), Resized(c, s, i, l), j);
    ResizedClean(c, s, st.mem, i, l);
    OutsideOthers(c, s, i, j);
    if HasRoom(c, s, i) {
      OutsideOthers(c, s, i + 1, j);
    }
  }

  lemma ReleaseKept(c: Config, st: State, i: nat, b: Block)
    requires Sound(c, st) && b in st.list && b.Live? && i < |st.list| && b != st.list[i] && !st.list[i].Free?
    ensures Kept(st, Release(c, st, i), b)
  {
    var j := LiveIndex(c, st.list, b);
    ReleaseKeeps(c, st, i, b);
    OutsideOthers(c, st.list, i, j);
  }

  lemma RecycleKept(c: Config, st: State, b: Block)
    requires Sound(c, st) && b in st.list && b.Live? && |st.queue| > 0
    ensures Kept(st, Recycle(c, st), b)
  {
    QueueHead(c, st);
    var i := Position(st.list, st.queue[0]);
    ReleaseKept(c, st, i, b);
    assert Release(c, st.(queue := st.queue[1..]), i) == Release(c, st, i).(queue := st.queue[1..]);
  }

  lemma RetireKept(c: Config, st: State, i: nat, info: Info, b: Block)
    requires Sound(c, st) && b in st.list && b.Live? && i < |st.list| && b != st.list[i] && st.list[i].Live?
    ensures Kept(st, Retire(c, st, i, info), b)
  {
    var n := st.list[i];
    var j := LiveIndex(c, st.list, b);
    SpliceKeeps(st.list, i, 1, [Freed(n.start, n.size, info)], j);
    OutsideOthers(c, st.list, i, j);
    LoBelowHi(c, n);
  }

  lemma FreeKept(c: Config, st: State, i: nat, keep: Option<Info>, b: Block)
    requires Sound(c, st) && b in st.list && b.Live? && i < |st.list| && st.list[i].Live? && b != st.list[i]
    ensures Kept(st, FreeBlock(c, st, st.list[i].start, keep), b)
  {
    var n := st.list[i];
    var base := if keep.Some? && Full(st) then Recycle(c, st) else st;
    if keep.Some? && Full(st) {
      RecycleSound(c, st);
      RecycleKept(c, st, b);
      RecycleKeeps(c, st, n);
    }
    var j := LiveIndex(c, base.list, n);
    if keep.None? {
      ReleaseKept(c, base, j, b);
    } else {
      RetireKept(c, base, j, keep.value, b);
    }
  }

  lemma {:induction false} DrainKept(c: Config, st: State, v: nat, b: Block)
    requires Sound(c, st) && b in st.list && b.Live?
    ensures Kept(st, Drain(c, st, v), b)
    decreases |st.queue|
  {
    if |st.queue| > v {
      RecycleSound(c, st);
      RecycleKept(c, st, b);
      DrainKept(c, Recycle(c, st), v, b);
    }
  }

  // A step that does not name a live block leaves its address, its size and
  // its contents alone.
  lemma StepKeeps(c: Config, st: State, s: Step, b: Block)
    requires Sound(c, st) && Enabled(c, st, s) && Roomy(c, st, s)
    requires b in st.list && b.Live? && !Names(st, s, b.start)
    ensures Kept(st, Next(c, st, s), b)
  {
    match s
    case Growing(p, size) => GrowKeeps(c, st, p, size, b);
    case Carving(i, l, a, info) => CarveKeeps(c, st, i, l, a, info, b);
    case Reshaping(i, l) => ResizeKeeps(c, st, i, l, b);
    case Freeing(i, keep) => FreeKept(c, st, i, keep, b);
    case Recycling => RecycleKept(c, st, b);
    case Writing(i, x, v) =>
      var j := LiveIndex(c, st.list, b);
      OutsideOthers(c, st.list, i, j);
      LoBelowHi(c, st.list[i]);
    case Limiting(limit) => DrainKept(c, st, limit, b);
  }

  // Over a whole run: no other operation ever moves, frees or overwrites a
  // live block.
  lemma {:induction false} RunKeeps(c: Config, st: State, steps: seq<Step>, states: seq<State>, b: Block, k: nat)
    requires Sound(c, st) && Run(c, st, steps, states) && b in st.list && b.Live?
    requires k <= |steps| && AllRoomy(c, steps, states, k)
    requires forall j :: 0 <= j < k ==> !Names(states[j], steps[j], b.start)
    ensures Kept(st, states[k], b)
  {
    if k > 0 {
      RunKeeps(c, st, steps, states, b, k - 1);
      RunSound(c, st, steps, states, k - 1);
      StepKeeps(c, states[k - 1], steps[k - 1], b);
    }
  }

  // Two used blocks never share an address, buffers included.
  lemma NeverOverlap(c: Config, st: State, i: nat, j: nat, x: int)
    requires Sound(c, st) && i < j < |st.list|
    ensures !(Lo(c, st.list[i]) <= x < Hi(c, st.list[i]) && Lo(c, st.list[j]) <= x < Hi(c, st.list[j]))
  {
    assert Hi(c, st.list[i]) <= Lo(c, st.list[j]);
  }

  // The addresses of the blocks that the first k steps freed and kept, in the
  // order in which they were freed.
  ghost function KeptBy(steps: seq<Step>, states: seq<State>, k: nat): seq<nat>
    requires k <= |steps| <= |states|
  {
    if k == 0 then []
    else KeptBy(steps, states, k - 1) + KeptByStep(steps[k - 1], states[k - 1])
  }

  function KeptByStep(s: Step, st: State): (r: seq<nat>)
    ensures |r| <= 1
  {
    match s
    case Freeing(i, Some(_)) => if i < |st.list| then [st.list[i].start] else []
    case _ => []
  }

  lemma StepQueue(c: Config, st: State, s: Step)
    requires Sound(c, st) && Enabled(c, st, s) && !s.Limiting? && !s.Recycling?
    ensures Next(c, st, s).fmax == st.fmax
    ensures var kept := KeptByStep(s, st);
      Next(c, st, s).queue == if kept == [] then st.queue else Push(st.queue, st.fmax, kept[0])
  {
    match s
    case Freeing(i, keep) =>
      if keep.Some? {
        FreeBlockQueue(c, st, st.list[i], keep.value);
      }
    case _ =>
  }

  lemma NewestPush(q: seq<nat>, fmax: nat, p: nat)
    requires fmax > 0
    ensures Push(Newest(q, fmax), fmax, p) == Newest(q + [p], fmax)
  {
    if |q| >= fmax {
      assert Newest(q, fmax)[1..] + [p] == (q + [p])[|q| + 1 - fmax..];
    }
  }

  // As long as the limit stays, the queue holds exactly the most recently freed
  // blocks of those that were kept, in the order in which they were freed,
  // whatever other steps are taken.
  lemma {:induction false} QueueOfRun(c: Config, st: State, steps: seq<Step>, states: seq<State>, k: nat)
    requires Sound(c, st) && Run(c, st, steps, states) && 0 < st.fmax && |st.queue| <= st.fmax
    requires k <= |steps| && AllRoomy(c, steps, states, k)
    requires forall j :: 0 <= j < k ==> !steps[j].Limiting? && !steps[j].Recycling?
    ensures states[k].fmax == st.fmax
    ensures states[k].queue == Newest(st.queue + KeptBy(steps, states, k), st.fmax)
  {
    if k == 0 {
      assert st.queue + [] == st.queue;
    } else {
      QueueOfRun(c, st, steps, states, k - 1);
      RunSound(c, st, steps, states, k - 1);
      StepQueue(c, states[k - 1], steps[k - 1]);
      QueueNext(st.queue, KeptBy(steps, states, k - 1), KeptByStep(steps[k - 1], states[k - 1]), st.fmax);
    }
  }

  lemma QueueNext(q: seq<nat>, was: seq<nat>, kept: seq<nat>, fmax: nat)
    requires fmax > 0 && |kept| <= 1
    ensures Newest(q + (was + kept), fmax)
            == if kept == [] then Newest(q + was, fmax) else Push(Newest(q + was, fmax), fmax, kept[0])
  {
    if kept == [] {
      assert was + kept == was;
    } else {
      assert kept == [kept[0]] && q + (was + kept) == (q + was) + [kept[0]];
      NewestPush(q + was, fmax, kept[0]);
    }
  }
}
