// How src/mptrace.c turns a trace into a simulation program that keeps every
// live allocation in a slot of one small array.
module TraceSim {
  import opened Memory
  import opened Rounding
  import opened Slots

  const SLOTS := 4096

  datatype Allocation = Allocation(event: nat, entry: nat, addr: nat, size: nat, time: nat)

  // The events of a trace that concern allocations, after decoding.
  datatype Event = Alloc(n: nat, addr: nat, size: nat) | Realloc(n: nat, addr: nat, size: nat) | Free(n: nat)

  // A line of the table in the simulation program.
  datatype Line = Line(index: nat, size: nat, resize: bool)

  // Slot m of the table at base; the first slot to be handed out is the last
  // in memory and has number 1.
  function Address(base: nat, m: nat): nat
    requires m <= SLOTS
  {
    base + (SLOTS - m) * 8
  }

  // src/mptrace.c:339-341
  function SlotNumber(base: nat, e: nat): nat {
    if base <= e <= base + SLOTS * 8 then (SLOTS * 8 - (e - base)) / 8 else 0
  }

  lemma NumberOfAddress(base: nat, m: nat)
    requires m <= SLOTS
    ensures SlotNumber(base, Address(base, m)) == m
  {
  }

  // The slots that have never been used.
  function Fresh(top: nat): (r: seq<nat>)
    requires top <= SLOTS
    ensures |r| == SLOTS - top && forall i :: 0 <= i < |r| ==> r[i] == top + 1 + i
  {
    seq(SLOTS - top, i => top + 1 + i)
  }

  function Addresses(base: nat, ms: seq<nat>): (r: seq<nat>)
    requires forall i :: 0 <= i < |ms| ==> ms[i] <= SLOTS
    ensures |r| == |ms| && forall i :: 0 <= i < |ms| ==> r[i] == Address(base, ms[i])
  {
    seq(|ms|, i requires 0 <= i < |ms| => Address(base, ms[i]))
  }

  // ---- The simulation program ----

  // Whether realloc to a size of 0 keeps a block or gives back NULL, upon which
  // the program gives up, is up to the library it is linked with.
  datatype Library = Keeps | Drops

  // The sizes of the blocks in each slot after running the lines, or None if
  // a line takes a slot that is in use or touches one that is not, or the
  // program gives up.
  function Replay(lines: seq<Line>, lib: Library): Option<map<nat, nat>> {
    if lines == [] then Some(map[])
    else
      var r := Replay(lines[..|lines| - 1], lib);
      if r.None? then None else ReplayLine(r.value, lines[|lines| - 1], lib)
  }

  function ReplayLine(m: map<nat, nat>, e: Line, lib: Library): Option<map<nat, nat>> {
    if e.resize then if e.index in m && (lib.Keeps? || e.size > 0) then Some(m[e.index := e.size]) else None
    else if e.size == 0 then if e.index in m then Some(m - {e.index}) else None
    else if e.index in m then None
    else Some(m[e.index := e.size])
  }

  lemma ReplayMore(lines: seq<Line>, e: Line, lib: Library)
    ensures Replay(lines + [e], lib)
            == if Replay(lines, lib).None? then None else ReplayLine(Replay(lines, lib).value, e, lib)
  {
    assert (lines + [e])[..|lines|] == lines;
  }

  // The state of the slots: owner says which allocation is in a slot, and
  // recycled lists the slots that have been used and freed, as they are in the
  // chain.
  ghost predicate SlotsOk(owner: map<nat, nat>, recycled: seq<nat>, top: nat) {
    && top <= SLOTS && |owner| + |recycled| == top
    && Distinct(recycled)
    && (forall i :: 0 <= i < |recycled| ==> 1 <= recycled[i] <= top && recycled[i] !in owner)
    && (forall m :: m in owner ==> 1 <= m <= top)
  }

  // Every live allocation has a slot of its own.
  ghost predicate OwnersOk(base: nat, allocs: map<nat, Allocation>, owner: map<nat, nat>) {
    && (forall m :: m in owner ==>
          && m <= SLOTS && owner[m] in allocs
          && allocs[owner[m]].time == 0 && allocs[owner[m]].entry == Address(base, m))
    && (forall n :: n in allocs && allocs[n].time == 0 ==>
          SlotNumber(base, allocs[n].entry) in owner && owner[SlotNumber(base, allocs[n].entry)] == n)
    && (forall n :: n in allocs && allocs[n].time != 0 ==> allocs[n].entry == 0)
  }

  ghost predicate SizesAre(sizes: map<nat, nat>, allocs: map<nat, Allocation>, owner: map<nat, nat>) {
    && sizes.Keys == owner.Keys
    && forall m :: m in owner ==> owner[m] in allocs && sizes[m] == allocs[owner[m]].size
  }

  lemma OneMore(owner: map<nat, nat>, m: nat, n: nat)
    requires m !in owner
    ensures |owner[m := n]| == |owner| + 1
  {
    assert owner[m := n].Keys == owner.Keys + {m};
  }

  // The first slot of the chain is one that was given back, if there is one.
  lemma TakeRecycled(owner: map<nat, nat>, recycled: seq<nat>, top: nat, n: nat)
    requires SlotsOk(owner, recycled, top) && recycled != []
    ensures var m := recycled[0];
      && 1 <= m <= top && m !in owner && SlotsOk(owner[m := n], recycled[1..], top)
      && (recycled + Fresh(top))[0] == m && (recycled + Fresh(top))[1..] == recycled[1..] + Fresh(top)
  {
    OneMore(owner, recycled[0], n);
  }

  // Otherwise all slots that have ever been used are in use.
  lemma TakeFresh(owner: map<nat, nat>, top: nat, n: nat)
    requires SlotsOk(owner, [], top) && |owner| < SLOTS
    ensures |owner| == top < SLOTS && top + 1 !in owner && SlotsOk(owner[top + 1 := n], [], top + 1)
    ensures ([] + Fresh(top))[0] == top + 1 && ([] + Fresh(top))[1..] == [] + Fresh(top + 1)
  {
    OneMore(owner, top + 1, n);
  }

  lemma GiveSlot(owner: map<nat, nat>, recycled: seq<nat>, top: nat, m: nat)
    requires SlotsOk(owner, recycled, top) && m in owner
    ensures SlotsOk(owner - {m}, [m] + recycled, top)
  {
    assert (owner - {m})[m := owner[m]] == owner;
    assert owner.Keys == (owner - {m}).Keys + {m};
    assert |owner - {m}| == |owner| - 1;
  }

  lemma OwnersTake(base: nat, allocs: map<nat, Allocation>, owner: map<nat, nat>, n: nat, m: nat, f: Allocation)
    requires OwnersOk(base, allocs, owner) && 1 <= m <= SLOTS && m !in owner
    requires n in allocs ==> allocs[n].time != 0
    requires f.time == 0 && f.entry == Address(base, m)
    ensures OwnersOk(base, allocs[n := f], owner[m := n])
  {
    NumberOfAddress(base, m);
  }

  lemma OwnersGive(base: nat, allocs: map<nat, Allocation>, owner: map<nat, nat>, n: nat, m: nat, f: Allocation)
    requires OwnersOk(base, allocs, owner) && n in allocs && allocs[n].time == 0
    requires m == SlotNumber(base, allocs[n].entry) && f.time != 0 && f.entry == 0
    ensures m in owner && allocs[n].entry == Address(base, m)
    ensures OwnersOk(base, allocs[n := f], owner - {m})
  {
    forall k | k in owner - {m}
      ensures owner[k] != n
    {
      NumberOfAddress(base, k);
    }
  }

  lemma OwnersKeep(base: nat, allocs: map<nat, Allocation>, owner: map<nat, nat>, n: nat, f: Allocation)
    requires OwnersOk(base, allocs, owner) && n in allocs && allocs[n].time == 0
    requires f.time == 0 && f.entry == allocs[n].entry
    ensures OwnersOk(base, allocs[n := f], owner)
  {
  }

  // No two slots have the same owner.
  lemma OneSlotEach(base: nat, allocs: map<nat, Allocation>, owner: map<nat, nat>, m: nat, k: nat)
    requires OwnersOk(base, allocs, owner) && m in owner && k in owner && owner[m] == owner[k]
    ensures m == k
  {
    NumberOfAddress(base, m);
    NumberOfAddress(base, k);
  }

  // The program holds the live sizes as long as it runs.
  ghost predicate Replays(lines: seq<Line>, allocs: map<nat, Allocation>, owner: map<nat, nat>, lib: Library,
                          runs: bool)
  {
    if runs then Replay(lines, lib).Some? && SizesAre(Replay(lines, lib).value, allocs, owner)
    else Replay(lines, lib).None?
  }

  // What one more line does to the replayed sizes.
  lemma ReplayTake(lines: seq<Line>, allocs: map<nat, Allocation>, owner: map<nat, nat>, n: nat, m: nat, f: Allocation,
                   lib: Library, runs: bool)
    requires Replays(lines, allocs, owner, lib, runs)
    requires m !in owner && forall k :: k in owner ==> owner[k] != n
    ensures Replays(lines + [Line(m, f.size, false)], allocs[n := f], owner[m := n], lib, runs && f.size > 0)
  {
    ReplayMore(lines, Line(m, f.size, false), lib);
  }

  lemma ReplayGive(lines: seq<Line>, allocs: map<nat, Allocation>, owner: map<nat, nat>, n: nat, m: nat, f: Allocation,
                   lib: Library, runs: bool)
    requires Replays(lines, allocs, owner, lib, runs)
    requires m in owner && forall k :: k in owner && k != m ==> owner[k] != n
    ensures Replays(lines + [Line(m, 0, false)], allocs[n := f], owner - {m}, lib, runs)
  {
    ReplayMore(lines, Line(m, 0, false), lib);
  }

  lemma ReplayKeep(lines: seq<Line>, allocs: map<nat, Allocation>, owner: map<nat, nat>, n: nat, m: nat, f: Allocation,
                   lib: Library, runs: bool)
    requires Replays(lines, allocs, owner, lib, runs)
    requires m in owner && owner[m] == n && forall k :: k in owner && k != m ==> owner[k] != n
    ensures Replays(lines + [Line(m, f.size, true)], allocs[n := f], owner, lib, runs && (lib.Keeps? || f.size > 0))
  {
    ReplayMore(lines, Line(m, f.size, true), lib);
  }

  // The counters of a trace that concern allocations: blocks and bytes
  // allocated, freed, and in use at the peak, and the smallest and the largest
  // size.
  datatype Statistics = Statistics(acount: nat, atotal: nat, fcount: nat, ftotal: nat, pcount: nat, ptotal: nat,
                                   lsize: nat, usize: nat)

  function Peak(p: nat, now: int): nat {
    if p < now then now else p
  }

  // src/mptrace.c:879-888 and 929-940
  function Counted(s: Statistics, l: nat, freed: Option<nat>): Statistics {
    var a, t := s.acount + 1, s.atotal + l;
    var f := if freed.Some? then s.fcount + 1 else s.fcount;
    var u := if freed.Some? then s.ftotal + freed.value else s.ftotal;
    Statistics(a, t, f, u, Peak(s.pcount, a - f), Peak(s.ptotal, t - u),
               if s.lsize == 0 || s.lsize > l then l else s.lsize, Peak(s.usize, l))
  }

  // What is known of the slots, and whether the lines can be run so far: a size
  // of 0 stands for a free.
  datatype Book = Book(owner: map<nat, nat>, recycled: seq<nat>, top: nat, lib: Library, runs: bool)

  function TakeFrom(b: Book, n: nat, m: nat, l: nat): Book {
    Book(b.owner[m := n], if b.recycled == [] then [] else b.recycled[1..], if m > b.top then m else b.top,
         b.lib, b.runs && l > 0)
  }

  function GiveTo(b: Book, m: nat): Book {
    b.(owner := b.owner - {m}, recycled := [m] + b.recycled)
  }

  // Everything that the claims are about.
  datatype View = View(allocs: map<nat, Allocation>, current: nat, stats: Statistics, maxslots: nat, lines: seq<Line>,
                       book: Book, chain: seq<nat>)
  {
    function Live(): int {
      stats.acount - stats.fcount
    }
  }

  predicate IsLive(allocs: map<nat, Allocation>, n: nat) {
    n in allocs && allocs[n].time == 0
  }

  // The slots in use are the live allocations', the slots ever used are as
  // many as were live at the peak, and replaying the lines gives the live
  // sizes.
  ghost predicate Ok(base: nat, v: View) {
    && SlotsOk(v.book.owner, v.book.recycled, v.book.top) && OwnersOk(base, v.allocs, v.book.owner)
    && v.chain == Addresses(base, v.book.recycled + Fresh(v.book.top))
    && v.Live() == |v.book.owner| && v.stats.pcount == v.book.top
    && v.maxslots == (if v.book.top == 0 then 1 else v.book.top)
    && (forall n :: n in v.allocs ==> v.allocs[n].event <= v.current)
    && Replays(v.lines, v.allocs, v.book.owner, v.book.lib, v.book.runs)
  }

  function AfterAlloc(v: View, n: nat, m: nat, f: Allocation): View
    requires v.chain != []
  {
    View(v.allocs[n := f], v.current + 1, Counted(v.stats, f.size, None), if m > v.maxslots then m else v.maxslots,
         v.lines + [Line(m, f.size, false)], TakeFrom(v.book, n, m, f.size), v.chain[1..])
  }

  // The slot that is handed out next: an unused one, and a fresh one only if
  // all that were ever used are in use.
  ghost predicate NextSlot(base: nat, v: View, n: nat, m: nat) {
    && 1 <= m <= SLOTS && m !in v.book.owner && v.chain != [] && v.chain[0] == Address(base, m)
    && (m > v.book.top ==> m == v.book.top + 1 && |v.book.owner| == v.book.top)
    && var b := TakeFrom(v.book, n, m, 1);
       && b.top <= SLOTS && SlotsOk(b.owner, b.recycled, b.top)
       && v.chain[1..] == Addresses(base, b.recycled + Fresh(b.top))
  }

  lemma FindSlot(base: nat, v: View, n: nat) returns (m: nat)
    requires Ok(base, v) && v.Live() < SLOTS
    ensures NextSlot(base, v, n, m)
  {
    if v.book.recycled != [] {
      TakeRecycled(v.book.owner, v.book.recycled, v.book.top, n);
      m := v.book.recycled[0];
    } else {
      TakeFresh(v.book.owner, v.book.top, n);
      m := v.book.top + 1;
    }
  }

  lemma NotOwner(base: nat, v: View, n: nat)
    requires OwnersOk(base, v.allocs, v.book.owner) && !IsLive(v.allocs, n)
    ensures forall k :: k in v.book.owner ==> v.book.owner[k] != n
  {
  }

  lemma AllocOk(base: nat, v: View, n: nat, m: nat, f: Allocation)
    requires Ok(base, v) && !IsLive(v.allocs, n) && NextSlot(base, v, n, m)
    requires f.time == 0 && f.entry == Address(base, m) && f.event <= v.current + 1
    ensures Ok(base, AfterAlloc(v, n, m, f))
  {
    NotOwner(base, v, n);
    OwnersTake(base, v.allocs, v.book.owner, n, m, f);
    OneMore(v.book.owner, m, n);
    ReplayTake(v.lines, v.allocs, v.book.owner, n, m, f, v.book.lib, v.book.runs);
  }

  function AfterRealloc(v: View, n: nat, g: Allocation, base: nat): View
    requires n in v.allocs
  {
    v.(allocs := v.allocs[n := g], current := v.current + 1, stats := Counted(v.stats, g.size, Some(v.allocs[n].size)),
       lines := v.lines + [Line(SlotNumber(base, g.entry), g.size, true)],
       book := v.book.(runs := v.book.runs && (v.book.lib.Keeps? || g.size > 0)))
  }

  // The slot of a live allocation is its alone.
  lemma OnlyOwner(base: nat, v: View, n: nat)
    requires OwnersOk(base, v.allocs, v.book.owner) && IsLive(v.allocs, n)
    ensures var m := SlotNumber(base, v.allocs[n].entry);
      m in v.book.owner && v.book.owner[m] == n && forall k :: k in v.book.owner && k != m ==> v.book.owner[k] != n
  {
    var m := SlotNumber(base, v.allocs[n].entry);
    forall k | k in v.book.owner && v.book.owner[k] == n
      ensures k == m
    {
      OneSlotEach(base, v.allocs, v.book.owner, m, k);
    }
  }

  lemma ReallocOk(base: nat, v: View, n: nat, g: Allocation)
    requires Ok(base, v) && IsLive(v.allocs, n)
    requires g.time == 0 && g.entry == v.allocs[n].entry && g.event == v.allocs[n].event
    ensures Ok(base, AfterRealloc(v, n, g, base))
  {
    OnlyOwner(base, v, n);
    OwnersKeep(base, v.allocs, v.book.owner, n, g);
    ReplayKeep(v.lines, v.allocs, v.book.owner, n, SlotNumber(base, g.entry), g, v.book.lib, v.book.runs);
  }

  function AfterFree(v: View, n: nat, m: nat): View
    requires n in v.allocs && v.allocs[n].event <= v.current
  {
    var f := v.allocs[n];
    v.(allocs := v.allocs[n := f.(time := v.current + 1 - f.event, entry := 0)], current := v.current + 1,
       stats := v.stats.(fcount := v.stats.fcount + 1, ftotal := v.stats.ftotal + f.size),
       lines := v.lines + [Line(m, 0, false)], book := GiveTo(v.book, m), chain := [f.entry] + v.chain)
  }

  lemma NotInChain(base: nat, owner: map<nat, nat>, recycled: seq<nat>, top: nat, m: nat)
    requires SlotsOk(owner, recycled, top) && m in owner
    ensures Address(base, m) !in Addresses(base, recycled + Fresh(top))
  {
  }

  lemma ChainGiven(base: nat, recycled: seq<nat>, top: nat, m: nat, e: nat)
    requires top <= SLOTS && m <= SLOTS && e == Address(base, m)
    requires forall i :: 0 <= i < |recycled| ==> recycled[i] <= SLOTS
    ensures Addresses(base, [m] + recycled + Fresh(top)) == [e] + Addresses(base, recycled + Fresh(top))
  {
    assert [m] + recycled + Fresh(top) == [m] + (recycled + Fresh(top));
  }

  // A live allocation can give back its slot.
  lemma FreeReady(base: nat, v: View, n: nat)
    requires Ok(base, v) && IsLive(v.allocs, n) && base > 0
    ensures var e := v.allocs[n].entry;
      e != 0 && e !in v.chain && SlotNumber(base, e) <= SLOTS && e == Address(base, SlotNumber(base, e))
    ensures v.allocs[n].event <= v.current && SlotNumber(base, v.allocs[n].entry) in v.book.owner
  {
    OnlyOwner(base, v, n);
    NotInChain(base, v.book.owner, v.book.recycled, v.book.top, SlotNumber(base, v.allocs[n].entry));
  }

  lemma FreeSlotsOk(base: nat, v: View, n: nat)
    requires Ok(base, v) && IsLive(v.allocs, n) && v.allocs[n].event <= v.current
    ensures var w := AfterFree(v, n, SlotNumber(base, v.allocs[n].entry));
      && SlotsOk(w.book.owner, w.book.recycled, w.book.top) && OwnersOk(base, w.allocs, w.book.owner)
      && w.chain == Addresses(base, w.book.recycled + Fresh(w.book.top)) && |w.book.owner| == |v.book.owner| - 1
  {
    var f := v.allocs[n];
    var m := SlotNumber(base, f.entry);
    OwnersGive(base, v.allocs, v.book.owner, n, m, f.(time := v.current + 1 - f.event, entry := 0));
    GiveSlot(v.book.owner, v.book.recycled, v.book.top, m);
    OneLess(v.book.owner, m);
    ChainGiven(base, v.book.recycled, v.book.top, m, f.entry);
  }

  lemma FreeOk(base: nat, v: View, n: nat)
    requires Ok(base, v) && IsLive(v.allocs, n) && v.allocs[n].event <= v.current
    ensures Ok(base, AfterFree(v, n, SlotNumber(base, v.allocs[n].entry)))
  {
    var f := v.allocs[n];
    FreeSlotsOk(base, v, n);
    OnlyOwner(base, v, n);
    ReplayGive(v.lines, v.allocs, v.book.owner, n, SlotNumber(base, f.entry),
               f.(time := v.current + 1 - f.event, entry := 0), v.book.lib, v.book.runs);
  }

  lemma OneLess(owner: map<nat, nat>, m: nat)
    requires m in owner
    ensures |owner - {m}| == |owner| - 1
  {
    assert owner.Keys == (owner - {m}).Keys + {m};
    assert |owner.Keys| == |(owner - {m}).Keys| + 1;
  }

  // ---- Whole traces ----

  // The live allocations after a trace, with their sizes.
  function Sizes(events: seq<Event>): map<nat, nat> {
    if events == [] then map[] else After(Sizes(events[..|events| - 1]), events[|events| - 1])
  }

  function After(live: map<nat, nat>, e: Event): map<nat, nat> {
    match e
    case Alloc(n, _, l) => live[n := l]
    case Realloc(n, _, l) => live[n := l]
    case Free(n) => live - {n}
  }

  // The event makes sense when these allocations are live.
  predicate Fits(e: Event, live: map<nat, nat>) {
    match e
    case Alloc(n, _, _) => n !in live && |live| < SLOTS
    case Realloc(n, _, _) => n in live
    case Free(n) => n in live
  }

  // Only live allocations are reallocated and freed, none is allocated twice,
  // and no more than 4096 are ever live.
  predicate WellFormed(events: seq<Event>) {
    events == [] ||
    (WellFormed(events[..|events| - 1]) && Fits(events[|events| - 1], Sizes(events[..|events| - 1])))
  }

  lemma {:induction false} WellFormedAt(events: seq<Event>, i: nat)
    requires WellFormed(events) && i < |events|
    ensures Fits(events[i], Sizes(events[..i]))
  {
    var rest := events[..|events| - 1];
    if i < |rest| {
      WellFormedAt(rest, i);
      assert rest[..i] == events[..i];
    }
  }

  lemma NextEvent(events: seq<Event>, i: nat)
    requires i < |events|
    ensures events[..i + 1] == events[..i] + [events[i]]
    ensures Sizes(events[..i + 1]) == After(Sizes(events[..i]), events[i])
  {
    var now := events[..i + 1];
    assert now[..i] == events[..i] && now[i] == events[i];
  }

  // The greatest number of allocations that were live at the same time.
  function PeakCount(events: seq<Event>): nat {
    if events == [] then 0 else Peak(PeakCount(events[..|events| - 1]), |Sizes(events)|)
  }

  function SizeOf(e: Event): Option<nat> {
    match e
    case Alloc(_, _, l) => Some(l)
    case Realloc(_, _, l) => Some(l)
    case Free(_) => None
  }

  // The line of the event can be run.
  predicate Runs(e: Event, lib: Library) {
    match e
    case Alloc(_, _, l) => l > 0
    case Realloc(_, _, l) => l > 0 || lib.Keeps?
    case Free(_) => true
  }

  predicate AllRun(events: seq<Event>, lib: Library) {
    forall i :: 0 <= i < |events| ==> Runs(events[i], lib)
  }

  predicate Runnable(events: seq<Event>, lib: Library) {
    events == [] || (Runnable(events[..|events| - 1], lib) && Runs(events[|events| - 1], lib))
  }

  lemma {:induction false} RunnableMeans(events: seq<Event>, lib: Library)
    ensures Runnable(events, lib) <==> AllRun(events, lib)
  {
    if events != [] {
      var past, e := events[..|events| - 1], events[|events| - 1];
      assert past + [e] == events;
      RunnableMeans(past, lib);
      RunAfter(past, e, lib);
    }
  }

  // Blocks and bytes allocated and freed, where a reallocation is both.
  function Allocations(events: seq<Event>): nat {
    if events == [] then 0
    else Allocations(events[..|events| - 1]) + if SizeOf(events[|events| - 1]).Some? then 1 else 0
  }

  function Allocated(events: seq<Event>): nat {
    if events == [] then 0
    else
      var l := SizeOf(events[|events| - 1]);
      Allocated(events[..|events| - 1]) + if l.Some? then l.value else 0
  }

  function Frees(events: seq<Event>): nat {
    if events == [] then 0
    else Frees(events[..|events| - 1]) + if events[|events| - 1].Alloc? then 0 else 1
  }

  function Freed(events: seq<Event>): nat {
    if events == [] then 0
    else
      var past, e := events[..|events| - 1], events[|events| - 1];
      Freed(past) + if !e.Alloc? && e.n in Sizes(past) then Sizes(past)[e.n] else 0
  }

  // The bytes that are live, and the most that ever were.
  function Bytes(events: seq<Event>): int {
    if events == [] then 0
    else
      var past, e := events[..|events| - 1], events[|events| - 1];
      Bytes(past) + (if SizeOf(e).Some? then SizeOf(e).value else 0)
      - (if e.n in Sizes(past) then Sizes(past)[e.n] else 0)
  }

  function PeakBytes(events: seq<Event>): int {
    if events == [] then 0
    else
      var p := PeakBytes(events[..|events| - 1]);
      if p < Bytes(events) then Bytes(events) else p
  }

  // u is the largest size of a trace, or 0 if there is none.
  ghost predicate Largest(u: nat, events: seq<Event>) {
    && (forall i :: 0 <= i < |events| && SizeOf(events[i]).Some? ==> SizeOf(events[i]).value <= u)
    && (u == 0 || exists i :: 0 <= i < |events| && SizeOf(events[i]) == Some(u))
  }

  // l is the smallest size since the last size of 0, which stands for an unset
  // value, or 0 if there has been none since.
  ghost predicate Smallest(l: nat, events: seq<Event>) {
    exists j :: 0 <= j <= |events| && SmallestFrom(l, events, j)
  }

  ghost predicate SmallestFrom(l: nat, events: seq<Event>, j: nat)
    requires j <= |events|
  {
    && (j == 0 || SizeOf(events[j - 1]) == Some(0))
    && (forall i :: j <= i < |events| && SizeOf(events[i]).Some? ==> 0 < l <= SizeOf(events[i]).value)
    && (l == 0 || exists i :: j <= i < |events| && SizeOf(events[i]) == Some(l))
  }

  ghost predicate LiveAre(allocs: map<nat, Allocation>, live: map<nat, nat>) {
    && (forall n :: n in live ==> IsLive(allocs, n) && allocs[n].size == live[n])
    && (forall n :: n in allocs && n !in live ==> !IsLive(allocs, n))
  }

  ghost predicate Agrees(s: Statistics, events: seq<Event>) {
    && s.acount == Allocations(events) && s.atotal == Allocated(events)
    && s.fcount == Frees(events) && s.ftotal == Freed(events)
    && s.acount - s.fcount == |Sizes(events)| && s.pcount == PeakCount(events)
    && s.atotal - s.ftotal == Bytes(events) && s.ptotal == PeakBytes(events)
    && Largest(s.usize, events) && Smallest(s.lsize, events)
  }

  // What an event makes of the statistics.
  function StatsAfter(s: Statistics, e: Event, live: map<nat, nat>): Statistics
    requires Fits(e, live)
  {
    match e
    case Alloc(_, _, l) => Counted(s, l, None)
    case Realloc(n, _, l) => Counted(s, l, Some(live[n]))
    case Free(n) => s.(fcount := s.fcount + 1, ftotal := s.ftotal + live[n])
  }

  lemma EventAgrees(past: seq<Event>, e: Event, s: Statistics)
    requires Agrees(s, past) && Fits(e, Sizes(past))
    ensures Agrees(StatsAfter(s, e, Sizes(past)), past + [e])
  {
    SumsAfter(s, past, e);
    CountAfter(past, e);
    PeaksAfter(s, past, e);
    LargestAfter(s.usize, past, e);
    SmallestAfter(s.lsize, past, e);
  }

  lemma NothingRead(allocs: map<nat, Allocation>, s: Statistics, events: seq<Event>, lib: Library)
    requires |events| == 0 && |allocs| == 0 && s == Statistics(0, 0, 0, 0, 0, 0, 0, 0)
    ensures Agrees(s, events) && LiveAre(allocs, Sizes(events)) && Runnable(events, lib)
  {
    assert SmallestFrom(0, events, 0);
  }

  lemma SumsAfter(s: Statistics, past: seq<Event>, e: Event)
    requires Fits(e, Sizes(past)) && s.acount == Allocations(past) && s.atotal == Allocated(past)
    requires s.fcount == Frees(past) && s.ftotal == Freed(past)
    ensures var t, now := StatsAfter(s, e, Sizes(past)), past + [e];
      && t.acount == Allocations(now) && t.atotal == Allocated(now)
      && t.fcount == Frees(now) && t.ftotal == Freed(now)
  {
    assert (past + [e])[..|past|] == past;
  }

  lemma RunAfter(past: seq<Event>, e: Event, lib: Library)
    ensures AllRun(past + [e], lib) <==> AllRun(past, lib) && Runs(e, lib)
  {
    var now := past + [e];
    assert now[|past|] == e;
    assert forall i :: 0 <= i < |past| ==> now[i] == past[i];
  }

  // The lines can be run exactly if those of all events can, and then the
  // program holds as many blocks as are live.
  ghost predicate Simulates(lines: seq<Line>, events: seq<Event>, lib: Library) {
    if AllRun(events, lib) then Replay(lines, lib).Some? && |Replay(lines, lib).value| == |Sizes(events)|
    else Replay(lines, lib).None?
  }

  // For instance the trace of one allocation of 0 bytes cannot be run: its line
  // stands for a free.
  lemma EmptyExample(events: seq<Event>, lib: Library)
    requires events == [Alloc(1, 8, 0)]
    ensures WellFormed(events) && !AllRun(events, lib) && Replay([Line(1, 0, false)], lib).None?
  {
    assert events[..0] == [] && !Runs(events[0], lib);
    ReplayMore([], Line(1, 0, false), lib);
    assert [] + [Line(1, 0, false)] == [Line(1, 0, false)];
  }

  // The slots that the program holds are as many as the live allocations.
  lemma TraceEnds(base: nat, v: View, events: seq<Event>)
    requires Ok(base, v) && Agrees(v.stats, events) && v.book.runs == Runnable(events, v.book.lib)
    ensures v.maxslots == Peak(1, PeakCount(events))
    ensures Simulates(v.lines, events, v.book.lib)
  {
    RunnableMeans(events, v.book.lib);
    if v.book.runs {
      assert Replay(v.lines, v.book.lib).value.Keys == v.book.owner.Keys;
    }
  }

  lemma PeaksAbove(events: seq<Event>)
    ensures |Sizes(events)| <= PeakCount(events) && Bytes(events) <= PeakBytes(events)
  {
  }

  lemma PeaksAfter(s: Statistics, past: seq<Event>, e: Event)
    requires Fits(e, Sizes(past)) && s.pcount == PeakCount(past) && s.ptotal == PeakBytes(past)
    requires s.acount - s.fcount == |Sizes(past)| && s.atotal - s.ftotal == Bytes(past)
    ensures var t, now := StatsAfter(s, e, Sizes(past)), past + [e];
      t.pcount == PeakCount(now) && t.ptotal == PeakBytes(now) && t.atotal - t.ftotal == Bytes(now)
  {
    assert (past + [e])[..|past|] == past;
    CountAfter(past, e);
    PeaksAbove(past);
  }

  lemma LiveAfter(live: map<nat, nat>, e: Event, was: map<nat, Allocation>, now: map<nat, Allocation>)
    requires LiveAre(was, live) && Fits(e, live) && e.n in now && now == was[e.n := now[e.n]]
    requires if e.Free? then !IsLive(now, e.n) else IsLive(now, e.n) && now[e.n].size == e.size
    ensures LiveAre(now, After(live, e))
  {
  }

  lemma CountAfter(past: seq<Event>, e: Event)
    requires Fits(e, Sizes(past))
    ensures |Sizes(past + [e])| == |Sizes(past)| + (if e.Alloc? then 1 else if e.Free? then -1 else 0)
  {
    assert (past + [e])[..|past|] == past;
    var was := Sizes(past);
    match e
    case Alloc(n, _, l) => OneMore(was, n, l);
    case Realloc(n, _, l) => assert was[n := l].Keys == was.Keys;
    case Free(n) => OneLess(was, n);
  }

  lemma LargestAfter(u: nat, past: seq<Event>, e: Event)
    requires Largest(u, past)
    ensures Largest(if SizeOf(e).Some? then Peak(u, SizeOf(e).value) else u, past + [e])
  {
    var now := past + [e];
    assert now[|past|] == e;
    if u != 0 {
      var i :| 0 <= i < |past| && SizeOf(past[i]) == Some(u);
      assert SizeOf(now[i]) == Some(u);
    }
  }

  lemma SmallestAfter(l: nat, past: seq<Event>, e: Event)
    requires Smallest(l, past)
    ensures Smallest(if SizeOf(e).Some? && (l == 0 || l > SizeOf(e).value) then SizeOf(e).value else l, past + [e])
  {
    var j :| 0 <= j <= |past| && SmallestFrom(l, past, j);
    var now := past + [e];
    assert now[|past|] == e;
    if SizeOf(e) == Some(0) {
      assert SmallestFrom(0, now, |now|);
    } else {
      SmallestMore(l, past, e, j);
    }
  }

  lemma SmallestMore(l: nat, past: seq<Event>, e: Event, j: nat)
    requires j <= |past| && SmallestFrom(l, past, j) && SizeOf(e) != Some(0)
    ensures SmallestFrom(if SizeOf(e).Some? && (l == 0 || l > SizeOf(e).value) then SizeOf(e).value else l,
                         past + [e], j)
  {
    var now := past + [e];
    assert now[|past|] == e && forall i :: 0 <= i < |past| ==> now[i] == past[i];
    if l != 0 {
      var i :| j <= i < |past| && SizeOf(past[i]) == Some(l);
      assert SizeOf(now[i]) == Some(l);
    }
  }

  lemma TraceNext(events: seq<Event>, i: nat, s: Statistics, lib: Library)
    requires WellFormed(events) && i < |events| && Agrees(s, events[..i])
    ensures Fits(events[i], Sizes(events[..i]))
    ensures Sizes(events[..i + 1]) == After(Sizes(events[..i]), events[i])
    ensures Agrees(StatsAfter(s, events[i], Sizes(events[..i])), events[..i + 1])
    ensures Runnable(events[..i + 1], lib) <==> Runnable(events[..i], lib) && Runs(events[i], lib)
  {
    NextEvent(events, i);
    assert events[..i + 1][..i] == events[..i];
    WellFormedAt(events, i);
    EventAgrees(events[..i], events[i], s);
  }

  class Tracer {
    const table: SlotTable
    const base: nat
    var allocs: map<nat, Allocation>
    var current: nat
    var stats: Statistics
    var maxslots: nat
    var lines: seq<Line>
    ghost var book: Book

    ghost function Now(): View
      reads this, table
    {
      View(allocs, current, stats, maxslots, lines, book, table.chain)
    }

    ghost predicate Valid()
      reads this, table
    {
      table.Valid() && base > 0 && Ok(base, Now())
    }

    ghost predicate AtStart()
      reads this
    {
      book.runs && allocs == map[] && lines == [] && stats == Statistics(0, 0, 0, 0, 0, 0, 0, 0)
    }

    // src/mptrace.c:1290-1292: the table of 4096 pointers, 8 bytes each.
    constructor (table: SlotTable, base: nat, ghost lib: Library)
      requires table.Valid() && table.entsize == 8 && table.entalign == 8 && base > 0
      requires table.chain == Addresses(base, Fresh(0))
      ensures Valid() && this.table == table && this.base == base && AtStart() && book.lib == lib
    {
      this.table, this.base := table, base;
      allocs, current, lines, maxslots := map[], 0, [], 1;
      stats := Statistics(0, 0, 0, 0, 0, 0, 0, 0);
      book := Book(map[], [], 0, lib, true);
      new;
      assert book.recycled + Fresh(book.top) == Fresh(0);
    }

    function NewAllocation(n: nat, entry: nat, addr: nat, l: nat): Allocation
      reads this
    {
      Allocation(if n in allocs then allocs[n].event else current + 1, entry, addr, l, 0)
    }

    // src/mptrace.c:349-383 and 870-905, for an index that is not live.
    method ReadAlloc(n: nat, addr: nat, l: nat)
      requires Valid() && !IsLive(allocs, n) && stats.acount - stats.fcount < SLOTS
      modifies this, table
      ensures Valid() && current == old(current) + 1
      ensures n in allocs && allocs == old(allocs)[n := allocs[n]]
      ensures IsLive(allocs, n) && allocs[n].addr == addr && allocs[n].size == l
      ensures book.lib == old(book).lib && book.runs == (old(book).runs && l > 0)
      ensures stats == Counted(old(stats), l, None)
    {
      ghost var m := FindSlot(base, Now(), n);
      AllocOk(base, Now(), n, m, NewAllocation(n, Address(base, m), addr, l));
      EnterAlloc(n, addr, l, m);
    }

    method EnterAlloc(n: nat, addr: nat, l: nat, ghost m: nat)
      requires table.Valid() && m <= SLOTS && table.chain != [] && table.chain[0] == Address(base, m)
      modifies this, table
      ensures table.Valid()
      ensures Now() == AfterAlloc(old(Now()), n, m, old(NewAllocation(n, Address(base, m), addr, l)))
    {
      NumberOfAddress(base, m);
      var entry := table.GetSlot();
      var f := NewAllocation(n, entry, addr, l);
      current := current + 1;
      allocs := allocs[n := f];
      stats := Counted(stats, l, None);
      var s := SlotNumber(base, f.entry);
      if s > maxslots {
        maxslots := s;
      }
      lines := lines + [Line(s, l, false)];
      book := TakeFrom(book, n, m, l);
    }

    // src/mptrace.c:916-965, for a live index.
    method ReadRealloc(n: nat, addr: nat, l: nat)
      requires Valid() && IsLive(allocs, n)
      modifies this
      ensures Valid() && current == old(current) + 1
      ensures IsLive(allocs, n) && allocs == old(allocs)[n := allocs[n]]
      ensures allocs[n] == old(allocs)[n].(addr := addr, size := l)
      ensures book.lib == old(book).lib && book.runs == (old(book).runs && (l > 0 || book.lib.Keeps?))
      ensures stats == Counted(old(stats), l, Some(old(allocs)[n].size))
    {
      ReallocOk(base, Now(), n, allocs[n].(addr := addr, size := l));
      EnterRealloc(n, addr, l);
    }

    method EnterRealloc(n: nat, addr: nat, l: nat)
      requires n in allocs
      modifies this
      ensures Now() == AfterRealloc(old(Now()), n, old(allocs)[n].(addr := addr, size := l), base)
    {
      current := current + 1;
      var f := allocs[n];
      stats := Counted(stats, l, Some(f.size));
      lines := lines + [Line(SlotNumber(base, f.entry), l, true)];
      allocs := allocs[n := f.(addr := addr, size := l)];
      book := book.(runs := book.runs && (book.lib.Keeps? || l > 0));
    }

    // src/mptrace.c:975-1005, for a live index.
    method ReadFree(n: nat)
      requires Valid() && IsLive(allocs, n)
      modifies this, table
      ensures Valid() && current == old(current) + 1
      ensures n in allocs && !IsLive(allocs, n) && allocs == old(allocs)[n := allocs[n]]
      ensures book.lib == old(book).lib && book.runs == old(book).runs
      ensures allocs[n].size == old(allocs)[n].size
      ensures stats == old(stats).(fcount := old(stats).fcount + 1, ftotal := old(stats).ftotal + allocs[n].size)
    {
      FreeReady(base, Now(), n);
      FreeOk(base, Now(), n);
      EnterFree(n);
    }

    // src/mptrace.c:860-1018, over a whole trace: the simulation program has as
    // many slots as allocations were live at the peak, but at least one.
    method ReadTrace(events: seq<Event>)
      requires Valid() && AtStart() && WellFormed(events)
      modifies this, table
      ensures Valid() && maxslots == Peak(1, PeakCount(events))
      ensures LiveAre(allocs, Sizes(events)) && Agrees(stats, events)
      // The program runs if and only if no size of 0 stands in its way, and then
      // holds as many blocks as are live.
      ensures Simulates(lines, events, old(book).lib)
    {
      NothingRead(allocs, stats, events[..0], book.lib);
      ReadEvents(events);
      TraceEnds(base, Now(), events);
    }

    method ReadEvents(events: seq<Event>)
      requires Valid() && WellFormed(events)
      requires LiveAre(allocs, Sizes(events[..0])) && Agrees(stats, events[..0])
      requires book.runs == Runnable(events[..0], book.lib)
      modifies this, table
      ensures Valid() && LiveAre(allocs, Sizes(events)) && Agrees(stats, events)
      ensures book.lib == old(book).lib && book.runs == Runnable(events, book.lib)
    {
      ghost var lib := book.lib;
      for i := 0 to |events|
        invariant Valid() && LiveAre(allocs, Sizes(events[..i])) && Agrees(stats, events[..i])
        invariant book.lib == lib && book.runs == Runnable(events[..i], lib)
      {
        ReadNext(events, i, lib);
      }
      assert events[..|events|] == events;
    }

    method ReadNext(events: seq<Event>, i: nat, ghost lib: Library)
      requires Valid() && WellFormed(events) && i < |events|
      requires LiveAre(allocs, Sizes(events[..i])) && Agrees(stats, events[..i])
      requires book.lib == lib && book.runs == Runnable(events[..i], lib)
      modifies this, table
      ensures Valid() && LiveAre(allocs, Sizes(events[..i + 1])) && Agrees(stats, events[..i + 1])
      ensures book.lib == lib && book.runs == Runnable(events[..i + 1], lib)
    {
      TraceNext(events, i, stats, lib);
      ReadEvent(events[i], Sizes(events[..i]));
    }

    // src/mptrace.c:867-1018: live are the live allocations with their sizes.
    method ReadEvent(e: Event, ghost live: map<nat, nat>)
      requires Valid() && LiveAre(allocs, live) && Fits(e, live) && stats.acount - stats.fcount == |live|
      modifies this, table
      ensures Valid() && LiveAre(allocs, After(live, e)) && stats == StatsAfter(old(stats), e, live)
      ensures book.lib == old(book).lib && book.runs == (old(book).runs && Runs(e, book.lib))
    {
      match e
      case Alloc(_, _, _) => OnAlloc(e, live);
      case Realloc(_, _, _) => OnRealloc(e, live);
      case Free(_) => OnFree(e, live);
    }

    method OnAlloc(e: Event, ghost live: map<nat, nat>)
      requires Valid() && LiveAre(allocs, live) && Fits(e, live) && stats.acount - stats.fcount == |live| && e.Alloc?
      modifies this, table
      ensures Valid() && LiveAre(allocs, After(live, e)) && stats == StatsAfter(old(stats), e, live)
      ensures book.lib == old(book).lib && book.runs == (old(book).runs && Runs(e, book.lib))
    {
      ghost var was := allocs;
      ReadAlloc(e.n, e.addr, e.size);
      LiveAfter(live, e, was, allocs);
    }

    method OnRealloc(e: Event, ghost live: map<nat, nat>)
      requires Valid() && LiveAre(allocs, live) && Fits(e, live) && e.Realloc?
      modifies this
      ensures Valid() && LiveAre(allocs, After(live, e)) && stats == StatsAfter(old(stats), e, live)
      ensures book.lib == old(book).lib && book.runs == (old(book).runs && Runs(e, book.lib))
    {
      ghost var was := allocs;
      ReadRealloc(e.n, e.addr, e.size);
      LiveAfter(live, e, was, allocs);
    }

    method OnFree(e: Event, ghost live: map<nat, nat>)
      requires Valid() && LiveAre(allocs, live) && Fits(e, live) && e.Free?
      modifies this, table
      ensures Valid() && LiveAre(allocs, After(live, e)) && stats == StatsAfter(old(stats), e, live)
      ensures book.lib == old(book).lib && book.runs == old(book).runs
    {
      ghost var was := allocs;
      ReadFree(e.n);
      LiveAfter(live, e, was, allocs);
    }

    method EnterFree(n: nat)
      requires table.Valid() && n in allocs && allocs[n].event <= current
      requires allocs[n].entry != 0 && allocs[n].entry !in table.chain
      modifies this, table
      ensures table.Valid()
      ensures Now() == AfterFree(old(Now()), n, SlotNumber(base, old(allocs)[n].entry))
    {
      current := current + 1;
      var f := allocs[n];
      stats := stats.(fcount := stats.fcount + 1, ftotal := stats.ftotal + f.size);
      var m := SlotNumber(base, f.entry);
      lines := lines + [Line(m, 0, false)];
      table.FreeSlot(f.entry);
      allocs := allocs[n := f.(time := current - f.event, entry := 0)];
      book := GiveTo(book, m);
    }
  }

  // Live allocations have slots of their own, all within the array that the
  // simulation program declares, whose length is the peak number of live
  // allocations; and the program holds a block of the right size in each.
  lemma SimulationFits(base: nat, v: View, n: nat, k: nat)
    requires Ok(base, v) && IsLive(v.allocs, n) && IsLive(v.allocs, k)
    ensures var m := SlotNumber(base, v.allocs[n].entry);
      && 1 <= m <= v.maxslots == (if v.stats.pcount == 0 then 1 else v.stats.pcount)
      && (n != k ==> m != SlotNumber(base, v.allocs[k].entry))
      && (Replay(v.lines, v.book.lib).Some? <==> v.book.runs)
      && (v.book.runs ==>
            && m in Replay(v.lines, v.book.lib).value
            && Replay(v.lines, v.book.lib).value[m] == v.allocs[n].size)
  {
    OnlyOwner(base, v, n);
    OnlyOwner(base, v, k);
  }

  // The whole table makes 4096 slots.
  method NewTable(base: nat) returns (table: SlotTable)
    requires base > 0 && base % 8 == 0
    ensures fresh(table) && table.Valid() && table.entsize == 8 && table.entalign == 8
    ensures table.chain == Addresses(base, Fresh(0))
  {
    table := new SlotTable(8, 8);
    var n := table.InitSlots(base, SLOTS * 8);
    assert RoundUp(base, table.entalign) == base && table.Stride() == 8 by {
      RoundUpIs(base, 8, base);
      RoundUpIs(8, 8, 8);
    }
    CountSlots(base, n);
    WholeTable(base, n);
  }

  lemma WholeTable(base: nat, n: nat)
    requires n == SLOTS
    ensures NewSlots(base, 8, n) + [] == Addresses(base, Fresh(0))
  {
    var r := NewSlots(base, 8, n);
    forall i | 0 <= i < n
      ensures r[i] == Address(base, i + 1)
    {
      SlotIs(base, 8, n - 1 - i);
    }
  }

  lemma CountSlots(base: nat, n: nat)
    requires forall k :: 0 <= k < n ==> SlotAt(base, 8, k) + 8 <= base + SLOTS * 8
    requires SlotAt(base, 8, n) + 8 > base + SLOTS * 8
    ensures n == SLOTS
  {
    SlotIs(base, 8, n);
    if n > 0 {
      SlotIs(base, 8, n - 1);
    }
  }
}
