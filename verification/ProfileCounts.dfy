// The statistics that src/profile.c keeps: counts and bytes for each call
// stack, and bins of sizes from which the totals can be computed.
module ProfileCounts {
  import opened CallSites

  const BIN_SIZE := 1024

  // A profdata: counts and bytes of small, medium, large and extra large
  // allocations and deallocations.
  datatype Data = Data(acount: seq<nat>, atotal: seq<nat>, dcount: seq<nat>, dtotal: seq<nat>)

  predicate DataOk(d: Data) {
    |d.acount| == 4 && |d.atotal| == 4 && |d.dcount| == 4 && |d.dtotal| == 4
  }

  function NoData(): Data {
    Data([0, 0, 0, 0], [0, 0, 0, 0], [0, 0, 0, 0], [0, 0, 0, 0])
  }

  datatype Bounds = Bounds(small: nat, medium: nat, large: nat)

  // src/profile.c:263-270
  function SizeClass(b: Bounds, l: nat): (i: nat)
    ensures i < 4
  {
    if l <= b.small then 0 else if l <= b.medium then 1 else if l <= b.large then 2 else 3
  }

  function Bump(s: seq<nat>, i: nat, n: nat): (r: seq<nat>)
    requires i < |s|
  {
    s[i := s[i] + n]
  }

  // One more allocation of l bytes, or one more deallocation.
  function Counted(d: Data, i: nat, l: nat, free: bool): Data
    requires DataOk(d) && i < 4
  {
    if free then d.(dcount := Bump(d.dcount, i, 1), dtotal := Bump(d.dtotal, i, l))
    else d.(acount := Bump(d.acount, i, 1), atotal := Bump(d.atotal, i, l))
  }

  // ---- The statistics of a call stack ----

  function NodeData(nodes: seq<Node>, data: seq<Data>, k: nat): Data {
    var d := DataOf(nodes, k);
    if 1 <= d <= |data| then data[d - 1] else NoData()
  }

  // What has been recorded for call stack a.
  ghost function Stats(nodes: seq<Node>, data: seq<Data>, a: seq<nat>): Data {
    if k: nat :| 1 <= k <= |nodes| && Chain(nodes, k) == a then NodeData(nodes, data, k) else NoData()
  }

  // Something has been recorded for call stack a.
  ghost predicate Seen(nodes: seq<Node>, a: seq<nat>) {
    exists k :: 1 <= k <= |nodes| && Chain(nodes, k) == a && DataOf(nodes, k) != 0
  }

  ghost predicate Owned(nodes: seq<Node>, d: nat) {
    exists k :: 1 <= k <= |nodes| && DataOf(nodes, k) == d
  }

  // No two nodes share their statistics, and all statistics are some node's.
  ghost predicate OwnData(nodes: seq<Node>, data: seq<Data>) {
    && (forall k :: 1 <= k <= |nodes| ==> DataOf(nodes, k) <= |data|)
    && (forall j, k :: 1 <= j < k <= |nodes| && DataOf(nodes, j) != 0 ==> DataOf(nodes, j) != DataOf(nodes, k))
    && (forall d :: 0 <= d < |data| ==> DataOk(data[d]))
    && (forall d :: 1 <= d <= |data| ==> Owned(nodes, d))
  }

  // ---- Sums over all call stacks ----

  // One of the sixteen counters of a profdata.
  datatype Counter = Counter(free: bool, bytes: bool, i: nat)

  function Reading(d: Data, c: Counter): nat
    requires DataOk(d) && c.i < 4
  {
    if c.free then if c.bytes then d.dtotal[c.i] else d.dcount[c.i]
    else if c.bytes then d.atotal[c.i] else d.acount[c.i]
  }

  function Readings(data: seq<Data>, c: Counter): (r: seq<nat>)
    requires c.i < 4 && forall d :: 0 <= d < |data| ==> DataOk(data[d])
    ensures |r| == |data| && forall d :: 0 <= d < |data| ==> r[d] == Reading(data[d], c)
  {
    seq(|data|, d requires 0 <= d < |data| => Reading(data[d], c))
  }

  function Sum(s: seq<nat>): nat {
    if s == [] then 0 else Sum(s[..|s| - 1]) + s[|s| - 1]
  }

  // What recording l bytes adds to a counter.
  function Step(c: Counter, i: nat, l: nat, free: bool): nat {
    if c.free != free || c.i != i then 0 else if c.bytes then l else 1
  }

  lemma {:induction false} SumChange(s: seq<nat>, i: nat, n: nat)
    requires i < |s|
    ensures Sum(s[i := s[i] + n]) == Sum(s) + n
    decreases |s|
  {
    var t := s[i := s[i] + n];
    if i < |s| - 1 {
      SumChange(s[..|s| - 1], i, n);
      assert t[..|s| - 1] == s[..|s| - 1][i := s[i] + n];
    } else {
      assert t[..|s| - 1] == s[..|s| - 1];
    }
  }

  lemma CountedReading(d: Data, c: Counter, i: nat, l: nat, free: bool)
    requires DataOk(d) && c.i < 4 && i < 4
    ensures Reading(Counted(d, i, l, free), c) == Reading(d, c) + Step(c, i, l, free)
  {
  }

  lemma CountedSum(data: seq<Data>, now: seq<Data>, k: nat, c: Counter, i: nat, l: nat, free: bool)
    requires k < |data| && c.i < 4 && i < 4 && forall d :: 0 <= d < |data| ==> DataOk(data[d])
    requires now == data[k := Counted(data[k], i, l, free)]
    requires forall d :: 0 <= d < |now| ==> DataOk(now[d])
    ensures Sum(Readings(now, c)) == Sum(Readings(data, c)) + Step(c, i, l, free)
  {
    CountedReading(data[k], c, i, l, free);
    var s := Readings(data, c);
    assert Readings(now, c) == s[k := s[k] + Step(c, i, l, free)];
    SumChange(s, k, Step(c, i, l, free));
  }

  lemma NoDataSum(data: seq<Data>, c: Counter)
    requires c.i < 4 && forall d :: 0 <= d < |data| ==> DataOk(data[d])
    ensures Sum(Readings(data + [NoData()], c)) == Sum(Readings(data, c))
  {
    assert Readings(data + [NoData()], c)[..|data|] == Readings(data, c);
  }

  lemma StatsAt(nodes: seq<Node>, data: seq<Data>, k: nat)
    requires Interned(nodes) && 1 <= k <= |nodes|
    ensures Stats(nodes, data, Chain(nodes, k)) == NodeData(nodes, data, k)
  {
  }

  // New nodes without statistics change nothing.
  lemma StatsGrow(was: seq<Node>, nodes: seq<Node>, data: seq<Data>, b: seq<nat>)
    requires was <= nodes && Interned(was) && Interned(nodes)
    requires forall k :: |was| < k <= |nodes| ==> DataOf(nodes, k) == 0
    ensures Stats(nodes, data, b) == Stats(was, data, b)
  {
    if j: nat :| 1 <= j <= |nodes| && Chain(nodes, j) == b {
      StatsAt(nodes, data, j);
      if j <= |was| {
        ChainPrefix(was, nodes, j);
        StatsAt(was, data, j);
      } else {
        NoOther(was, nodes, j);
      }
    } else {
      forall k: nat | 1 <= k <= |was|
        ensures Chain(was, k) != b
      {
        ChainPrefix(was, nodes, k);
      }
    }
  }

  lemma NoOther(was: seq<Node>, nodes: seq<Node>, j: nat)
    requires was <= nodes && Interned(nodes) && |was| < j <= |nodes|
    ensures forall k: nat :: 1 <= k <= |was| ==> Chain(was, k) != Chain(nodes, j)
  {
    forall k: nat | 1 <= k <= |was|
      ensures Chain(was, k) != Chain(nodes, j)
    {
      ChainPrefix(was, nodes, k);
    }
  }

  // Two tables with the same stacks that agree on the statistics of stack b.
  lemma StatsSame(m: seq<Node>, md: seq<Data>, n: seq<Node>, nd: seq<Data>, b: seq<nat>)
    requires |m| == |n| && Interned(m) && Interned(n)
    requires forall k :: 0 <= k <= |m| ==> Chain(m, k) == Chain(n, k)
    requires forall k :: 1 <= k <= |m| && Chain(m, k) == b ==> NodeData(m, md, k) == NodeData(n, nd, k)
    ensures Stats(m, md, b) == Stats(n, nd, b)
  {
    if k: nat :| 1 <= k <= |m| && Chain(m, k) == b {
      StatsAt(m, md, k);
      StatsAt(n, nd, k);
    }
  }

  // Whether the node of call stack a has statistics, in the nodes before it was
  // found.
  lemma SeenAt(was: seq<Node>, nodes: seq<Node>, k: nat, a: seq<nat>)
    requires was <= nodes && Interned(nodes)
    requires forall j :: |was| < j <= |nodes| ==> DataOf(nodes, j) == 0
    requires k != 0 ==> k <= |nodes| && Chain(nodes, k) == a
    ensures k != 0 ==> (Seen(was, a) <==> DataOf(nodes, k) != 0)
  {
    if k != 0 && DataOf(nodes, k) != 0 {
      ChainPrefix(was, nodes, k);
      assert DataOf(was, k) != 0;
    }
    if k != 0 && Seen(was, a) {
      var j :| 1 <= j <= |was| && Chain(was, j) == a && DataOf(was, j) != 0;
      ChainPrefix(was, nodes, j);
      assert DataOf(nodes, j) != 0;
    }
  }

  lemma OwnGrow(was: seq<Node>, nodes: seq<Node>, data: seq<Data>)
    requires was <= nodes && OwnData(was, data)
    requires forall k :: |was| < k <= |nodes| ==> DataOf(nodes, k) == 0
    ensures OwnData(nodes, data)
  {
    assert forall k :: 0 <= k <= |was| ==> DataOf(nodes, k) == DataOf(was, k);
    forall d | 1 <= d <= |data|
      ensures Owned(nodes, d)
    {
      assert Owned(was, d);
    }
  }

  lemma OwnSet(nodes: seq<Node>, data: seq<Data>, k: nat, now: seq<Node>)
    requires OwnData(nodes, data) && 1 <= k <= |nodes| && DataOf(nodes, k) == 0
    requires now == nodes[k - 1 := nodes[k - 1].(data := |data| + 1)]
    ensures OwnData(now, data + [NoData()])
  {
    assert forall j :: 0 <= j <= |nodes| ==> DataOf(now, j) == if j == k then |data| + 1 else DataOf(nodes, j);
    forall d | 1 <= d <= |data| + 1
      ensures Owned(now, d)
    {
      if d == |data| + 1 {
        assert DataOf(now, k) == d;
      } else {
        assert Owned(nodes, d);
        var j :| 1 <= j <= |nodes| && DataOf(nodes, j) == d;
        assert DataOf(now, j) == d;
      }
    }
  }

  // ---- The bins ----

  function BinOf(l: nat): (i: nat)
    requires l >= 1
    ensures i < BIN_SIZE
  {
    if l < BIN_SIZE then l - 1 else BIN_SIZE - 1
  }

  // src/mprof.c:487-501
  function ByteSum(c: seq<nat>): nat {
    if c == [] then 0 else ByteSum(c[..|c| - 1]) + c[|c| - 1] * |c|
  }

  // The bytes that the bins stand for, with those of the largest bin apart.
  function BinBytes(c: seq<nat>, totals: nat): nat {
    if c == [] then 0 else ByteSum(c[..|c| - 1]) + totals
  }

  lemma {:induction false} BumpSums(c: seq<nat>, i: nat)
    requires i < |c|
    ensures Sum(Bump(c, i, 1)) == Sum(c) + 1
    ensures ByteSum(Bump(c, i, 1)) == ByteSum(c) + i + 1
    decreases |c|
  {
    var n, d := |c| - 1, Bump(c, i, 1);
    if i < n {
      BumpSums(c[..n], i);
      assert d[..n] == Bump(c[..n], i, 1);
    } else {
      assert d[..n] == c[..n];
    }
  }

  // What recording one size does to the totals.
  lemma BinsAdd(c: seq<nat>, totals: nat, l: nat)
    requires |c| == BIN_SIZE && l >= 1
    ensures Sum(Bump(c, BinOf(l), 1)) == Sum(c) + 1
    ensures BinBytes(Bump(c, BinOf(l), 1), if l < BIN_SIZE then totals else totals + l) == BinBytes(c, totals) + l
  {
    BumpSums(c, BinOf(l));
    var n, d := |c| - 1, Bump(c, BinOf(l), 1);
    if l < BIN_SIZE {
      BumpSums(c[..n], l - 1);
      assert d[..n] == Bump(c[..n], l - 1, 1);
    } else {
      assert d[..n] == c[..n];
    }
  }

  // src/mprof.c:487-501: the totals that the reader computes.
  method ReadTotals(c: seq<nat>, totals: nat) returns (count: nat, bytes: nat)
    ensures count == Sum(c) && bytes == BinBytes(c, totals)
  {
    count, bytes := 0, 0;
    for i := 0 to |c|
      invariant count == Sum(c[..i])
      invariant bytes == if i < |c| || i == 0 then ByteSum(c[..i]) else BinBytes(c, totals)
    {
      assert c[..i + 1][..i] == c[..i];
      count := count + c[i];
      if i == |c| - 1 {
        bytes := bytes + totals;
      } else {
        bytes := bytes + c[i] * (i + 1);
      }
    }
    assert c[..|c|] == c;
  }

  class Profiler {
    const sites: Profile
    const bounds: Bounds
    const acounts: array<nat>
    const dcounts: array<nat>
    var atotals: nat
    var dtotals: nat
    var data: seq<Data>
    var dataRoom: nat
    const autosave: nat
    var autocount: nat

    ghost predicate Valid()
      reads this, sites, acounts, dcounts
    {
      && sites.Valid() && OwnData(sites.nodes, data)
      && acounts != dcounts && acounts.Length == BIN_SIZE && dcounts.Length == BIN_SIZE
      && (autosave != 0 ==> autocount < autosave)
    }

    // The sum of a counter over all call stacks.
    ghost function Overall(c: Counter): nat
      requires c.i < 4 && OwnData(sites.nodes, data)
      reads this, sites
    {
      Sum(Readings(data, c))
    }

    ghost function StatsOf(a: seq<nat>): Data
      reads this, sites
    {
      Stats(sites.nodes, data, a)
    }

    // There are slots for the nodes and the statistics of call stack a.
    ghost predicate HasRoom(a: seq<nat>)
      reads this, sites
    {
      Missing(sites.nodes, a) <= sites.room && (Seen(sites.nodes, a) || dataRoom > 0)
    }

    constructor (sites: Profile, bounds: Bounds, dataRoom: nat, autosave: nat)
      requires sites.Valid() && sites.nodes == []
      ensures Valid() && this.sites == sites && fresh(acounts) && fresh(dcounts)
      ensures forall a :: StatsOf(a) == NoData()
      ensures Sum(acounts[..]) == 0 && BinBytes(acounts[..], atotals) == 0
      ensures Sum(dcounts[..]) == 0 && BinBytes(dcounts[..], dtotals) == 0
    {
      this.sites, this.bounds, this.dataRoom := sites, bounds, dataRoom;
      this.autosave, autocount := autosave, 0;
      data, atotals, dtotals := [], 0, 0;
      acounts := new nat[BIN_SIZE](i => 0);
      dcounts := new nat[BIN_SIZE](i => 0);
      new;
      EmptyBins(acounts[..]);
      EmptyBins(dcounts[..]);
      EmptyBins(acounts[..][..BIN_SIZE - 1]);
      EmptyBins(dcounts[..][..BIN_SIZE - 1]);
    }

    // src/profile.c:128-161 and 260-261: the statistics of node k, which get a
    // place if they have none.
    method DataAt(k: nat) returns (d: nat)
      requires Valid() && 1 <= k <= |sites.nodes|
      modifies this`data, this`dataRoom, sites`nodes
      ensures Valid() && |sites.nodes| == old(|sites.nodes|) && d == DataOf(sites.nodes, k) && d <= |data|
      ensures forall j :: 0 <= j <= |sites.nodes| ==> Chain(sites.nodes, j) == Chain(old(sites.nodes), j)
      ensures forall b :: StatsOf(b) == old(StatsOf(b))
      ensures d != 0 <==> DataOf(old(sites.nodes), k) != 0 || old(dataRoom) > 0
      ensures forall c: Counter :: c.i < 4 ==> Overall(c) == old(Overall(c))
    {
      d := DataOf(sites.nodes, k);
      if d != 0 || dataRoom == 0 {
        return;
      }
      dataRoom := dataRoom - 1;
      data := data + [NoData()];
      d := |data|;
      OwnSet(sites.nodes, old(data), k, sites.nodes[k - 1 := sites.nodes[k - 1].(data := d)]);
      sites.SetData(k, d);
      forall c: Counter | c.i < 4
        ensures Overall(c) == old(Overall(c))
      {
        NoDataSum(old(data), c);
      }
      forall b
        ensures StatsOf(b) == old(StatsOf(b))
      {
        StatsSame(sites.nodes, data, old(sites.nodes), old(data), b);
      }
    }

    // src/profile.c:246-348: __mp_profilealloc and, with free, __mp_profilefree.
    // The callers pass sizes of blocks, which are never 0.
    // The second result tells whether the file is to be written now.
    method Record(l: nat, stack: seq<nat>, free: bool) returns (ok: bool, save: bool)
      requires Valid() && l >= 1
      modifies this`data, this`dataRoom, this`atotals, this`dtotals, sites`nodes, sites`tree, sites`room
      modifies acounts, dcounts, this`autocount
      ensures Valid()
      ensures stack == [] || stack[0] == 0 ==> ok && forall b :: StatsOf(b) == old(StatsOf(b))
      ensures ok && stack != [] && stack[0] != 0 ==>
        && DataOk(old(StatsOf(stack)))
        && StatsOf(stack) == Counted(old(StatsOf(stack)), SizeClass(bounds, l), l, free)
        && forall b :: b != stack ==> StatsOf(b) == old(StatsOf(b))
      ensures !ok ==> forall b :: StatsOf(b) == old(StatsOf(b))
      ensures stack != [] && stack[0] != 0 ==> (ok <==> old(HasRoom(stack)))
      // The counters add up to what has been recorded with a call stack.
      ensures forall c: Counter :: c.i < 4 ==>
        Overall(c) == old(Overall(c))
                      + if ok && stack != [] && stack[0] != 0 then Step(c, SizeClass(bounds, l), l, free) else 0
      // After autosave events the file is written, and counting starts again.
      ensures autocount == if save then 0 else old(autocount) + if ok then 1 else 0
      ensures save <==> ok && autosave != 0 && old(autocount) + 1 == autosave
      // One more count and l more bytes in the totals that can be read back.
      ensures var n, k := if ok && !free then 1 else 0, if ok && free then 1 else 0;
        && Sum(acounts[..]) == old(Sum(acounts[..])) + n
        && BinBytes(acounts[..], atotals) == old(BinBytes(acounts[..], atotals)) + n * l
        && Sum(dcounts[..]) == old(Sum(dcounts[..])) + k
        && BinBytes(dcounts[..], dtotals) == old(BinBytes(dcounts[..], dtotals)) + k * l
    {
      ok, save := true, false;
      if stack != [] && stack[0] != 0 {
        ok := RecordSite(l, stack, free);
      }
      if ok {
        RecordBin(l, free);
        save := SaveDue();
      }
    }

    // src/profile.c:289-291 and 365
    method SaveDue() returns (save: bool)
      requires autosave != 0 ==> autocount < autosave
      modifies this`autocount
      ensures save <==> autosave != 0 && old(autocount) + 1 == autosave
      ensures autocount == if save then 0 else old(autocount) + 1
    {
      autocount := autocount + 1;
      save := autosave != 0 && autocount % autosave == 0;
      if save {
        autocount := 0;
      }
    }

    // src/profile.c:257-273
    method RecordSite(l: nat, stack: seq<nat>, free: bool) returns (ok: bool)
      requires Valid() && stack != []
      modifies this`data, this`dataRoom, sites`nodes, sites`tree, sites`room
      ensures Valid()
      ensures ok ==>
        && DataOk(old(StatsOf(stack)))
        && StatsOf(stack) == Counted(old(StatsOf(stack)), SizeClass(bounds, l), l, free)
        && forall b :: b != stack ==> StatsOf(b) == old(StatsOf(b))
      ensures !ok ==> forall b :: StatsOf(b) == old(StatsOf(b))
      ensures ok <==> old(HasRoom(stack))
      ensures forall c: Counter :: c.i < 4 ==>
        Overall(c) == old(Overall(c)) + if ok then Step(c, SizeClass(bounds, l), l, free) else 0
    {
      ghost var was := sites.nodes;
      var k := sites.GetCallSite(stack);
      OwnGrow(was, sites.nodes, data);
      SeenAt(was, sites.nodes, k, stack);
      forall b
        ensures StatsOf(b) == old(StatsOf(b))
      {
        StatsGrow(was, sites.nodes, data, b);
      }
      if k == 0 {
        return false;
      }
      var d := DataAt(k);
      if d == 0 {
        return false;
      }
      Add(k, d, SizeClass(bounds, l), l, free);
      return true;
    }

    method Add(k: nat, d: nat, i: nat, l: nat, free: bool)
      requires Valid() && 1 <= k <= |sites.nodes| && 1 <= d <= |data| && d == DataOf(sites.nodes, k) && i < 4
      modifies this`data
      ensures Valid()
      ensures var a := Chain(sites.nodes, k);
        && DataOk(old(StatsOf(a))) && StatsOf(a) == Counted(old(StatsOf(a)), i, l, free)
        && forall b :: b != a ==> StatsOf(b) == old(StatsOf(b))
      ensures forall c: Counter :: c.i < 4 ==> Overall(c) == old(Overall(c)) + Step(c, i, l, free)
    {
      StatsAt(sites.nodes, data, k);
      ghost var was := data;
      data := data[d - 1 := Counted(data[d - 1], i, l, free)];
      StatsAt(sites.nodes, data, k);
      forall c: Counter | c.i < 4
        ensures Sum(Readings(data, c)) == Sum(Readings(was, c)) + Step(c, i, l, free)
      {
        CountedSum(was, data, d - 1, c, i, l, free);
      }
      forall b | b != Chain(sites.nodes, k)
        ensures StatsOf(b) == old(StatsOf(b))
      {
        StatsSame(sites.nodes, data, sites.nodes, old(data), b);
      }
    }

    // src/profile.c:278-284
    method RecordBin(l: nat, free: bool)
      requires acounts != dcounts && acounts.Length == BIN_SIZE && dcounts.Length == BIN_SIZE && l >= 1
      modifies this`atotals, this`dtotals, acounts, dcounts
      ensures Sum(acounts[..]) == old(Sum(acounts[..])) + if free then 0 else 1
      ensures BinBytes(acounts[..], atotals) == old(BinBytes(acounts[..], atotals)) + if free then 0 else l
      ensures Sum(dcounts[..]) == old(Sum(dcounts[..])) + if free then 1 else 0
      ensures BinBytes(dcounts[..], dtotals) == old(BinBytes(dcounts[..], dtotals)) + if free then l else 0
    {
      var counts := if free then dcounts else acounts;
      ghost var totals := if free then dtotals else atotals;
      ghost var was := counts[..];
      BinsAdd(was, totals, l);
      if l < BIN_SIZE {
        counts[l - 1] := counts[l - 1] + 1;
      } else {
        counts[BIN_SIZE - 1] := counts[BIN_SIZE - 1] + 1;
        if free {
          dtotals := dtotals + l;
        } else {
          atotals := atotals + l;
        }
      }
      assert counts[..] == Bump(was, BinOf(l), 1);
    }
  }

  lemma {:induction false} EmptyBins(c: seq<nat>)
    requires forall i :: 0 <= i < |c| ==> c[i] == 0
    ensures Sum(c) == 0 && ByteSum(c) == 0
    decreases |c|
  {
    if c != [] {
      EmptyBins(c[..|c| - 1]);
    }
  }
}
