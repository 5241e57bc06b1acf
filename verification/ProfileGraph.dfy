// From the profiler through its file to the call graph: what src/profile.c has
// recorded is what leaves the start of the graph that src/mprof.c draws.
module ProfileGraph {
  import opened Memory
  import opened CallSites
  import opened ProfileCounts
  import opened ProfileFile
  import opened CallGraph

  // What the call graph is built from, for one counter.
  function GraphInput(p: Profiled, c: Counter, useAddresses: bool): CallGraph.Profile
    requires c.i < 4 && forall d :: 0 <= d < |p.data| ==> DataOk(p.data[d])
  {
    CallGraph.Profile(p.nodes, p.order, Readings(p.data, c), useAddresses)
  }

  // Call sites with the same address have the same symbol, so that they are
  // given the same index.
  lemma SameSymbol(t: Tables, symbols: map<nat, nat>, p: Profiled, j: nat, k: nat)
    requires ReadsBack(t, p) && SymbolsFound(t.nodes, symbols)
    requires 1 <= j <= |p.nodes| && 1 <= k <= |p.nodes| && p.nodes[j - 1].addr == p.nodes[k - 1].addr
    ensures p.nodes[j - 1].symbol == p.nodes[k - 1].symbol
  {
    assert SiteBack(t, p, j) && SiteBack(t, p, k);
    assert t.nodes[j - 1].symbol == t.nodes[k - 1].symbol;
  }

  // A profiler that was saved and read back is fit for the call graph.
  lemma InputOk(t: Tables, symbols: map<nat, nat>, p: Profiled, c: Counter, useAddresses: bool)
    requires Rooted(t.nodes) && InTree(t.nodes, t.tree) && Distinct(t.tree) && SymbolsFound(t.nodes, symbols)
    requires OwnData(t.nodes, t.data) && ReadsBack(t, p) && c.i < 4
    ensures ProfileOk(GraphInput(p, c, useAddresses))
  {
    forall k | 0 <= k < |p.nodes|
      ensures p.nodes[k].parent <= k && p.nodes[k].data <= |p.data|
    {
      assert SiteBack(t, p, k + 1);
      assert Parent(t.nodes, k + 1) < k + 1 && DataOf(t.nodes, k + 1) <= |t.data|;
    }
    forall j, k | 0 <= j < |p.nodes| && 0 <= k < |p.nodes| && p.nodes[j].addr == p.nodes[k].addr
      ensures p.nodes[j].symbol == p.nodes[k].symbol
    {
      SameSymbol(t, symbols, p, j + 1, k + 1);
    }
  }

  // ---- All that there is ----

  // The elements of w whose places, counted from 1, are in s.
  ghost function SumAt(w: seq<nat>, s: set<nat>): nat {
    if w == [] then 0 else SumAt(w[..|w| - 1], s) + if |w| in s then w[|w| - 1] else 0
  }

  lemma {:induction false} SumMore(w: seq<nat>, s: set<nat>, d: nat)
    requires d !in s
    ensures SumAt(w, s + {d}) == SumAt(w, s) + if 1 <= d <= |w| then w[d - 1] else 0
  {
    if w != [] {
      SumMore(w[..|w| - 1], s, d);
    }
  }

  lemma {:induction false} SumAll(w: seq<nat>, s: set<nat>)
    requires forall d :: 1 <= d <= |w| ==> d in s
    ensures SumAt(w, s) == Sum(w)
  {
    if w != [] {
      SumAll(w[..|w| - 1], s);
    }
  }

  // The statistics of the first n nodes of the tree.
  ghost function Indices(f: CallGraph.Profile, n: nat): set<nat>
    requires n <= |f.order|
  {
    set i | 0 <= i < n :: SiteAt(f, f.order[i]).data
  }

  ghost predicate OneEach(f: CallGraph.Profile) {
    && (forall i, j :: 0 <= i < j < |f.order| && SiteAt(f, f.order[i]).data != 0 ==>
          SiteAt(f, f.order[i]).data != SiteAt(f, f.order[j]).data)
    && (forall d :: 1 <= d <= |f.weights| ==> d in Indices(f, |f.order|))
  }

  lemma {:induction false} SharesSum(f: CallGraph.Profile, n: nat)
    requires n <= |f.order| && OneEach(f)
    ensures Shares(f, n, |f.order|, {}, Leaving(Start)) == SumAt(f.weights, Indices(f, n) - {0})
  {
    if n == 0 {
      NothingSummed(f.weights);
      assert Indices(f, 0) - {0} == {};
    } else {
      SharesSum(f, n - 1);
      var d := SiteAt(f, f.order[n - 1]).data;
      ScaleOnce(WeightOf(f, f.order[n - 1]));
      IndicesNext(f, n - 1);
      if d != 0 {
        SumMore(f.weights, Indices(f, n - 1) - {0}, d);
      }
    }
  }

  lemma {:induction false} NothingSummed(w: seq<nat>)
    ensures SumAt(w, {}) == 0
  {
    if w != [] {
      NothingSummed(w[..|w| - 1]);
    }
  }

  lemma IndicesNext(f: CallGraph.Profile, n: nat)
    requires n < |f.order| && OneEach(f)
    ensures var d := SiteAt(f, f.order[n]).data;
      && (d == 0 ==> Indices(f, n + 1) - {0} == Indices(f, n) - {0})
      && (d != 0 ==> d !in Indices(f, n) && Indices(f, n + 1) - {0} == Indices(f, n) - {0} + {d})
  {
    var d := SiteAt(f, f.order[n]).data;
    assert Indices(f, n + 1) == Indices(f, n) + {d};
    forall i | 0 <= i < n
      ensures d != 0 ==> SiteAt(f, f.order[i]).data != d
    {
    }
  }

  lemma InputOneEach(t: Tables, p: Profiled, c: Counter, useAddresses: bool)
    requires InTree(t.nodes, t.tree) && Distinct(t.tree) && OwnData(t.nodes, t.data) && ReadsBack(t, p) && c.i < 4
    ensures OneEach(GraphInput(p, c, useAddresses))
  {
    var f := GraphInput(p, c, useAddresses);
    forall k | 1 <= k <= |p.nodes|
      ensures SiteAt(f, k).data == DataOf(t.nodes, k)
    {
      assert SiteBack(t, p, k);
    }
    forall i, j | 0 <= i < j < |f.order| && SiteAt(f, f.order[i]).data != 0
      ensures SiteAt(f, f.order[i]).data != SiteAt(f, f.order[j]).data
    {
      assert t.tree[i] != t.tree[j];
    }
    forall d | 1 <= d <= |f.weights|
      ensures d in Indices(f, |f.order|)
    {
      assert Owned(t.nodes, d);
      var k :| 1 <= k <= |t.nodes| && DataOf(t.nodes, k) == d;
      assert k in t.tree;
      var i :| 0 <= i < |t.tree| && t.tree[i] == k;
      assert SiteAt(f, f.order[i]).data == d;
    }
  }

  // What leaves the start of the graph, and reaches its end, is the sum of the
  // counter over all call stacks that the profiler has seen.
  lemma AllIsDrawn(t: Tables, p: Profiled, c: Counter, useAddresses: bool)
    requires InTree(t.nodes, t.tree) && Distinct(t.tree) && OwnData(t.nodes, t.data) && ReadsBack(t, p) && c.i < 4
    ensures AllShares(GraphInput(p, c, useAddresses), Leaving(Start)) == Sum(Readings(t.data, c))
  {
    var f := GraphInput(p, c, useAddresses);
    InputOneEach(t, p, c, useAddresses);
    SharesSum(f, |f.order|);
    SumAll(f.weights, Indices(f, |f.order|) - {0});
  }

  // ---- The whole way ----

  // A profiler in any state that it can reach is saved, read on a machine of
  // either byte order, and drawn: for each counter the graph begins and ends
  // with what has been recorded.
  method Draw(p: Profiler, symbols: seq<Symbol>, index: array<nat>, offset: array<nat>, foreign: bool, c: Counter,
              useAddresses: bool) returns (g: Graph)
    requires p.Valid() && index != offset && index.Length == offset.Length == |symbols| && c.i < 4
    requires forall a :: a in p.sites.symbols ==> p.sites.symbols[a] < |symbols|
    requires forall x :: 0 <= x < |symbols| ==> NUL !in symbols[x].name
    requires forall x :: 0 <= x < |symbols| ==> index[..][x] == 0 && offset[..][x] == 0
    modifies index, offset
    ensures old(OwnData(p.sites.nodes, p.data))
    ensures Out(g.edges, Start) == In(g.edges, Finish) == old(p.Overall(c))
  {
    ghost var t := Tables(p.bounds, p.acounts[..], p.atotals, p.dcounts[..], p.dtotals, p.data, p.sites.nodes,
                          p.sites.tree, symbols);
    var file := SaveProfile(p, symbols, index, offset);
    var q := ReadFile(Converted(file, foreign), t, foreign);
    InputOk(t, p.sites.symbols, q.value, c, useAddresses);
    AllIsDrawn(t, q.value, c, useAddresses);
    g := new Graph(GraphInput(q.value, c, useAddresses));
    g.BuildGraph();
    TotalsAgree(g.f, |g.f.order|);
    assert Flow(g.edges, Leaving(Start)) == Flow(g.edges, Reaching(Finish));
  }
}
