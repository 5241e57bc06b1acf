// The call graph that src/mprof.c builds from the call stacks of a profile.
module CallGraph {
  import opened Memory
  import opened ProfileFile
  import E = EdgeGraph

  // The ends of an edge: the two special nodes of the graph, or the vertex
  // with the given key.
  datatype Place = Start | Finish | Vertex(key: nat)

  // weight is any one of the sixteen counters of a profiledata.
  datatype Edge = Edge(from: Place, to: Place, weight: nat, cycle: bool)

  // What the reader has left behind: call sites, the order of their tree, one
  // counter of each set of statistics, and an option.
  datatype Profile = Profile(sites: seq<Site>, order: seq<nat>, weights: seq<nat>, useAddresses: bool)

  // Callers come first, a symbol belongs to an address, and the tree holds
  // every call site once.
  ghost predicate ProfileOk(f: Profile) {
    && (forall k :: 0 <= k < |f.sites| ==> f.sites[k].parent <= k && f.sites[k].data <= |f.weights|)
    && (forall j, k :: 0 <= j < |f.sites| && 0 <= k < |f.sites| && f.sites[j].addr == f.sites[k].addr ==>
          f.sites[j].symbol == f.sites[k].symbol)
    && (forall i :: 0 <= i < |f.order| ==> 1 <= f.order[i] <= |f.sites|)
    && Distinct(f.order)
    && (forall k :: 1 <= k <= |f.sites| ==> k in f.order)
  }

  function SiteAt(f: Profile, k: nat): Site {
    if 1 <= k <= |f.sites| then f.sites[k - 1] else Site(0, 0, 0, 0, 0)
  }

  // src/mprof.c:671-674: call sites with the same key share a vertex.
  function Key(f: Profile, k: nat): nat {
    var s := SiteAt(f, k);
    if f.useAddresses || s.symbol == 0 then s.addr else s.symbol
  }

  // The vertices on the call stack of call site k, innermost first.
  function Path(f: Profile, k: nat): (r: seq<nat>)
    ensures k != 0 ==> r != [] && r[0] == Key(f, k)
    decreases k
  {
    if k == 0 then []
    else if SiteAt(f, k).parent >= k then [Key(f, k)]
    else [Key(f, k)] + Path(f, SiteAt(f, k).parent)
  }

  function WeightOf(f: Profile, k: nat): nat {
    var d := SiteAt(f, k).data;
    if 1 <= d <= |f.weights| then f.weights[d - 1] else 0
  }

  // ---- Sums over edges ----

  function Out(edges: seq<Edge>, x: Place): nat {
    if edges == [] then 0
    else Out(edges[..|edges| - 1], x) + if edges[|edges| - 1].from == x then edges[|edges| - 1].weight else 0
  }

  function In(edges: seq<Edge>, x: Place): nat {
    if edges == [] then 0
    else In(edges[..|edges| - 1], x) + if edges[|edges| - 1].to == x then edges[|edges| - 1].weight else 0
  }

  lemma {:induction false} UpdateSums(edges: seq<Edge>, i: nat, e: Edge, x: Place)
    requires i < |edges| && e.from == edges[i].from && e.to == edges[i].to
    ensures Out(edges[i := e], x) + (if e.from == x then edges[i].weight else 0)
            == Out(edges, x) + (if e.from == x then e.weight else 0)
    ensures In(edges[i := e], x) + (if e.to == x then edges[i].weight else 0)
            == In(edges, x) + (if e.to == x then e.weight else 0)
    decreases |edges|
  {
    var n := |edges| - 1;
    if i < n {
      UpdateSums(edges[..n], i, e, x);
      assert edges[i := e][..n] == edges[..n][i := e];
    } else {
      assert edges[i := e][..n] == edges[..n];
    }
  }

  lemma AppendSums(edges: seq<Edge>, e: Edge, x: Place)
    ensures Out(edges + [e], x) == Out(edges, x) + if e.from == x then e.weight else 0
    ensures In(edges + [e], x) == In(edges, x) + if e.to == x then e.weight else 0
  {
    assert (edges + [e])[..|edges|] == edges;
  }

  // What leaves a place, or reaches it.
  datatype Way = Leaving(x: Place) | Reaching(x: Place)

  function Flow(edges: seq<Edge>, w: Way): nat {
    match w
    case Leaving(x) => Out(edges, x)
    case Reaching(x) => In(edges, x)
  }

  // The edge from one place to another is on the way.
  predicate On(from: Place, to: Place, w: Way) {
    match w
    case Leaving(x) => x == from
    case Reaching(x) => x == to
  }

  lemma AppendFlows(edges: seq<Edge>, from: Place, to: Place)
    ensures forall w :: Flow(edges + [Edge(from, to, 0, false)], w) == Flow(edges, w)
    ensures Flagged(edges + [Edge(from, to, 0, false)]) == Flagged(edges)
  {
    forall w
      ensures Flow(edges + [Edge(from, to, 0, false)], w) == Flow(edges, w)
    {
      AppendSums(edges, Edge(from, to, 0, false), w.x);
    }
    AppendFlag(edges, from, to);
  }

  // ---- The graph behind the edges ----

  // The node of src/graph.c for a place.
  function NodeOf(x: Place): nat {
    match x
    case Start => E.START
    case Finish => E.FINISH
    case Vertex(key) => key + 2
  }

  lemma NodesDiffer(x: Place, y: Place)
    requires NodeOf(x) == NodeOf(y)
    ensures x == y
  {
  }

  // The edges of the list as edges of a graph.
  function EndsOf(edges: seq<Edge>): map<nat, E.Ends> {
    map i: nat | i < |edges| :: E.Ends(NodeOf(edges[i].from), NodeOf(edges[i].to))
  }

  function Upto(n: nat): (r: seq<nat>)
    ensures |r| == n && forall i :: 0 <= i < n ==> r[i] == i
  {
    seq(n, i => i)
  }

  function Nodes(vertices: set<nat>): set<nat> {
    {E.START, E.FINISH} + set x | x in vertices :: x + 2
  }

  lemma NodesAre(vertices: set<nat>, n: nat)
    ensures n in Nodes(vertices) <==> n == E.START || n == E.FINISH || (n >= 2 && n - 2 in vertices)
  {
    if n >= 2 && n - 2 in vertices {
      assert n == (n - 2) + 2;
    }
  }

  // The graph has the edges of the list and no others, and the nodes of the
  // vertices.
  ghost predicate Mirrored(g: E.View, edges: seq<Edge>, vertices: set<nat>) {
    E.Ok(g) && g.order == Upto(|edges|) && g.ends == EndsOf(edges) && g.parents.Keys == Nodes(vertices)
  }

  // The same behind a quantifier: what is known of the graph is looked at only
  // where Shown names it, which keeps it out of the proofs about sums.
  ghost predicate Mirrors(g: E.View, edges: seq<Edge>, vertices: set<nat>) {
    forall h {:trigger Shown(h)} :: Shown(h) && h == g ==> Mirrored(h, edges, vertices)
  }

  predicate Shown(g: E.View) {
    true
  }

  lemma MirroredMore(g: E.View, edges: seq<Edge>, vertices: set<nat>, e: Edge, h: E.View)
    requires Mirrored(g, edges, vertices) && E.Ok(h) && h.order == g.order + [|edges|]
    requires h.ends == g.ends[|edges| := E.Ends(NodeOf(e.from), NodeOf(e.to))] && h.parents.Keys == g.parents.Keys
    ensures Mirrored(h, edges + [e], vertices)
  {
    EndsMore(edges, e);
    assert Upto(|edges|) + [|edges|] == Upto(|edges| + 1);
  }

  lemma EndsMore(edges: seq<Edge>, e: Edge)
    ensures EndsOf(edges + [e]) == EndsOf(edges)[|edges| := E.Ends(NodeOf(e.from), NodeOf(e.to))]
  {
  }

  lemma MirroredNode(g: E.View, edges: seq<Edge>, vertices: set<nat>, x: nat, h: E.View)
    requires Mirrored(g, edges, vertices) && E.Ok(h) && h.order == g.order && h.ends == g.ends
    requires h.parents.Keys == g.parents.Keys + {x + 2}
    ensures Mirrored(h, edges, vertices + {x})
  {
    NodesMore(vertices, x);
  }

  lemma NodeIsNew(g: E.View, edges: seq<Edge>, vertices: set<nat>, x: nat)
    requires Mirrored(g, edges, vertices) && x !in vertices
    ensures x + 2 !in g.parents
  {
    NodesAre(vertices, x + 2);
    assert x + 2 !in g.parents.Keys;
  }

  lemma NodesMore(vertices: set<nat>, x: nat)
    ensures Nodes(vertices + {x}) == Nodes(vertices) + {x + 2}
  {
    forall n: nat
      ensures n in Nodes(vertices + {x}) <==> n in Nodes(vertices) + {x + 2}
    {
      NodesAre(vertices, n);
      NodesAre(vertices + {x}, n);
    }
  }

  lemma MirroredSame(g: E.View, edges: seq<Edge>, vertices: set<nat>, i: nat, e: Edge)
    requires Mirrored(g, edges, vertices) && i < |edges| && e.from == edges[i].from && e.to == edges[i].to
    ensures Mirrored(g, edges[i := e], vertices)
  {
    EndsSame(edges, i, e);
  }

  lemma EndsSame(edges: seq<Edge>, i: nat, e: Edge)
    requires i < |edges| && e.from == edges[i].from && e.to == edges[i].to
    ensures EndsOf(edges[i := e]) == EndsOf(edges)
  {
    var now := edges[i := e];
    assert forall k :: 0 <= k < |edges| ==> now[k].from == edges[k].from && now[k].to == edges[k].to;
  }

  // The edge between two places is the one that the graph finds.
  lemma FoundEdge(edges: seq<Edge>, i: nat, from: Place, to: Place)
    requires i in EndsOf(edges) && EndsOf(edges)[i] == E.Ends(NodeOf(from), NodeOf(to))
    ensures i < |edges| && edges[i].from == from && edges[i].to == to
  {
    NodesDiffer(from, edges[i].from);
    NodesDiffer(to, edges[i].to);
  }

  // What the edges of a node's list have.
  function Weights(edges: seq<Edge>, s: seq<nat>): nat {
    if s == [] then 0
    else Weights(edges, s[..|s| - 1]) + if s[|s| - 1] < |edges| then edges[s[|s| - 1]].weight else 0
  }

  // Summing up the list of children of a node gives what leaves it, and the
  // list of parents what reaches it.
  lemma {:induction false} ListsSum(ends: map<nat, E.Ends>, edges: seq<Edge>, n: nat, x: Place, into: bool)
    requires ends == EndsOf(edges) && n <= |edges|
    ensures Weights(edges, E.Side(ends, Upto(n), NodeOf(x), into)) == Flow(edges[..n], Side(x, into))
  {
    if n > 0 {
      ListsSum(ends, edges, n - 1, x, into);
      NextWeight(ends, edges, n, x, into);
      NextFlow(edges, n, x, into);
    }
  }

  function Side(x: Place, into: bool): Way {
    if into then Reaching(x) else Leaving(x)
  }

  function EndOf(e: Edge, into: bool): Place {
    if into then e.to else e.from
  }

  lemma NextFlow(edges: seq<Edge>, n: nat, x: Place, into: bool)
    requires 0 < n <= |edges|
    ensures Flow(edges[..n], Side(x, into))
            == Flow(edges[..n - 1], Side(x, into)) + if EndOf(edges[n - 1], into) == x then edges[n - 1].weight else 0
  {
    assert edges[..n] == edges[..n - 1] + [edges[n - 1]];
    AppendSums(edges[..n - 1], edges[n - 1], x);
  }

  lemma NextWeight(ends: map<nat, E.Ends>, edges: seq<Edge>, n: nat, x: Place, into: bool)
    requires ends == EndsOf(edges) && 0 < n <= |edges|
    ensures Weights(edges, E.Side(ends, Upto(n), NodeOf(x), into))
            == Weights(edges, E.Side(ends, Upto(n - 1), NodeOf(x), into))
               + if EndOf(edges[n - 1], into) == x then edges[n - 1].weight else 0
  {
    var was := E.Side(ends, Upto(n - 1), NodeOf(x), into);
    NextSide(ends, n, NodeOf(x), into);
    SameEnd(ends, edges, n - 1, x, into);
    WeightsLast(edges, was, n - 1);
    assert was + [] == was;
  }

  lemma NextSide(ends: map<nat, E.Ends>, n: nat, y: nat, into: bool)
    requires n > 0
    ensures E.Side(ends, Upto(n), y, into)
            == E.Side(ends, Upto(n - 1), y, into) + if E.Joins(ends, n - 1, y, into) then [n - 1] else []
  {
    assert Upto(n)[..n - 1] == Upto(n - 1);
  }

  lemma SameEnd(ends: map<nat, E.Ends>, edges: seq<Edge>, i: nat, x: Place, into: bool)
    requires ends == EndsOf(edges) && i < |edges|
    ensures E.Joins(ends, i, NodeOf(x), into) <==> EndOf(edges[i], into) == x
  {
  }

  lemma WeightsLast(edges: seq<Edge>, s: seq<nat>, i: nat)
    ensures Weights(edges, s + [i]) == Weights(edges, s) + if i < |edges| then edges[i].weight else 0
  {
    assert (s + [i])[..|s|] == s;
  }

  // The lists of a node of the graph that stands behind the edges.
  lemma MirroredLists(g: E.View, edges: seq<Edge>, vertices: set<nat>, x: Place, into: bool)
    requires Mirrored(g, edges, vertices) && (x.Vertex? ==> x.key in vertices)
    ensures NodeOf(x) in g.parents && NodeOf(x) in g.children
    ensures Weights(edges, if into then g.parents[NodeOf(x)] else g.children[NodeOf(x)]) == Flow(edges, Side(x, into))
  {
    HasNode(g, edges, vertices, x);
    ListsSum(g.ends, edges, |edges|, x, into);
    assert edges[..|edges|] == edges;
  }

  // ---- Cycles ----

  // The ends of the edges that are flagged as part of a cycle.
  function Flagged(edges: seq<Edge>): set<(Place, Place)> {
    set i | 0 <= i < |edges| && edges[i].cycle :: (edges[i].from, edges[i].to)
  }

  lemma AppendFlag(edges: seq<Edge>, from: Place, to: Place)
    ensures Flagged(edges + [Edge(from, to, 0, false)]) == Flagged(edges)
  {
    var now := edges + [Edge(from, to, 0, false)];
    assert forall i :: 0 <= i < |edges| ==> now[i] == edges[i];
  }

  lemma UpdateFlag(edges: seq<Edge>, i: nat, e: Edge, cycle: bool)
    requires i < |edges| && e.from == edges[i].from && e.to == edges[i].to && e.cycle == (edges[i].cycle || cycle)
    ensures Flagged(edges[i := e]) == Flagged(edges) + if cycle then {(e.from, e.to)} else {}
  {
    var now := edges[i := e];
    forall p | p in Flagged(edges) || (cycle && p == (e.from, e.to))
      ensures p in Flagged(now)
    {
      if p in Flagged(edges) {
        var j :| 0 <= j < |edges| && edges[j].cycle && p == (edges[j].from, edges[j].to);
        assert now[j].cycle && p == (now[j].from, now[j].to);
      } else {
        assert now[i].cycle;
      }
    }
    forall p | p in Flagged(now)
      ensures p in Flagged(edges) || (cycle && p == (e.from, e.to))
    {
      var j :| 0 <= j < |now| && now[j].cycle && p == (now[j].from, now[j].to);
      assert j != i ==> edges[j].cycle;
      assert j == i && !cycle ==> edges[i].cycle;
    }
  }

  // The steps of a call stack, innermost first, that lead back to a vertex that
  // it has passed already.
  function Loops(path: seq<nat>): set<(Place, Place)> {
    if |path| < 2 then {}
    else
      var v, u := path[|path| - 1], path[|path| - 2];
      Loops(path[..|path| - 1]) + if v in path[..|path| - 1] then {(Vertex(v), Vertex(u))} else {}
  }

  lemma LoopsNext(path: seq<nat>, v: nat)
    requires path != []
    ensures Loops(path + [v])
            == Loops(path) + if v in path then {(Vertex(v), Vertex(path[|path| - 1]))} else {}
  {
    assert (path + [v])[..|path|] == path;
  }

  // How often the walk along a call stack enters vertex v by a step from a
  // vertex that it has not passed before.
  function Entries(path: seq<nat>, v: nat): nat {
    if |path| < 2 then 0
    else
      var next, u := path[|path| - 1], path[|path| - 2];
      Entries(path[..|path| - 1], v) + if next !in path[..|path| - 1] && u == v then 1 else 0
  }

  lemma EntriesNext(path: seq<nat>, next: nat, v: nat)
    requires path != []
    ensures Entries(path + [next], v)
            == Entries(path, v) + if next !in path && path[|path| - 1] == v then 1 else 0
  {
    assert (path + [next])[..|path|] == path;
  }

  // Without loops every vertex is entered once, the outermost one from the
  // start.
  lemma {:induction false} EnteredOnce(path: seq<nat>, v: nat)
    requires Distinct(path) && path != []
    ensures Entries(path, v) + (if path[|path| - 1] == v then 1 else 0) == if v in path then 1 else 0
  {
    if |path| > 1 {
      var rest, next := path[..|path| - 1], path[|path| - 1];
      EnteredOnce(rest, v);
      EntriesNext(rest, next, v);
      assert rest + [next] == path;
      assert forall i :: 0 <= i < |rest| ==> rest[i] == path[i];
    }
  }

  lemma {:induction false} NotEntered(path: seq<nat>, v: nat)
    requires v !in path
    ensures Entries(path, v) == 0
  {
    if |path| >= 2 {
      NotEntered(path[..|path| - 1], v);
    }
  }

  // Edge p is a step of a recursive call stack that has statistics, among the
  // first n nodes of the tree.
  ghost predicate Recursive(f: Profile, n: nat, p: (Place, Place)) {
    exists i :: 0 <= i < n && i < |f.order| && SiteAt(f, f.order[i]).data != 0 && p in Loops(Path(f, f.order[i]))
  }

  // The stack of call site m is that of one of the first n nodes of the tree.
  ghost predicate SeenBefore(f: Profile, n: nat, m: nat) {
    exists i :: 0 <= i < n && i < |f.order| && SiteAt(f, f.order[i]).data != 0 && Path(f, f.order[i]) == Path(f, m)
  }

  lemma RecursiveNext(f: Profile, i: nat)
    requires i < |f.order|
    ensures forall p :: Recursive(f, i + 1, p) <==>
      Recursive(f, i, p) || (SiteAt(f, f.order[i]).data != 0 && p in Loops(Path(f, f.order[i])))
    ensures forall p :: SeenBefore(f, i, f.order[i]) && p in Loops(Path(f, f.order[i])) ==> Recursive(f, i, p)
    ensures forall m :: SeenBefore(f, i, m) ==> SeenBefore(f, i + 1, m)
    ensures forall m :: SiteAt(f, f.order[i]).data != 0 && Path(f, m) == Path(f, f.order[i]) ==> SeenBefore(f, i + 1, m)
  {
  }

  // ---- Sums over call stacks ----

  // d, times over.
  function Scale(times: nat, d: int): int {
    if times == 0 then 0 else Scale(times - 1, d) + d
  }

  lemma {:induction false} ScaleMore(s: nat, t: nat, d: int)
    ensures Scale(s + t, d) == Scale(s, d) + Scale(t, d)
    decreases t
  {
    if t > 0 {
      ScaleMore(s, t - 1, d);
    }
  }

  lemma {:induction false} ScaleSum(t: nat, a: int, b: int)
    ensures Scale(t, a + b) == Scale(t, a) + Scale(t, b)
    ensures a >= 0 ==> Scale(t, a) >= 0
  {
    if t > 0 {
      ScaleSum(t - 1, a, b);
    }
  }

  lemma {:induction false} ScaleNone(t: nat)
    ensures Scale(t, 0) == 0
  {
    if t > 0 {
      ScaleNone(t - 1);
    }
  }

  lemma ScaleOnce(d: int)
    ensures Scale(1, d) == d
  {
    assert Scale(0, d) == 0;
  }

  // How often a call stack goes a way: from the start to the finish, leaving
  // each vertex once, however often it passes, and reaching it as often as it
  // is entered.
  function Times(f: Profile, k: nat, w: Way): nat {
    match w
    case Leaving(Start) => 1
    case Leaving(Finish) => 0
    case Leaving(Vertex(key)) => if key in Path(f, k) then 1 else 0
    case Reaching(Start) => 0
    case Reaching(Finish) => 1
    case Reaching(Vertex(key)) =>
      var path := Path(f, k);
      Entries(path, key) + if path != [] && path[|path| - 1] == key then 1 else 0
  }

  // What the call stack of k adds.
  function Share(f: Profile, k: nat, w: Way): nat {
    ScaleSum(Times(f, k, w), WeightOf(f, k), 0);
    Scale(Times(f, k, w), WeightOf(f, k))
  }

  // The shares of the first n nodes of the tree that are among the first i or
  // have been summed already.
  ghost function Shares(f: Profile, n: nat, i: nat, done: set<nat>, w: Way): nat
    requires n <= |f.order|
  {
    if n == 0 then 0
    else Shares(f, n - 1, i, done, w) + if n - 1 < i || f.order[n - 1] in done then Share(f, f.order[n - 1], w) else 0
  }

  ghost function AllShares(f: Profile, w: Way): nat {
    Shares(f, |f.order|, |f.order|, {}, w)
  }

  lemma {:induction false} SharesAll(f: Profile, n: nat, done: set<nat>, w: Way)
    requires n <= |f.order|
    ensures Shares(f, n, |f.order|, done, w) == Shares(f, n, |f.order|, {}, w)
  {
    if n > 0 {
      SharesAll(f, n - 1, done, w);
    }
  }

  lemma {:induction false} SharesNone(f: Profile, n: nat, w: Way)
    requires n <= |f.order|
    ensures Shares(f, n, 0, {}, w) == 0
  {
    if n > 0 {
      SharesNone(f, n - 1, w);
    }
  }

  lemma {:induction false} SharesNext(f: Profile, n: nat, i: nat, done: set<nat>, w: Way)
    requires n <= |f.order| && i < |f.order|
    ensures Shares(f, n, i + 1, done, w)
            == Shares(f, n, i, done, w) + if i < n && f.order[i] !in done then Share(f, f.order[i], w) else 0
  {
    if n > 0 {
      SharesNext(f, n - 1, i, done, w);
    }
  }

  lemma {:induction false} SharesDone(f: Profile, n: nat, i: nat, done: set<nat>, j: nat, w: Way)
    requires n <= |f.order| && i <= j < |f.order| && f.order[j] !in done
    requires Distinct(f.order)
    ensures Shares(f, n, i, done + {f.order[j]}, w)
            == Shares(f, n, i, done, w) + if j < n then Share(f, f.order[j], w) else 0
  {
    if n > 0 {
      SharesDone(f, n - 1, i, done, j, w);
    }
  }

  // The node itself, after the equal stacks that have been summed with it.
  lemma NodeShares(f: Profile, i: nat, done: set<nat>, d: nat, w: Way)
    requires i < |f.order| && f.order[i] !in done
    ensures var n := f.order[i];
      && Shares(f, |f.order|, i + 1, done, w)
         == Shares(f, |f.order|, i, done, w) + Scale(Times(f, n, w), WeightOf(f, n))
      && Scale(Times(f, n, w), d) == Scale(Times(f, n, w), WeightOf(f, n)) + Scale(Times(f, n, w), d - WeightOf(f, n))
  {
    var n := f.order[i];
    SharesNext(f, |f.order|, i, done, w);
    ScaleSum(Times(f, n, w), WeightOf(f, n), d - WeightOf(f, n));
  }

  // The edges have what the first i nodes of the tree, and those that were
  // summed with them, have added.
  ghost predicate Sums(f: Profile, i: nat, edges: seq<Edge>, done: set<nat>) {
    forall w :: Flow(edges, w) == Shares(f, |f.order|, i, done, w)
  }

  lemma SumsNone(f: Profile)
    ensures Sums(f, 0, [], {})
  {
    forall w
      ensures Shares(f, |f.order|, 0, {}, w) == 0
    {
      SharesNone(f, |f.order|, w);
    }
  }

  lemma SumsAll(f: Profile, edges: seq<Edge>, done: set<nat>)
    requires Sums(f, |f.order|, edges, done)
    ensures forall w :: Flow(edges, w) == AllShares(f, w)
  {
    forall w
      ensures Flow(edges, w) == AllShares(f, w)
    {
      SharesAll(f, |f.order|, done, w);
    }
  }

  // Nothing is added for a call site without statistics, or with statistics
  // that were summed before.
  lemma SumsSkip(f: Profile, i: nat, edges: seq<Edge>, done: set<nat>)
    requires i < |f.order| && Sums(f, i, edges, done)
    requires SiteAt(f, f.order[i]).data == 0 || f.order[i] in done
    ensures Sums(f, i + 1, edges, done)
  {
    forall w
      ensures Shares(f, |f.order|, i + 1, done, w) == Shares(f, |f.order|, i, done, w)
    {
      SharesNext(f, |f.order|, i, done, w);
      ScaleNone(Times(f, f.order[i], w));
    }
  }

  // d is the weight of call site order[i] and of those equal stacks that are in
  // done and not in before.
  ghost predicate Gathered(f: Profile, i: nat, before: set<nat>, done: set<nat>, d: nat)
    requires i < |f.order|
  {
    forall w :: Shares(f, |f.order|, i, done, w)
                == Shares(f, |f.order|, i, before, w) + Scale(Times(f, f.order[i], w), d - WeightOf(f, f.order[i]))
  }

  lemma GatheredNone(f: Profile, i: nat, done: set<nat>)
    requires i < |f.order|
    ensures Gathered(f, i, done, done, WeightOf(f, f.order[i]))
  {
    forall w
      ensures Scale(Times(f, f.order[i], w), 0) == 0
    {
      ScaleNone(Times(f, f.order[i], w));
    }
  }

  lemma GatheredMore(f: Profile, i: nat, before: set<nat>, done: set<nat>, d: nat, j: nat)
    requires ProfileOk(f) && i < j < |f.order| && Gathered(f, i, before, done, d) && f.order[j] !in done
    requires Path(f, f.order[j]) == Path(f, f.order[i])
    ensures Gathered(f, i, before, done + {f.order[j]}, d + WeightOf(f, f.order[j]))
  {
    var n, p := f.order[i], f.order[j];
    forall w
      ensures Shares(f, |f.order|, i, done + {p}, w)
              == Shares(f, |f.order|, i, before, w) + Scale(Times(f, n, w), d + WeightOf(f, p) - WeightOf(f, n))
    {
      SharesDone(f, |f.order|, i, done, j, w);
      ScaleSum(Times(f, n, w), d - WeightOf(f, n), WeightOf(f, p));
      assert d - WeightOf(f, n) + WeightOf(f, p) == d + WeightOf(f, p) - WeightOf(f, n);
      assert Times(f, p, w) == Times(f, n, w);
    }
  }

  // The stack of order[i] is added with all that was gathered for it.
  lemma SumsMore(f: Profile, i: nat, was: seq<Edge>, now: seq<Edge>, before: set<nat>, done: set<nat>, d: nat)
    requires i < |f.order| && f.order[i] !in done && Sums(f, i, was, before) && Gathered(f, i, before, done, d)
    requires StackFlows(f, f.order[i], d, was, now)
    ensures Sums(f, i + 1, now, done)
  {
    forall w
      ensures Flow(now, w) == Shares(f, |f.order|, i + 1, done, w)
    {
      NodeShares(f, i, done, d, w);
    }
  }

  // The stack of call site n has been added with the statistics d.
  ghost predicate StackFlows(f: Profile, n: nat, d: nat, was: seq<Edge>, now: seq<Edge>) {
    forall w :: Flow(now, w) == Flow(was, w) + Scale(Times(f, n, w), d)
  }

  // What leaves the start is what reaches the finish.
  lemma {:induction false} TotalsAgree(f: Profile, n: nat)
    requires n <= |f.order|
    ensures Shares(f, n, |f.order|, {}, Reaching(Finish)) == Shares(f, n, |f.order|, {}, Leaving(Start))
  {
    if n > 0 {
      TotalsAgree(f, n - 1);
    }
  }

  // No stack that has statistics and passes through v is recursive.
  ghost predicate Straight(f: Profile, v: nat) {
    forall i :: 0 <= i < |f.order| && SiteAt(f, f.order[i]).data != 0 && v in Path(f, f.order[i]) ==>
      Distinct(Path(f, f.order[i]))
  }

  // Then what reaches the vertex is what leaves it.
  lemma {:induction false} ReachingIsLeaving(f: Profile, n: nat, v: nat)
    requires n <= |f.order| && Straight(f, v) && forall i :: 0 <= i < |f.order| ==> f.order[i] != 0
    ensures Shares(f, n, |f.order|, {}, Reaching(Vertex(v))) == Shares(f, n, |f.order|, {}, Leaving(Vertex(v)))
  {
    if n > 0 {
      ReachingIsLeaving(f, n - 1, v);
      var k := f.order[n - 1];
      if SiteAt(f, k).data == 0 {
        ScaleNone(Times(f, k, Reaching(Vertex(v))));
        ScaleNone(Times(f, k, Leaving(Vertex(v))));
      } else if v in Path(f, k) {
        EnteredOnce(Path(f, k), v);
      } else {
        NotEntered(Path(f, k), v);
      }
    }
  }

  // ---- Comparing call stacks ----

  // src/mprof.c:362-363 and 724-725
  predicate Matches(f: Profile, a: nat, b: nat) {
    var s, t := SiteAt(f, a), SiteAt(f, b);
    s.addr == t.addr || (!f.useAddresses && s.symbol != 0 && s.symbol == t.symbol)
  }

  lemma MatchesKey(f: Profile, a: nat, b: nat)
    requires ProfileOk(f) && 1 <= a <= |f.sites| && 1 <= b <= |f.sites| && Matches(f, a, b)
    ensures Key(f, a) == Key(f, b)
  {
  }

  // The callers of two call sites match one by one.
  predicate SameCallers(f: Profile, a: nat, b: nat)
    decreases a
  {
    var p, q := SiteAt(f, a).parent, SiteAt(f, b).parent;
    if p == 0 || q == 0 || p >= a then p == 0 && q == 0
    else Matches(f, p, q) && SameCallers(f, p, q)
  }

  lemma {:induction false} SameCallersPath(f: Profile, a: nat, b: nat)
    requires ProfileOk(f) && 1 <= a <= |f.sites| && 1 <= b <= |f.sites|
    requires Matches(f, a, b) && SameCallers(f, a, b)
    ensures Path(f, a) == Path(f, b)
    decreases a
  {
    MatchesKey(f, a, b);
    if SiteAt(f, a).parent != 0 {
      SameCallersPath(f, SiteAt(f, a).parent, SiteAt(f, b).parent);
    }
  }

  // The first n callers of two call sites match one by one, and neither has
  // more of them than the other.
  predicate SameFirst(f: Profile, a: nat, b: nat, n: nat)
    decreases n
  {
    var p, q := SiteAt(f, a).parent, SiteAt(f, b).parent;
    if n == 0 then true
    else if p == 0 || q == 0 then p == 0 && q == 0
    else Matches(f, p, q) && SameFirst(f, p, q, n - 1)
  }

  lemma {:induction false} DeepEnough(f: Profile, a: nat, b: nat, n: nat)
    requires ProfileOk(f) && 1 <= a <= |f.sites| && 1 <= b <= |f.sites| && a <= n
    ensures SameFirst(f, a, b, n) <==> SameCallers(f, a, b)
    decreases n
  {
    var p, q := SiteAt(f, a).parent, SiteAt(f, b).parent;
    if p != 0 && q != 0 {
      DeepEnough(f, p, q, n - 1);
    }
  }

  // src/mprof.c:352-367: with c, or without a limit, all callers are compared.
  method CompareStack(f: Profile, a0: nat, b0: nat, c: bool, maxstack: nat) returns (same: bool)
    requires ProfileOk(f) && 1 <= a0 <= |f.sites| && 1 <= b0 <= |f.sites|
    ensures c || maxstack == 0 ==> (same <==> SameCallers(f, a0, b0))
    ensures !c && maxstack != 0 ==> (same <==> SameFirst(f, a0, b0, maxstack - 1))
  {
    var a, b, i := a0, b0, 1;
    while c || maxstack == 0 || i < maxstack
      invariant 1 <= a <= |f.sites| && 1 <= b <= |f.sites|
      invariant SameCallers(f, a0, b0) <==> SameCallers(f, a, b)
      invariant !c && maxstack != 0 ==>
        1 <= i <= maxstack && (SameFirst(f, a0, b0, maxstack - 1) <==> SameFirst(f, a, b, maxstack - i))
      decreases a
    {
      var p, q := f.sites[a - 1].parent, f.sites[b - 1].parent;
      if p == 0 || q == 0 {
        return p == 0 && q == 0;
      }
      a, b := p, q;
      var s, t := f.sites[a - 1], f.sites[b - 1];
      if s.addr != t.addr && (f.useAddresses || s.symbol == 0 || s.symbol != t.symbol) {
        return false;
      }
      i := i + 1;
    }
    return true;
  }

  // How often the way is gone by a step from u to v, and by all the steps along
  // visited, whose first vertex has its share already.
  function ByStep(visited: seq<nat>, u: nat, v: nat, w: Way): nat {
    if v !in visited && On(Vertex(v), Vertex(u), w) then 1 else 0
  }

  function Along(visited: seq<nat>, w: Way): nat
    requires visited != []
  {
    match w
    case Leaving(Vertex(key)) => if key in visited && key != visited[0] then 1 else 0
    case Reaching(Vertex(key)) => Entries(visited, key)
    case _ => 0
  }

  lemma AlongNext(visited: seq<nat>, v: nat, w: Way, d: nat)
    requires visited != []
    ensures Along(visited + [v], w) == Along(visited, w) + ByStep(visited, visited[|visited| - 1], v, w)
    ensures Scale(Along(visited + [v], w), d)
            == Scale(Along(visited, w), d) + Scale(ByStep(visited, visited[|visited| - 1], v, w), d)
  {
    if w.Reaching? && w.x.Vertex? {
      EntriesNext(visited, v, w.x.key);
    }
    ScaleMore(Along(visited, w), ByStep(visited, visited[|visited| - 1], v, w), d);
  }

  // The first edge, the walk and the last edge make up the stack.
  lemma WholeStack(f: Profile, n: nat, w: Way, d: nat)
    requires n != 0
    ensures var path := Path(f, n);
      Scale(Times(f, n, w), d)
      == (if On(Vertex(path[0]), Finish, w) then d else 0) + Scale(Along(path, w), d)
         + if On(Start, Vertex(path[|path| - 1]), w) then d else 0
  {
    var path := Path(f, n);
    var first, last := if On(Vertex(path[0]), Finish, w) then 1 else 0,
                       if On(Start, Vertex(path[|path| - 1]), w) then 1 else 0;
    assert Times(f, n, w) == first + Along(path, w) + last;
    ScaleMore(first, Along(path, w), d);
    ScaleMore(first + Along(path, w), last, d);
  }

  // One step from vertex u to vertex v: v gets its share unless it has been
  // visited, and then the edge is flagged.
  ghost predicate Climbed(was: seq<Edge>, now: seq<Edge>, visited: seq<nat>, u: nat, v: nat, d: nat) {
    && (forall w :: Flow(now, w) == Flow(was, w) + Scale(ByStep(visited, u, v, w), d))
    && Flagged(now) == Flagged(was) + if v in visited then {(Vertex(v), Vertex(u))} else {}
  }

  // All the steps along visited.
  ghost predicate Walked(was: seq<Edge>, now: seq<Edge>, visited: seq<nat>, d: nat) {
    && visited != []
    && (forall w :: Flow(now, w) == Flow(was, w) + Scale(Along(visited, w), d))
    && Flagged(now) == Flagged(was) + Loops(visited)
  }

  lemma WalkedOn(was: seq<Edge>, mid: seq<Edge>, now: seq<Edge>, visited: seq<nat>, v: nat, d: nat)
    requires Walked(was, mid, visited, d) && Climbed(mid, now, visited, visited[|visited| - 1], v, d)
    ensures Walked(was, now, visited + [v], d)
  {
    LoopsNext(visited, v);
    forall w
      ensures Flow(now, w) == Flow(was, w) + Scale(Along(visited + [v], w), d)
    {
      AlongNext(visited, v, w, d);
    }
  }

  // The first edge, the walk and the last edge, one after the other.
  lemma StackAdded(f: Profile, n: nat, d: nat, was: seq<Edge>, first: seq<Edge>, mid: seq<Edge>, now: seq<Edge>)
    requires n != 0 && Walked(first, mid, Path(f, n), d)
    requires var u := Vertex(Path(f, n)[0]);
      && (forall w :: Flow(first, w) == Flow(was, w) + if On(u, Finish, w) then d else 0)
      && Flagged(first) == Flagged(was)
    requires var v := Vertex(Path(f, n)[|Path(f, n)| - 1]);
      && (forall w :: Flow(now, w) == Flow(mid, w) + if On(Start, v, w) then d else 0)
      && Flagged(now) == Flagged(mid)
    ensures StackFlows(f, n, d, was, now)
    ensures Flagged(now) == Flagged(was) + Loops(Path(f, n))
  {
    forall w
      ensures Flow(now, w) == Flow(was, w) + Scale(Times(f, n, w), d)
    {
      WholeStack(f, n, w, d);
    }
  }

  // visited is the path from call site n, whose vertex is u, to call site p,
  // whose vertex is v.
  ghost predicate Leads(f: Profile, n: nat, p: nat, visited: seq<nat>, u: nat, v: nat) {
    && visited != [] && visited[0] == u && visited[|visited| - 1] == v == Key(f, p)
    && Path(f, n) == visited + Path(f, SiteAt(f, p).parent)
  }

  lemma LeadsOn(f: Profile, n: nat, q: nat, visited: seq<nat>, u: nat)
    requires ProfileOk(f) && 1 <= q <= |f.sites| && visited != [] && visited[0] == u
    requires Path(f, n) == visited + Path(f, q)
    ensures Leads(f, n, q, visited + [Key(f, q)], u, Key(f, q))
  {
    PathFrom(f, q);
    MoveOver(visited, Key(f, q), Path(f, SiteAt(f, q).parent));
  }

  lemma PathFrom(f: Profile, q: nat)
    requires ProfileOk(f) && 1 <= q <= |f.sites|
    ensures Path(f, q) == [Key(f, q)] + Path(f, SiteAt(f, q).parent)
  {
  }

  lemma MoveOver(a: seq<nat>, k: nat, b: seq<nat>)
    ensures a + ([k] + b) == (a + [k]) + b
  {
  }

  lemma EmptyMirror(g: E.View)
    requires E.Ok(g) && g.order == [] && g.parents.Keys == {E.START, E.FINISH}
    ensures Mirrored(g, [], {})
  {
    assert forall e :: e in g.ends ==> e in g.order;
    assert g.ends == map[] && EndsOf([]) == map[];
    assert Nodes({}) == {E.START, E.FINISH};
  }

  lemma HasNode(g: E.View, edges: seq<Edge>, vertices: set<nat>, x: Place)
    requires Mirrored(g, edges, vertices) && (x.Vertex? ==> x.key in vertices)
    ensures NodeOf(x) in g.parents && NodeOf(x) in g.children
  {
    assert NodeOf(x) in g.parents.Keys && NodeOf(x) in g.children.Keys;
  }

  class Graph {
    const f: Profile
    const graph: E.Graph
    var edges: seq<Edge>
    // The tree of vertices: from keys to the call sites that they stand for.
    var vertices: map<nat, nat>
    // The call sites with flag 2, which is used to find cycles, and with flag 1,
    // whose statistics have been added to those of an equal stack.
    var marked: set<nat>
    var done: set<nat>

    ghost predicate Valid()
      reads this, graph
    {
      && ProfileOk(f) && Mirrors(graph.Now(), edges, vertices.Keys)
      && forall x :: x in vertices ==> 1 <= vertices[x] <= |f.sites| && Key(f, vertices[x]) == x
    }

    constructor (f: Profile)
      requires ProfileOk(f)
      ensures Valid() && this.f == f && edges == [] && marked == {} && done == {} && fresh(graph)
    {
      this.f, edges, vertices, marked, done := f, [], map[], {}, {};
      graph := new E.Graph();
      new;
      EmptyMirror(graph.Now());
    }

    // The place has a node in the graph.
    predicate Known(x: Place)
      reads this
    {
      x.Vertex? ==> x.key in vertices
    }

    // __mp_findedge, and addedge if there is no edge yet.
    method EdgeFor(from: Place, to: Place) returns (i: nat)
      requires Valid() && Known(from) && Known(to)
      modifies this`edges, graph
      ensures Valid() && i < |edges| && edges[i].from == from && edges[i].to == to
      ensures forall w :: Flow(edges, w) == old(Flow(edges, w))
      ensures Flagged(edges) == old(Flagged(edges))
    {
      assert Shown(graph.Now());
      HasNode(graph.Now(), edges, vertices.Keys, from);
      HasNode(graph.Now(), edges, vertices.Keys, to);
      var r, _ := graph.FindEdge(NodeOf(from), NodeOf(to));
      if r.Some? {
        i := r.value;
        FoundEdge(edges, i, from, to);
      } else {
        i := NewEdge(from, to);
      }
    }

    // src/mprof.c:685-701
    method NewEdge(from: Place, to: Place) returns (i: nat)
      requires Valid() && NodeOf(from) in graph.children && NodeOf(to) in graph.parents
      modifies this`edges, graph
      ensures Valid() && i < |edges| && edges[i].from == from && edges[i].to == to
      ensures forall w :: Flow(edges, w) == old(Flow(edges, w))
      ensures Flagged(edges) == old(Flagged(edges))
    {
      i := |edges|;
      LinkEdge(from, to);
      AppendFlows(edges, from, to);
      edges := edges + [Edge(from, to, 0, false)];
    }

    method LinkEdge(from: Place, to: Place)
      requires Mirrors(graph.Now(), edges, vertices.Keys)
      requires NodeOf(from) in graph.children && NodeOf(to) in graph.parents
      modifies graph
      ensures Mirrors(graph.Now(), edges + [Edge(from, to, 0, false)], vertices.Keys)
    {
      ghost var was := graph.Now();
      assert Shown(was);
      graph.AddEdge(|edges|, NodeOf(from), NodeOf(to));
      MirroredMore(was, edges, vertices.Keys, Edge(from, to, 0, false), graph.Now());
    }

    // The edge is given d more, or flagged as part of a cycle.
    method SetEdge(i: nat, d: nat, cycle: bool)
      requires Valid() && i < |edges|
      modifies this`edges
      ensures Valid()
      ensures forall w :: Flow(edges, w) == old(Flow(edges, w))
                                            + if On(old(edges)[i].from, old(edges)[i].to, w) then d else 0
      ensures Flagged(edges)
              == old(Flagged(edges)) + if cycle then {(old(edges)[i].from, old(edges)[i].to)} else {}
    {
      var e := Edge(edges[i].from, edges[i].to, edges[i].weight + d, edges[i].cycle || cycle);
      assert Shown(graph.Now());
      MirroredSame(graph.Now(), edges, vertices.Keys, i, e);
      forall w
        ensures Flow(edges[i := e], w) == Flow(edges, w) + if On(e.from, e.to, w) then d else 0
      {
        UpdateSums(edges, i, e, w.x);
      }
      UpdateFlag(edges, i, e, cycle);
      edges := edges[i := e];
    }

    method Contribute(from: Place, to: Place, d: nat, cycle: bool)
      requires Valid() && Known(from) && Known(to)
      modifies this`edges, graph
      ensures Valid() && forall w :: Flow(edges, w) == old(Flow(edges, w)) + if On(from, to, w) then d else 0
      ensures Flagged(edges) == old(Flagged(edges)) + if cycle then {(from, to)} else {}
    {
      var i := EdgeFor(from, to);
      SetEdge(i, d, cycle);
    }

    // src/mprof.c:735-741 and 751-757
    method VertexFor(k: nat) returns (x: nat)
      requires Valid() && 1 <= k <= |f.sites|
      modifies this`vertices, graph
      ensures Valid() && x == Key(f, k) && x in vertices
      ensures forall y :: y in old(vertices) ==> y in vertices && vertices[y] == old(vertices)[y]
      ensures forall y :: y in vertices && y !in old(vertices) ==> y == x && vertices[y] == k
    {
      x := Key(f, k);
      if x !in vertices {
        NewNode(x);
        vertices := vertices[x := k];
        assert vertices.Keys == old(vertices).Keys + {x};
      }
    }

    // src/mprof.c:660-679
    method NewNode(x: nat)
      requires Mirrors(graph.Now(), edges, vertices.Keys) && x !in vertices
      modifies graph
      ensures Mirrors(graph.Now(), edges, vertices.Keys + {x})
    {
      ghost var was := graph.Now();
      assert Shown(was);
      NodeIsNew(was, edges, vertices.Keys, x);
      graph.AddNode(x + 2);
      MirroredNode(was, edges, vertices.Keys, x, graph.Now());
    }

    // The marked call sites are those of the vertices in visited.
    ghost predicate MarksAre(visited: seq<nat>)
      reads this
    {
      && (forall m :: m in marked ==> Key(f, m) in visited && Key(f, m) in vertices && vertices[Key(f, m)] == m)
      && (forall x :: x in visited ==> x in vertices && vertices[x] in marked)
    }

    // src/mprof.c:734-798: one call stack, with the statistics d.
    method AddStack(n: nat, d: nat)
      requires Valid() && 1 <= n <= |f.sites| && marked == {}
      modifies this`edges, this`vertices, this`marked, graph
      ensures Valid() && marked == {}
      ensures StackFlows(f, n, d, old(edges), edges)
      ensures Flagged(edges) == old(Flagged(edges)) + Loops(Path(f, n))
    {
      ghost var was := edges;
      var u := Begin(n, d);
      ghost var first := edges;
      var v, visited := Walk(n, u, d);
      ghost var mid := edges;
      Contribute(Start, Vertex(v), d, false);
      StackAdded(f, n, d, was, first, mid, edges);
      Unmark(n);
    }

    // src/mprof.c:735-747
    method Begin(n: nat, d: nat) returns (u: nat)
      requires Valid() && 1 <= n <= |f.sites| && marked == {}
      modifies this`edges, this`vertices, this`marked, graph
      ensures Valid() && u == Key(f, n) && MarksAre([u])
      ensures forall w :: Flow(edges, w) == old(Flow(edges, w)) + if On(Vertex(u), Finish, w) then d else 0
      ensures Flagged(edges) == old(Flagged(edges))
    {
      u := VertexFor(n);
      Contribute(Vertex(u), Finish, d, false);
      marked := marked + {vertices[u]};
    }

    // src/mprof.c:748-775: from call site n, whose vertex u has its share, to
    // the root.
    method Walk(n: nat, u: nat, d: nat) returns (v: nat, ghost visited: seq<nat>)
      requires Valid() && 1 <= n <= |f.sites| && u == Key(f, n) && MarksAre([u])
      modifies this`edges, this`vertices, this`marked, graph
      ensures Valid() && MarksAre(visited) && visited == Path(f, n) && v == visited[|visited| - 1]
      ensures Walked(old(edges), edges, visited, d)
    {
      var p: nat := n;
      v, visited := u, [u];
      while f.sites[p - 1].parent != 0
        invariant Valid() && 1 <= p <= |f.sites| && MarksAre(visited) && Leads(f, n, p, visited, u, v)
        invariant Walked(old(edges), edges, visited, d)
        decreases p
      {
        p := f.sites[p - 1].parent;
        LeadsOn(f, n, p, visited, u);
        v := Onward(p, v, d, visited, old(edges));
        visited := visited + [v];
      }
    }

    method Onward(p: nat, last: nat, d: nat, ghost visited: seq<nat>, ghost was: seq<Edge>) returns (v: nat)
      requires Valid() && 1 <= p <= |f.sites| && MarksAre(visited) && Walked(was, edges, visited, d)
      requires visited[|visited| - 1] == last
      modifies this`edges, this`vertices, this`marked, graph
      ensures Valid() && v == Key(f, p) && MarksAre(visited + [v]) && Walked(was, edges, visited + [v], d)
    {
      ghost var mid := edges;
      v := Climb(p, last, d, visited);
      WalkedOn(was, mid, edges, visited, v, d);
    }

    // src/mprof.c:750-774: one step towards the root.
    method Climb(p: nat, u: nat, d: nat, ghost visited: seq<nat>) returns (v: nat)
      requires Valid() && 1 <= p <= |f.sites| && MarksAre(visited) && u in visited
      modifies this`edges, this`vertices, this`marked, graph
      ensures Valid() && v == Key(f, p) && MarksAre(visited + [v])
      ensures Climbed(old(edges), edges, visited, u, v, d)
    {
      v := VertexFor(p);
      var before := vertices[v] in marked;
      Contribute(Vertex(v), Vertex(u), if before then 0 else d, before);
      marked := marked + {vertices[v]};
    }

    // src/mprof.c:781-798: the flags of the stack are cleared.
    method Unmark(n: nat)
      requires Valid() && 1 <= n <= |f.sites| && MarksAre(Path(f, n))
      modifies this`marked
      ensures marked == {}
    {
      var p: nat := n;
      while p != 0
        invariant p <= |f.sites|
        invariant forall m :: m in marked ==>
          Key(f, m) in Path(f, p) && Key(f, m) in vertices && vertices[Key(f, m)] == m
        invariant forall x :: x in Path(f, p) ==> x in vertices
        decreases p
      {
        marked := marked - {vertices[Key(f, p)]};
        p := f.sites[p - 1].parent;
      }
    }

    // src/mprof.c:721-733: the statistics of call site order[i] and of the equal
    // stacks that follow it in the tree.
    method Gather(i: nat) returns (d: nat)
      requires ProfileOk(f) && i < |f.order| && f.order[i] !in done
      modifies this`done
      ensures old(done) <= done && f.order[i] !in done && Gathered(f, i, old(done), done, d)
      ensures forall m :: m in done && m !in old(done) ==> Path(f, m) == Path(f, f.order[i])
    {
      var n := f.order[i];
      d := WeightOf(f, n);
      GatheredNone(f, i, done);
      var j := i + 1;
      while j < |f.order| && Matches(f, f.order[j], n)
        invariant i < j <= |f.order|
        invariant old(done) <= done && n !in done && Gathered(f, i, old(done), done, d)
        invariant forall m :: m in done && m !in old(done) ==> Path(f, m) == Path(f, n)
        decreases |f.order| - j
      {
        var p := f.order[j];
        if f.sites[p - 1].data != 0 && p !in done {
          var same := CompareStack(f, n, p, true, 0);
          if same {
            SameCallersPath(f, n, p);
            GatheredMore(f, i, old(done), done, d, j);
            d := d + WeightOf(f, p);
            done := done + {p};
          }
        }
        j := j + 1;
      }
    }

    ghost predicate CyclesAre(i: nat)
      reads this
    {
      && (forall p :: p in Flagged(edges) <==> Recursive(f, i, p))
      && (forall m :: m in done ==> SeenBefore(f, i, m))
    }

    // src/mprof.c:719-799: one turn of the loop.
    method Include(i: nat)
      requires Valid() && i < |f.order| && marked == {} && Sums(f, i, edges, done) && CyclesAre(i)
      modifies this, graph
      ensures Valid() && marked == {} && Sums(f, i + 1, edges, done) && CyclesAre(i + 1)
    {
      var n := f.order[i];
      ghost var flags, was := Flagged(edges), done;
      if f.sites[n - 1].data != 0 && n !in done {
        AddNode(i);
        CyclesMore(f, i, flags, Flagged(edges), was, done);
      } else {
        SumsSkip(f, i, edges, done);
        CyclesSame(f, i, flags, done);
      }
    }

    method AddNode(i: nat)
      requires Valid() && i < |f.order| && marked == {} && Sums(f, i, edges, done) && f.order[i] !in done
      modifies this, graph
      ensures Valid() && marked == {} && Sums(f, i + 1, edges, done) && old(done) <= done && f.order[i] !in done
      ensures Flagged(edges) == old(Flagged(edges)) + Loops(Path(f, f.order[i]))
      ensures forall m :: m in done && m !in old(done) ==> Path(f, m) == Path(f, f.order[i])
    {
      ghost var was, before := edges, done;
      var d := Gather(i);
      AddStack(f.order[i], d);
      SumsMore(f, i, was, edges, before, done, d);
    }

    // src/mprof.c:709-803: what leaves a vertex is the sum of what all call
    // stacks through it have, and all that there is leaves the start and
    // reaches the finish.
    method BuildGraph()
      requires Valid() && edges == [] && marked == {} && done == {}
      modifies this, graph
      ensures forall w :: Flow(edges, w) == AllShares(f, w)
      // The lists of the graph have the same.
      ensures forall x :: Known(x) ==>
        && NodeOf(x) in graph.children && Weights(edges, graph.children[NodeOf(x)]) == AllShares(f, Leaving(x))
        && NodeOf(x) in graph.parents && Weights(edges, graph.parents[NodeOf(x)]) == AllShares(f, Reaching(x))
      // An edge is flagged exactly if some stack goes round a cycle by it.
      ensures forall p :: p in Flagged(edges) <==> Recursive(f, |f.order|, p)
      ensures marked == {} && done == {}
    {
      SumsNone(f);
      for i := 0 to |f.order|
        invariant Valid() && marked == {} && Sums(f, i, edges, done) && CyclesAre(i)
      {
        Include(i);
      }
      SumsAll(f, edges, done);
      AllLists();
      done := {};
    }

    lemma AllLists()
      requires Valid() && forall w :: Flow(edges, w) == AllShares(f, w)
      ensures forall x :: Known(x) ==>
        && NodeOf(x) in graph.children && Weights(edges, graph.children[NodeOf(x)]) == AllShares(f, Leaving(x))
        && NodeOf(x) in graph.parents && Weights(edges, graph.parents[NodeOf(x)]) == AllShares(f, Reaching(x))
    {
      assert Shown(graph.Now());
      forall x | Known(x)
        ensures NodeOf(x) in graph.children && Weights(edges, graph.children[NodeOf(x)]) == AllShares(f, Leaving(x))
        ensures NodeOf(x) in graph.parents && Weights(edges, graph.parents[NodeOf(x)]) == AllShares(f, Reaching(x))
      {
        MirroredLists(graph.Now(), edges, vertices.Keys, x, true);
        MirroredLists(graph.Now(), edges, vertices.Keys, x, false);
      }
    }
  }

  // A stack that is added brings its own cycles, and those of the equal stacks
  // that are summed with it.
  lemma CyclesMore(f: Profile, i: nat, flags: set<(Place, Place)>, now: set<(Place, Place)>, was: set<nat>,
                   done: set<nat>)
    requires i < |f.order| && SiteAt(f, f.order[i]).data != 0 && now == flags + Loops(Path(f, f.order[i]))
    requires forall p :: p in flags <==> Recursive(f, i, p)
    requires forall m :: m in was ==> SeenBefore(f, i, m)
    requires forall m :: m in done && m !in was ==> Path(f, m) == Path(f, f.order[i])
    ensures forall p :: p in now <==> Recursive(f, i + 1, p)
    ensures forall m :: m in done ==> SeenBefore(f, i + 1, m)
  {
    RecursiveNext(f, i);
  }

  lemma CyclesSame(f: Profile, i: nat, flags: set<(Place, Place)>, done: set<nat>)
    requires i < |f.order| && (SiteAt(f, f.order[i]).data == 0 || f.order[i] in done)
    requires forall p :: p in flags <==> Recursive(f, i, p)
    requires forall m :: m in done ==> SeenBefore(f, i, m)
    ensures forall p :: p in flags <==> Recursive(f, i + 1, p)
    ensures forall m :: m in done ==> SeenBefore(f, i + 1, m)
  {
    RecursiveNext(f, i);
  }
}
