// The directed graphs of src/graph.c: every edge is in its child's list of
// parents and in its parent's list of children, both updated in place.
module EdgeGraph {
  import opened Memory

  // The two sentinel nodes of every graph.
  const START: nat := 0
  const FINISH: nat := 1

  datatype Ends = Ends(parent: nat, child: nat)

  function End(v: Ends, into: bool): nat {
    if into then v.child else v.parent
  }

  predicate Joins(ends: map<nat, Ends>, e: nat, n: nat, into: bool) {
    e in ends && End(ends[e], into) == n
  }

  // The edges of order that lead to node n, or away from it.
  function Side(ends: map<nat, Ends>, order: seq<nat>, n: nat, into: bool): seq<nat> {
    if order == [] then []
    else
      var e := order[|order| - 1];
      Side(ends, order[..|order| - 1], n, into) + if Joins(ends, e, n, into) then [e] else []
  }

  // The edges of order that are not in gone.
  function Without(order: seq<nat>, gone: set<nat>): seq<nat> {
    if order == [] then []
    else
      var e := order[|order| - 1];
      Without(order[..|order| - 1], gone) + if e in gone then [] else [e]
  }

  lemma {:induction false} SideHas(ends: map<nat, Ends>, order: seq<nat>, n: nat, into: bool, e: nat)
    ensures e in Side(ends, order, n, into) <==> e in order && Joins(ends, e, n, into)
  {
    if order != [] {
      var last, rest := order[|order| - 1], order[..|order| - 1];
      SideHas(ends, rest, n, into, e);
      assert order == rest + [last];
    }
  }

  lemma {:induction false} WithoutHas(order: seq<nat>, gone: set<nat>, e: nat)
    ensures e in Without(order, gone) <==> e in order && e !in gone
  {
    if order != [] {
      var last, rest := order[|order| - 1], order[..|order| - 1];
      WithoutHas(rest, gone, e);
      assert order == rest + [last];
    }
  }

  lemma WithoutLast(q: seq<nat>, e: nat, gone: set<nat>)
    ensures Without(q + [e], gone) == if e in gone then Without(q, gone) else Without(q, gone) + [e]
  {
    assert (q + [e])[..|q|] == q;
  }

  lemma SideLast(ends: map<nat, Ends>, q: seq<nat>, e: nat, n: nat, into: bool)
    ensures Side(ends, q + [e], n, into)
            == if Joins(ends, e, n, into) then Side(ends, q, n, into) + [e] else Side(ends, q, n, into)
  {
    assert (q + [e])[..|q|] == q;
  }

  // Taking edges away does not change the order of the others.
  lemma {:induction false} SideWithout(ends: map<nat, Ends>, order: seq<nat>, gone: set<nat>, n: nat, into: bool)
    ensures Side(ends - gone, Without(order, gone), n, into) == Without(Side(ends, order, n, into), gone)
  {
    if order != [] {
      var e, rest := order[|order| - 1], order[..|order| - 1];
      SideWithout(ends, rest, gone, n, into);
      OneWithout(ends, rest, e, gone, n, into);
      assert order == rest + [e];
    }
  }

  lemma OneWithout(ends: map<nat, Ends>, rest: seq<nat>, e: nat, gone: set<nat>, n: nat, into: bool)
    requires Side(ends - gone, Without(rest, gone), n, into) == Without(Side(ends, rest, n, into), gone)
    ensures Side(ends - gone, Without(rest + [e], gone), n, into) == Without(Side(ends, rest + [e], n, into), gone)
  {
    var was, now := Side(ends, rest, n, into), Without(rest, gone);
    WithoutLast(rest, e, gone);
    SideLast(ends, rest, e, n, into);
    SideLast(ends - gone, now, e, n, into);
    WithoutLast(was, e, gone);
  }

  // Edges outside the order do not matter.
  lemma {:induction false} SideFrame(ends: map<nat, Ends>, order: seq<nat>, e: nat, v: Ends, n: nat, into: bool)
    requires e !in order
    ensures Side(ends[e := v], order, n, into) == Side(ends, order, n, into)
  {
    if order != [] {
      SideFrame(ends, order[..|order| - 1], e, v, n, into);
    }
  }

  lemma {:induction false} WithoutTwice(order: seq<nat>, a: set<nat>, b: set<nat>)
    ensures Without(Without(order, a), b) == Without(order, a + b)
  {
    if order != [] {
      var e, rest := order[|order| - 1], order[..|order| - 1];
      WithoutTwice(rest, a, b);
      if e in a {
        assert Without(order, a) == Without(rest, a);
      } else {
        WithoutLast(Without(rest, a), e, b);
      }
    }
  }

  lemma {:induction false} WithoutOther(q: seq<nat>, gone: set<nat>)
    requires forall e :: e in gone ==> e !in q
    ensures Without(q, gone) == q
  {
    if q != [] {
      var e, rest := q[|q| - 1], q[..|q| - 1];
      assert q == rest + [e];
      WithoutOther(rest, gone);
    }
  }

  lemma {:induction false} WithoutOne(q: seq<nat>, e: nat)
    requires e in q && Distinct(q)
    ensures |Without(q, {e})| == |q| - 1 && Distinct(Without(q, {e}))
  {
    var last, rest := q[|q| - 1], q[..|q| - 1];
    assert q == rest + [last];
    WithoutLast(rest, last, {e});
    DistinctFirst(rest, last);
    if last == e {
      WithoutOther(rest, {e});
    } else {
      WithoutOne(rest, e);
      WithoutHas(rest, {e}, last);
      DistinctLast(Without(rest, {e}), last);
    }
  }

  lemma DistinctFirst(q: seq<nat>, e: nat)
    requires Distinct(q + [e])
    ensures Distinct(q) && e !in q
  {
    var r := q + [e];
    assert r[|q|] == e && forall i :: 0 <= i < |q| ==> r[i] == q[i];
  }

  lemma DistinctLast(q: seq<nat>, e: nat)
    requires Distinct(q) && e !in q
    ensures Distinct(q + [e])
  {
  }

  // Every list holds exactly the edges of its node, in the order in which they
  // were added.
  ghost predicate Lists(lists: map<nat, seq<nat>>, ends: map<nat, Ends>, order: seq<nat>, into: bool) {
    forall n {:trigger lists[n]} :: n in lists ==> lists[n] == Side(ends, order, n, into)
  }

  lemma AddToLists(lists: map<nat, seq<nat>>, ends: map<nat, Ends>, order: seq<nat>, into: bool, e: nat, v: Ends,
                   n: nat)
    requires Lists(lists, ends, order, into) && e !in order && n == End(v, into) && n in lists
    ensures Lists(lists[n := lists[n] + [e]], ends[e := v], order + [e], into)
  {
    forall k | k in lists
      ensures Side(ends[e := v], order + [e], k, into) == lists[k] + if k == n then [e] else []
    {
      SideFrame(ends, order, e, v, k, into);
      SideLast(ends[e := v], order, e, k, into);
    }
  }

  lemma RemoveFromLists(lists: map<nat, seq<nat>>, ends: map<nat, Ends>, order: seq<nat>, into: bool, e: nat, n: nat)
    requires Lists(lists, ends, order, into) && e in ends && n == End(ends[e], into) && n in lists
    ensures Lists(lists[n := Without(lists[n], {e})], ends - {e}, Without(order, {e}), into)
  {
    forall k | k in lists
      ensures Side(ends - {e}, Without(order, {e}), k, into) == if k == n then Without(lists[k], {e}) else lists[k]
    {
      SideWithout(ends, order, {e}, k, into);
      if k != n {
        SideHas(ends, order, k, into, e);
        WithoutOther(lists[k], {e});
      }
    }
  }

  lemma {:induction false} NoEdges(ends: map<nat, Ends>, order: seq<nat>, n: nat, into: bool)
    requires forall e :: e in ends ==> End(ends[e], into) != n
    ensures Side(ends, order, n, into) == []
  {
    if order != [] {
      NoEdges(ends, order[..|order| - 1], n, into);
    }
  }

  // The first edge of a list with some property is the first of all such edges.
  lemma {:induction false} SideFirst(ends: map<nat, Ends>, order: seq<nat>, n: nat, into: bool, i: nat)
    returns (j: nat)
    requires i < |Side(ends, order, n, into)|
    ensures j < |order| && order[j] == Side(ends, order, n, into)[i]
    ensures forall k :: 0 <= k < j && Joins(ends, order[k], n, into) ==>
              order[k] in Side(ends, order, n, into)[..i]
  {
    var e, rest := order[|order| - 1], order[..|order| - 1];
    var s := Side(ends, rest, n, into);
    if i < |s| {
      j := SideFirst(ends, rest, n, into, i);
      assert Side(ends, order, n, into)[..i] == s[..i];
    } else {
      j := |rest|;
      assert Side(ends, order, n, into)[..i] == s;
      forall k | 0 <= k < j && Joins(ends, order[k], n, into)
        ensures order[k] in s
      {
        assert rest[k] in rest;
        SideHas(ends, rest, n, into, rest[k]);
      }
    }
  }

  ghost function Touching(ends: map<nat, Ends>, n: nat): set<nat> {
    set e | e in ends && (ends[e].parent == n || ends[e].child == n)
  }

  ghost function Joining(ends: map<nat, Ends>, n: nat, into: bool): set<nat> {
    set e | e in ends && End(ends[e], into) == n
  }

  lemma OneFurther(s: seq<nat>, i: nat)
    requires i < |s|
    ensures forall x :: x in s[..i + 1] <==> x in s[..i] || x == s[i]
  {
  }

  lemma NoneGone(ends: map<nat, Ends>)
    ensures ends - {} == ends
  {
  }

  lemma OneMoreGone(ends: map<nat, Ends>, order: seq<nat>, gone: set<nat>, e: nat, n: nat, into: bool)
    requires gone <= Joining(ends, n, into) && Joins(ends - gone, e, n, into)
    ensures gone + {e} <= Joining(ends, n, into)
    ensures ends - gone - {e} == ends - (gone + {e})
    ensures Without(Without(order, gone), {e}) == Without(order, gone + {e})
  {
    WithoutTwice(order, gone, {e});
  }

  lemma AllGone(ends: map<nat, Ends>, gone: set<nat>, n: nat, into: bool)
    requires gone <= Joining(ends, n, into) && forall e :: e in ends - gone ==> !Joins(ends - gone, e, n, into)
    ensures gone == Joining(ends, n, into)
  {
    forall e | e in Joining(ends, n, into)
      ensures e in gone
    {
      assert e !in gone ==> e in ends - gone && Joins(ends - gone, e, n, into);
    }
  }

  // Taking away the edges on one side and then those on the other.
  lemma BothSides(ends: map<nat, Ends>, order: seq<nat>, n: nat)
    ensures var a := Joining(ends, n, true); var b := Joining(ends - a, n, false);
      && ends - a - b == ends - Touching(ends, n) && Touching(ends - a - b, n) == {}
      && Without(Without(order, a), b) == Without(order, Touching(ends, n))
  {
    var a := Joining(ends, n, true);
    var b := Joining(ends - a, n, false);
    WithoutTwice(order, a, b);
    assert a + b == Touching(ends, n);
  }

  lemma FirstAdded(g: View, p: nat, c: nat, i: nat) returns (at: nat)
    requires Ok(g) && c in g.parents && i < |g.parents[c]|
    requires forall x :: x in g.parents[c][..i] ==> x in g.ends && g.ends[x] != Ends(p, c)
    ensures at < |g.order| && g.order[at] == g.parents[c][i]
    ensures forall k :: 0 <= k < at ==> g.order[k] in g.ends && g.ends[g.order[k]] != Ends(p, c)
  {
    at := SideFirst(g.ends, g.order, c, true, i);
    forall k | 0 <= k < at
      ensures g.order[k] in g.ends && g.ends[g.order[k]] != Ends(p, c)
    {
      assert g.order[k] in g.order;
    }
  }

  datatype View = View(parents: map<nat, seq<nat>>, children: map<nat, seq<nat>>, ends: map<nat, Ends>,
                       nodes: int, edges: int, order: seq<nat>)

  // The counts and the lists are right, and both ends of an edge are nodes.
  ghost predicate Ok(g: View) {
    && START in g.parents && FINISH in g.parents && g.parents.Keys == g.children.Keys
    && g.nodes == |g.parents.Keys| - 2 && g.edges == |g.order| && EdgesOk(g.parents.Keys, g.ends, g.order)
    && Lists(g.parents, g.ends, g.order, true) && Lists(g.children, g.ends, g.order, false)
  }

  ghost predicate EdgesOk(nodes: set<nat>, ends: map<nat, Ends>, order: seq<nat>) {
    && Distinct(order) && (forall e :: e in order <==> e in ends)
    && (forall e :: e in ends ==> ends[e].parent in nodes && ends[e].child in nodes)
  }

  function Added(g: View, e: nat, p: nat, c: nat): View
    requires p in g.children && c in g.parents
  {
    View(g.parents[c := g.parents[c] + [e]], g.children[p := g.children[p] + [e]], g.ends[e := Ends(p, c)], g.nodes,
         g.edges + 1, g.order + [e])
  }

  lemma AddedEdges(nodes: set<nat>, ends: map<nat, Ends>, order: seq<nat>, e: nat, v: Ends)
    requires EdgesOk(nodes, ends, order) && e !in ends && v.parent in nodes && v.child in nodes
    ensures e !in order && EdgesOk(nodes, ends[e := v], order + [e])
  {
    assert e !in order;
  }

  lemma AddedLists(g: View, e: nat, p: nat, c: nat)
    requires Ok(g) && e !in g.ends && p in g.children && c in g.parents
    ensures var h := Added(g, e, p, c); Lists(h.parents, h.ends, h.order, true)
    ensures var h := Added(g, e, p, c); Lists(h.children, h.ends, h.order, false)
  {
    assert e !in g.order;
    AddToLists(g.parents, g.ends, g.order, true, e, Ends(p, c), c);
    AddToLists(g.children, g.ends, g.order, false, e, Ends(p, c), p);
  }

  lemma AddedKeys(g: View, e: nat, p: nat, c: nat)
    requires p in g.children && c in g.parents
    ensures var h := Added(g, e, p, c); h.parents.Keys == g.parents.Keys && h.children.Keys == g.children.Keys
  {
  }

  lemma AddedOk(g: View, e: nat, p: nat, c: nat)
    requires Ok(g) && e !in g.ends && p in g.children && c in g.parents
    ensures Ok(Added(g, e, p, c)) && Added(g, e, p, c).parents.Keys == g.parents.Keys
  {
    AddedLists(g, e, p, c);
    AddedKeys(g, e, p, c);
    assert p in g.parents.Keys;
    AddedEdges(g.parents.Keys, g.ends, g.order, e, Ends(p, c));
    KeysSame(g, Added(g, e, p, c));
  }

  lemma KeysSame(g: View, h: View)
    requires g.parents.Keys == h.parents.Keys
    ensures START in g.parents <==> START in h.parents
    ensures FINISH in g.parents <==> FINISH in h.parents
  {
    assert START in g.parents.Keys <==> START in h.parents.Keys;
    assert FINISH in g.parents.Keys <==> FINISH in h.parents.Keys;
  }

  function Removed(g: View, e: nat): View
    requires e in g.ends && g.ends[e].parent in g.children && g.ends[e].child in g.parents
  {
    var p, c := g.ends[e].parent, g.ends[e].child;
    View(g.parents[c := Without(g.parents[c], {e})], g.children[p := Without(g.children[p], {e})], g.ends - {e},
         g.nodes, g.edges - 1, Without(g.order, {e}))
  }

  lemma RemovedOk(g: View, e: nat)
    requires Ok(g) && e in g.ends
    ensures g.ends[e].parent in g.children && g.ends[e].child in g.parents
    ensures Ok(Removed(g, e)) && Removed(g, e).parents.Keys == g.parents.Keys
  {
    var p, c := g.ends[e].parent, g.ends[e].child;
    assert p in g.parents.Keys && c in g.parents.Keys;
    RemoveFromLists(g.parents, g.ends, g.order, true, e, c);
    RemoveFromLists(g.children, g.ends, g.order, false, e, p);
    assert e in g.order;
    WithoutOne(g.order, e);
    forall x
      ensures x in Without(g.order, {e}) <==> x in g.order && x != e
    {
      WithoutHas(g.order, {e}, x);
    }
    assert EdgesOk(g.parents.Keys, g.ends - {e}, Without(g.order, {e}));
    assert Removed(g, e).parents.Keys == g.parents.Keys;
    assert Removed(g, e).children.Keys == g.children.Keys;
  }

  lemma NodeAddedOk(g: View, n: nat)
    requires Ok(g) && n !in g.parents
    ensures Ok(g.(parents := g.parents[n := []], children := g.children[n := []], nodes := g.nodes + 1))
  {
    NoEdges(g.ends, g.order, n, true);
    NoEdges(g.ends, g.order, n, false);
    assert g.parents[n := []].Keys == g.parents.Keys + {n};
    assert g.children[n := []].Keys == g.children.Keys + {n};
  }

  lemma NodeRemovedOk(g: View, n: nat)
    requires Ok(g) && n in g.parents && n != START && n != FINISH && Touching(g.ends, n) == {}
    ensures Ok(g.(parents := g.parents - {n}, children := g.children - {n}, nodes := g.nodes - 1))
  {
    assert (g.parents - {n}).Keys == g.parents.Keys - {n};
    assert (g.children - {n}).Keys == g.children.Keys - {n};
    forall e | e in g.ends
      ensures g.ends[e].parent != n && g.ends[e].child != n
    {
      assert e !in Touching(g.ends, n);
    }
  }

  // A list has the edges on its side.
  lemma InList(g: View, n: nat, into: bool, s: seq<nat>)
    requires Ok(g) && n in g.parents && s == if into then g.parents[n] else g.children[n]
    ensures forall x :: x in s <==> x in g.ends && End(g.ends[x], into) == n
  {
    forall x
      ensures x in s <==> x in g.ends && End(g.ends[x], into) == n
    {
      SideHas(g.ends, g.order, n, into, x);
    }
  }

  class Graph {
    var parents: map<nat, seq<nat>>
    var children: map<nat, seq<nat>>
    var ends: map<nat, Ends>
    var nodes: int
    var edges: int
    // All edges, in the order in which they were added.
    ghost var order: seq<nat>

    ghost function Now(): View
      reads this
    {
      View(parents, children, ends, nodes, edges, order)
    }

    ghost predicate Valid()
      reads this
    {
      Ok(Now())
    }

    // src/graph.c:51-58
    constructor ()
      ensures Valid() && order == [] && parents.Keys == {START, FINISH}
    {
      parents, children := map[START := [], FINISH := []], map[START := [], FINISH := []];
      ends, nodes, edges, order := map[], 0, 0, [];
    }

    // src/graph.c:66-71
    method AddNode(n: nat)
      requires Valid() && n !in parents
      modifies this
      ensures Valid() && parents.Keys == old(parents.Keys) + {n} && order == old(order) && ends == old(ends)
    {
      NodeAddedOk(Now(), n);
      NewLists(n);
    }

    method NewLists(n: nat)
      modifies this
      ensures Now() == old(Now()).(parents := old(parents)[n := []], children := old(children)[n := []],
                                   nodes := old(nodes) + 1)
    {
      parents, children := parents[n := []], children[n := []];
      nodes := nodes + 1;
    }

    // src/graph.c:104-111
    method AddEdge(e: nat, p: nat, c: nat)
      requires Valid() && e !in ends && p in children && c in parents
      modifies this
      ensures Valid() && order == old(order) + [e] && ends == old(ends)[e := Ends(p, c)]
      ensures parents.Keys == old(parents.Keys)
    {
      AddedOk(Now(), e, p, c);
      Link(e, p, c);
    }

    method Link(e: nat, p: nat, c: nat)
      requires p in children && c in parents
      modifies this
      ensures Now() == Added(old(Now()), e, p, c)
    {
      parents := parents[c := parents[c] + [e]];
      children := children[p := children[p] + [e]];
      ends := ends[e := Ends(p, c)];
      edges := edges + 1;
      order := order + [e];
    }

    // src/graph.c:119-125
    method RemoveEdge(e: nat)
      requires Valid() && e in ends
      modifies this
      ensures Valid() && order == Without(old(order), {e}) && ends == old(ends) - {e}
      ensures parents.Keys == old(parents.Keys) && edges == old(edges) - 1 && nodes == old(nodes)
    {
      RemovedOk(Now(), e);
      Unlink(e);
    }

    method Unlink(e: nat)
      requires e in ends && ends[e].parent in children && ends[e].child in parents
      modifies this
      ensures Now() == Removed(old(Now()), e)
    {
      var c, p := ends[e].child, ends[e].parent;
      parents := parents[c := Without(parents[c], {e})];
      children := children[p := Without(children[p], {e})];
      ends := ends - {e};
      edges := edges - 1;
      order := Without(order, {e});
    }

    // src/graph.c:133-145: the edge from p to c that was added first.
    method FindEdge(p: nat, c: nat) returns (r: Option<nat>, ghost at: nat)
      requires Valid() && c in parents
      ensures r.None? ==> forall e :: e in ends ==> ends[e] != Ends(p, c)
      ensures r.Some? ==> at < |order| && order[at] == r.value && r.value in ends && ends[r.value] == Ends(p, c)
      ensures r.Some? ==> forall k :: 0 <= k < at ==> order[k] in ends && ends[order[k]] != Ends(p, c)
    {
      var s := parents[c];
      at := 0;
      InList(Now(), c, true, s);
      for i := 0 to |s|
        invariant forall x :: x in s[..i] ==> x in ends && ends[x] != Ends(p, c)
      {
        if ends[s[i]].parent == p {
          at := FirstAdded(Now(), p, c, i);
          return Some(s[i]), at;
        }
        OneFurther(s, i);
      }
      return None, at;
    }

    // src/graph.c:79-95: every edge that leads to n or away from it goes, and
    // no other.
    method RemoveNode(n: nat)
      requires Valid() && n in parents && n != START && n != FINISH
      modifies this
      ensures Valid() && parents.Keys == old(parents.Keys) - {n}
      ensures order == Without(old(order), Touching(old(ends), n)) && ends == old(ends) - Touching(old(ends), n)
    {
      assert n in parents.Keys;
      Strip(n, true);
      assert n in parents.Keys;
      Strip(n, false);
      BothSides(old(ends), old(order), n);
      NodeRemovedOk(Now(), n);
      DropLists(n);
    }

    method DropLists(n: nat)
      modifies this
      ensures Now() == old(Now()).(parents := old(parents) - {n}, children := old(children) - {n},
                                   nodes := old(nodes) - 1)
    {
      parents, children := parents - {n}, children - {n};
      nodes := nodes - 1;
    }

    // The two loops of src/graph.c:84-93.
    method Strip(n: nat, into: bool)
      requires Valid() && n in parents && n in children
      modifies this
      ensures Valid() && parents.Keys == old(parents.Keys) && nodes == old(nodes)
      ensures ends == old(ends) - Joining(old(ends), n, into)
      ensures order == Without(old(order), Joining(old(ends), n, into))
    {
      ghost var gone: set<nat> := {};
      WithoutOther(order, {});
      NoneGone(ends);
      while (if into then parents[n] else children[n]) != []
        invariant Valid() && n in children && parents.Keys == old(parents.Keys) && nodes == old(nodes)
        invariant gone <= Joining(old(ends), n, into)
        invariant order == Without(old(order), gone) && ends == old(ends) - gone
        decreases edges
      {
        var e := StripOne(n, into);
        OneMoreGone(old(ends), old(order), gone, e, n, into);
        gone := gone + {e};
      }
      InList(Now(), n, into, []);
      AllGone(old(ends), gone, n, into);
    }

    method StripOne(n: nat, into: bool) returns (e: nat)
      requires Valid() && n in parents && n in children && (if into then parents[n] else children[n]) != []
      modifies this
      ensures Valid() && parents.Keys == old(parents.Keys) && n in children && nodes == old(nodes)
      ensures 0 <= edges < old(edges)
      ensures Joins(old(ends), e, n, into) && ends == old(ends) - {e} && order == Without(old(order), {e})
    {
      var s := if into then parents[n] else children[n];
      InList(Now(), n, into, s);
      e := s[0];
      assert e in s;
      RemoveEdge(e);
      assert n in parents.Keys;
    }
  }
}
