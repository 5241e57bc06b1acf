// The call sites of src/profile.c: call stacks shared in a tree of nodes that
// are linked to the nodes of their callers.
module CallSites {
  import opened Memory

  // A profnode.  Nodes are named by their index, counted from 1; parent and
  // data are 0 for a null pointer.
  datatype Node = Node(addr: nat, parent: nat, symbol: Option<nat>, data: nat)

  function Addr(nodes: seq<Node>, k: nat): nat {
    if 1 <= k <= |nodes| then nodes[k - 1].addr else 0
  }

  function Parent(nodes: seq<Node>, k: nat): nat {
    if 1 <= k <= |nodes| then nodes[k - 1].parent else 0
  }

  function DataOf(nodes: seq<Node>, k: nat): nat {
    if 1 <= k <= |nodes| then nodes[k - 1].data else 0
  }

  // The return addresses from node k up to the root of its call stack.
  function Chain(nodes: seq<Node>, k: nat): (r: seq<nat>)
    ensures 0 < k <= |nodes| && Parent(nodes, k) < k ==> r != [] && r[0] == Addr(nodes, k)
    decreases k
  {
    if k == 0 || k > |nodes| || Parent(nodes, k) >= k then []
    else [Addr(nodes, k)] + Chain(nodes, Parent(nodes, k))
  }

  // A caller has a smaller index than the functions it calls.
  ghost predicate Rooted(nodes: seq<Node>) {
    forall k :: 1 <= k <= |nodes| ==> Parent(nodes, k) < k
  }

  // No two nodes stand for the same call stack.
  ghost predicate Interned(nodes: seq<Node>) {
    forall j, k :: 1 <= j < k <= |nodes| ==> Chain(nodes, j) != Chain(nodes, k)
  }

  ghost predicate Absent(nodes: seq<Node>, a: seq<nat>) {
    forall k :: 1 <= k <= |nodes| ==> Chain(nodes, k) != a
  }

  // The nodes that a call stack still needs: one for itself and for each of its
  // callers' stacks, down to the first that is there.
  ghost function Missing(nodes: seq<Node>, a: seq<nat>): nat
    decreases |a|
  {
    if a == [] || !Absent(nodes, a) then 0 else 1 + Missing(nodes, a[1..])
  }

  // The nodes that have come have no statistics yet, and stand for stacks of at
  // most l calls.
  ghost predicate Grown(was: seq<Node>, nodes: seq<Node>, l: nat) {
    was <= nodes && forall k :: |was| < k <= |nodes| ==> |Chain(nodes, k)| <= l && DataOf(nodes, k) == 0
  }

  lemma GrownMore(was: seq<Node>, mid: seq<Node>, n: Node, l: nat, nodes: seq<Node>)
    requires nodes == mid + [n]
    requires Grown(was, mid, l) && n.data == 0 && |Chain(nodes, |nodes|)| <= l + 1
    ensures Grown(was, nodes, l + 1)
  {
    forall k | |was| < k <= |nodes|
      ensures |Chain(nodes, k)| <= l + 1 && DataOf(nodes, k) == 0
    {
      if k <= |mid| {
        ChainAppend(mid, n, k);
        assert DataOf(nodes, k) == DataOf(mid, k);
      }
    }
  }

  // The tree holds every node, in the order of their addresses.
  ghost predicate InTree(nodes: seq<Node>, tree: seq<nat>) {
    && |tree| == |nodes|
    && (forall i :: 0 <= i < |tree| ==> 1 <= tree[i] <= |nodes|)
    && (forall k :: 1 <= k <= |nodes| ==> k in tree)
    && (forall i, j :: 0 <= i < j < |tree| ==> Addr(nodes, tree[i]) <= Addr(nodes, tree[j]))
  }

  lemma InsertDistinct(tree: seq<nat>, n: nat, i: nat)
    requires Distinct(tree) && i <= |tree| && forall j :: 0 <= j < |tree| ==> tree[j] < n
    ensures Distinct(tree[..i] + [n] + tree[i..])
  {
    var r := tree[..i] + [n] + tree[i..];
    assert forall j :: 0 <= j < |r| ==> r[j] == if j < i then tree[j] else if j == i then n else tree[j - 1];
  }

  // The symbol of a node is the one found for its address.
  ghost predicate SymbolsFound(nodes: seq<Node>, symbols: map<nat, nat>) {
    forall k :: 0 <= k < |nodes| ==>
      nodes[k].symbol == if nodes[k].addr in symbols then Some(symbols[nodes[k].addr]) else None
  }

  lemma FoundMore(nodes: seq<Node>, n: Node, symbols: map<nat, nat>)
    requires SymbolsFound(nodes, symbols)
    requires n.symbol == if n.addr in symbols then Some(symbols[n.addr]) else None
    ensures SymbolsFound(nodes + [n], symbols)
  {
  }

  lemma {:induction false} ChainAppend(nodes: seq<Node>, n: Node, k: nat)
    requires k <= |nodes|
    ensures Chain(nodes + [n], k) == Chain(nodes, k)
    decreases k
  {
    if k > 0 && Parent(nodes, k) < k {
      ChainAppend(nodes, n, Parent(nodes, k));
    }
  }

  lemma AppendChains(nodes: seq<Node>, n: Node, a: seq<nat>)
    requires a != [] && n.addr == a[0] && n.parent <= |nodes| && Chain(nodes, n.parent) == a[1..]
    ensures Chain(nodes + [n], |nodes| + 1) == a
    ensures forall k :: 0 <= k <= |nodes| ==> Chain(nodes + [n], k) == Chain(nodes, k)
  {
    forall k | 0 <= k <= |nodes|
      ensures Chain(nodes + [n], k) == Chain(nodes, k)
    {
      ChainAppend(nodes, n, k);
    }
    assert a == [a[0]] + a[1..];
  }

  // A new node for a stack that was not there, on top of its caller's node.
  lemma AppendInterned(nodes: seq<Node>, n: Node, a: seq<nat>)
    requires Rooted(nodes) && Interned(nodes) && Absent(nodes, a)
    requires a != [] && n.addr == a[0] && n.parent <= |nodes| && Chain(nodes, n.parent) == a[1..]
    ensures Rooted(nodes + [n]) && Interned(nodes + [n]) && Chain(nodes + [n], |nodes| + 1) == a
  {
    var m := nodes + [n];
    AppendChains(nodes, n, a);
    forall k | 1 <= k <= |m|
      ensures Parent(m, k) < k
    {
      assert k <= |nodes| ==> Parent(m, k) == Parent(nodes, k);
    }
    forall j, k | 1 <= j < k <= |m|
      ensures Chain(m, j) != Chain(m, k)
    {
      assert Chain(m, j) == Chain(nodes, j);
      assert k <= |nodes| ==> Chain(m, k) == Chain(nodes, k);
    }
  }

  ghost predicate Sound(nodes: seq<Node>, tree: seq<nat>, symbols: map<nat, nat>) {
    Rooted(nodes) && Interned(nodes) && InTree(nodes, tree) && Distinct(tree) && SymbolsFound(nodes, symbols)
  }

  // Where a node with the given address can go in the tree.
  ghost predicate PlaceFor(nodes: seq<Node>, tree: seq<nat>, addr: nat, i: nat) {
    && i <= |tree|
    && (forall j :: 0 <= j < i ==> Addr(nodes, tree[j]) <= addr)
    && (forall j :: i <= j < |tree| ==> addr <= Addr(nodes, tree[j]))
  }

  lemma AddedSound(nodes: seq<Node>, tree: seq<nat>, n: Node, i: nat, a: seq<nat>, symbols: map<nat, nat>,
      more: seq<Node>, longer: seq<nat>)
    requires more == nodes + [n] && i <= |tree| && longer == tree[..i] + [|nodes| + 1] + tree[i..]
    requires Sound(nodes, tree, symbols) && PlaceFor(nodes, tree, n.addr, i) && Absent(nodes, a)
    requires a != [] && n.addr == a[0] && n.parent <= |nodes| && Chain(nodes, n.parent) == a[1..]
    requires n.symbol == if n.addr in symbols then Some(symbols[n.addr]) else None
    ensures Sound(more, longer, symbols) && Chain(more, |more|) == a
  {
    AppendInterned(nodes, n, a);
    InsertInTree(nodes, tree, n, i);
    InsertDistinct(tree, |nodes| + 1, i);
    FoundMore(nodes, n, symbols);
  }

  class Profile {
    var nodes: seq<Node>
    var tree: seq<nat>
    var room: nat
    const symbols: map<nat, nat>

    ghost predicate Valid()
      reads this
    {
      Sound(nodes, tree, symbols)
    }

    constructor (symbols: map<nat, nat>, room: nat)
      ensures Valid() && nodes == [] && this.room == room && this.symbols == symbols
    {
      nodes, tree := [], [];
      this.symbols, this.room := symbols, room;
    }

    // A node with the given address; which one is up to the tree.
    method Search(addr: nat) returns (r: Option<nat>)
      requires Valid()
      ensures r.Some? ==> r.value < |tree| && Addr(nodes, tree[r.value]) == addr
      ensures r.None? ==> forall k :: 1 <= k <= |nodes| ==> Addr(nodes, k) != addr
    {
      var i := 0;
      while i < |tree|
        invariant i <= |tree|
        invariant forall j :: 0 <= j < i ==> Addr(nodes, tree[j]) != addr
      {
        if Addr(nodes, tree[i]) == addr {
          return Some(i);
        }
        i := i + 1;
      }
      forall k | 1 <= k <= |nodes|
        ensures Addr(nodes, k) != addr
      {
        assert k in tree;
      }
      return None;
    }

    // src/profile.c:213-219: the callers of node k against the rest of the
    // stack.
    method SameStack(k: nat, a: seq<nat>) returns (same: bool)
      requires Valid() && 1 <= k <= |nodes| && a != [] && Addr(nodes, k) == a[0]
      ensures same <==> Chain(nodes, k) == a
    {
      var t: nat, d := Parent(nodes, k), a[1..];
      Cancel(a, Chain(nodes, k));
      while t != 0 && d != [] && Addr(nodes, t) == d[0]
        invariant t <= |nodes|
        invariant Chain(nodes, k) == a <==> Chain(nodes, t) == d
        decreases t
      {
        Cancel(d, Chain(nodes, t));
        t, d := Parent(nodes, t), d[1..];
      }
      return t == 0 && d == [];
    }

    // src/profile.c:208-210: the first of the nodes with the same address.
    method First(i0: nat, addr: nat) returns (i: nat)
      requires Valid() && i0 < |tree| && Addr(nodes, tree[i0]) == addr
      ensures i < |tree| && Addr(nodes, tree[i]) == addr
      ensures forall j :: 0 <= j < i ==> Addr(nodes, tree[j]) != addr
    {
      i := i0;
      while i > 0 && Addr(nodes, tree[i - 1]) == addr
        invariant i < |tree| && Addr(nodes, tree[i]) == addr
      {
        i := i - 1;
      }
    }

    // src/profile.c:211-221
    method Scan(i0: nat, a: seq<nat>) returns (r: nat)
      requires Valid() && a != [] && i0 < |tree| && Addr(nodes, tree[i0]) == a[0]
      ensures r != 0 ==> r <= |nodes| && Chain(nodes, r) == a
      ensures r == 0 ==> forall j :: i0 <= j < |tree| ==> Chain(nodes, tree[j]) != a
    {
      var i := i0;
      while i < |tree| && Addr(nodes, tree[i]) == a[0]
        invariant i0 <= i <= |tree|
        invariant forall j :: i0 <= j < i ==> Chain(nodes, tree[j]) != a
        decreases |tree| - i
      {
        var same := SameStack(tree[i], a);
        if same {
          return tree[i];
        }
        i := i + 1;
      }
      forall j | i <= j < |tree|
        ensures Chain(nodes, tree[j]) != a
      {
        assert Addr(nodes, tree[i0]) <= Addr(nodes, tree[i]) <= Addr(nodes, tree[j]);
      }
      return 0;
    }

    // src/profile.c:205-222
    method Find(a: seq<nat>) returns (r: nat)
      requires Valid() && a != []
      ensures r == 0 <==> Absent(nodes, a)
      ensures r != 0 ==> r <= |nodes| && Chain(nodes, r) == a
    {
      var s := Search(a[0]);
      if s.None? {
        return 0;
      }
      var i := First(s.value, a[0]);
      r := Scan(i, a);
      if r == 0 {
        forall k | 1 <= k <= |nodes|
          ensures Chain(nodes, k) != a
        {
          assert k in tree;
        }
      }
    }

    // The place of a new node in the tree.
    method Slot(addr: nat) returns (i: nat)
      requires Valid()
      ensures PlaceFor(nodes, tree, addr, i)
    {
      i := 0;
      while i < |tree| && Addr(nodes, tree[i]) <= addr
        invariant i <= |tree|
        invariant forall j :: 0 <= j < i ==> Addr(nodes, tree[j]) <= addr
      {
        i := i + 1;
      }
    }

    // src/profile.c:198-238: the node of call stack a, or 0 if there is no
    // memory for a new one.
    method GetCallSite(a: seq<nat>) returns (r: nat)
      requires Valid() && a != []
      modifies this`nodes, this`tree, this`room
      ensures Valid() && Grown(old(nodes), nodes, |a|)
      ensures |nodes| + room == old(|nodes| + room)
      // The call fails exactly if there are too few slots for the nodes that it
      // needs, and then it changes nothing.
      ensures r == 0 <==> Missing(old(nodes), a) > old(room)
      ensures r == 0 ==> nodes == old(nodes) && tree == old(tree)
      // The node spells the stack, and it is new only if there was none.
      ensures r != 0 ==> r <= |nodes| && Chain(nodes, r) == a
      ensures r != 0 && !Absent(old(nodes), a) ==> nodes == old(nodes) && tree == old(tree)
      ensures r != 0 ==> |nodes| == |old(nodes)| + Missing(old(nodes), a)
      decreases |a|
    {
      r := Find(a);
      if r != 0 || room == 0 {
        return;
      }
      room := room - 1;
      var t := 0;
      if a[1..] != [] {
        t := GetCallSite(a[1..]);
        if t == 0 {
          room := room + 1;
          return;
        }
      }
      StillAbsent(old(nodes), nodes, a);
      r := AddNode(a, t, old(nodes));
    }

    // src/profile.c:231-237
    method AddNode(a: seq<nat>, t: nat, ghost was: seq<Node>) returns (r: nat)
      requires Valid() && a != [] && Absent(nodes, a) && t <= |nodes| && Chain(nodes, t) == a[1..]
      requires Grown(was, nodes, |a| - 1)
      modifies this`nodes, this`tree
      ensures Valid() && r == |nodes| == |old(nodes)| + 1 && Chain(nodes, r) == a
      ensures Grown(was, nodes, |a|)
    {
      var n := Node(a[0], t, if a[0] in symbols then Some(symbols[a[0]]) else None, 0);
      var i := Slot(a[0]);
      var more, longer := nodes + [n], tree[..i] + [|nodes| + 1] + tree[i..];
      AddedSound(nodes, tree, n, i, a, symbols, more, longer);
      GrownMore(was, nodes, n, |a| - 1, more);
      nodes, tree, r := more, longer, |more|;
    }

    // src/profile.c:260-261: the statistics of node k are those with index d.
    method SetData(k: nat, d: nat)
      requires Valid() && 1 <= k <= |nodes|
      modifies this`nodes
      ensures Valid() && nodes == old(nodes)[k - 1 := old(nodes)[k - 1].(data := d)]
      ensures forall j :: 0 <= j <= |nodes| ==> Chain(nodes, j) == Chain(old(nodes), j)
    {
      var was := nodes;
      nodes := nodes[k - 1 := nodes[k - 1].(data := d)];
      forall j | 0 <= j <= |nodes|
        ensures Chain(nodes, j) == Chain(was, j)
        ensures Parent(nodes, j) == Parent(was, j) && Addr(nodes, j) == Addr(was, j)
      {
        SameChains(was, nodes, j);
      }
    }
  }

  // The nodes that a caller's stack brought in are shorter.
  lemma StillAbsent(was: seq<Node>, nodes: seq<Node>, a: seq<nat>)
    requires Absent(was, a) && a != [] && Grown(was, nodes, |a| - 1)
    ensures Absent(nodes, a)
  {
    forall k | 1 <= k <= |nodes|
      ensures Chain(nodes, k) != a
    {
      if k <= |was| {
        ChainPrefix(was, nodes, k);
      }
    }
  }

  lemma {:induction false} ChainPrefix(was: seq<Node>, nodes: seq<Node>, k: nat)
    requires was <= nodes && k <= |was|
    ensures Chain(nodes, k) == Chain(was, k)
    decreases k
  {
    if k > 0 && Parent(was, k) < k {
      ChainPrefix(was, nodes, Parent(was, k));
    }
  }

  lemma InsertInTree(nodes: seq<Node>, tree: seq<nat>, n: Node, i: nat)
    requires InTree(nodes, tree) && PlaceFor(nodes, tree, n.addr, i)
    ensures InTree(nodes + [n], tree[..i] + [|nodes| + 1] + tree[i..])
  {
    var r, m := tree[..i] + [|nodes| + 1] + tree[i..], nodes + [n];
    assert Addr(m, |m|) == n.addr && forall k :: 1 <= k <= |nodes| ==> Addr(m, k) == Addr(nodes, k);
    forall j | 0 <= j < |r|
      ensures r[j] == if j < i then tree[j] else if j == i then |m| else tree[j - 1]
    {
    }
    forall k | 1 <= k <= |m|
      ensures k in r
    {
      if k == |m| {
        assert r[i] == k;
      } else {
        StillIn(tree, |m|, i, k);
      }
    }
  }

  lemma StillIn(tree: seq<nat>, n: nat, i: nat, k: nat)
    requires i <= |tree| && k in tree
    ensures k in tree[..i] + [n] + tree[i..]
  {
    assert tree[..i] + tree[i..] == tree;
  }

  lemma Cancel(a: seq<nat>, b: seq<nat>)
    requires a != [] && b != []
    ensures a == b <==> a[0] == b[0] && a[1..] == b[1..]
  {
    assert a == [a[0]] + a[1..] && b == [b[0]] + b[1..];
  }

  lemma {:induction false} SameChains(m: seq<Node>, n: seq<Node>, k: nat)
    requires |m| == |n| && k <= |m|
    requires forall i :: 0 <= i < |m| ==> m[i].addr == n[i].addr && m[i].parent == n[i].parent
    ensures Chain(m, k) == Chain(n, k)
    decreases k
  {
    if k > 0 && Parent(m, k) < k {
      SameChains(m, n, Parent(m, k));
    }
  }
}
