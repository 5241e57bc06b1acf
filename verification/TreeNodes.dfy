// The same trees as src/tree.c keeps them: nodes that point at their parents
// and children, with a sentinel in the place of every leaf.
module TreeNodes {
  import opened Memory
  import opened RedBlack

  // A treenode of src/tree.h:47-55.  0 is NULL.
  datatype Links = Links(parent: nat, left: nat, right: nat, key: nat, flag: Colour)

  // A treeroot, the address of its sentinel, and the nodes.
  datatype View = View(nil: nat, root: nat, nodes: map<nat, Links>)

  function Address(z: nat, t: Tree): nat {
    if t.Leaf? then z else t.item.node
  }

  function Above(p: Path): nat {
    if p.Top? then 0 else p.item.node
  }

  // ---- What the nodes say ----

  ghost predicate IsNode(m: map<nat, Links>, z: nat, i: Item, c: Colour, parent: nat, left: nat, right: nat) {
    i.node in m && i.node != z && i.node != 0 && m[i.node] == Links(parent, left, right, i.key, c)
  }

  // The nodes of t are linked as t says, below parent.
  ghost predicate Shape(m: map<nat, Links>, z: nat, t: Tree, parent: nat)
    decreases t
  {
    t.Node? ==>
      && IsNode(m, z, t.item, t.colour, parent, Address(z, t.left), Address(z, t.right))
      && Shape(m, z, t.left, t.item.node) && Shape(m, z, t.right, t.item.node)
  }

  // The nodes of p are linked as p says, with x below them.
  ghost predicate Way(m: map<nat, Links>, z: nat, root: nat, p: Path, x: nat)
    decreases p
  {
    if p.Top? then root == x
    else
      && IsNode(m, z, p.item, p.colour, Above(p.up), if p.OnLeft? then x else Address(z, p.sibling),
                if p.OnLeft? then Address(z, p.sibling) else x)
      && Shape(m, z, p.sibling, p.item.node) && Way(m, z, root, p.up, p.item.node)
  }

  function Ids(t: Tree): set<nat> {
    if t.Leaf? then {} else Ids(t.left) + {t.item.node} + Ids(t.right)
  }

  function PathIds(p: Path): set<nat>
    decreases p
  {
    if p.Top? then {} else PathIds(p.up) + {p.item.node} + Ids(p.sibling)
  }

  // No node is in two places.
  predicate Own(t: Tree) {
    t.Node? ==>
      && Own(t.left) && Own(t.right) && Ids(t.left) !! Ids(t.right)
      && t.item.node !in Ids(t.left) && t.item.node !in Ids(t.right)
  }

  predicate OwnPath(p: Path)
    decreases p
  {
    !p.Top? ==>
      && OwnPath(p.up) && Own(p.sibling) && PathIds(p.up) !! Ids(p.sibling)
      && p.item.node !in PathIds(p.up) && p.item.node !in Ids(p.sibling)
  }

  // The sentinel has no children, which is how it is told from the nodes.
  ghost predicate Sound(v: View) {
    && v.nil != 0 && v.nil in v.nodes && 0 !in v.nodes
    && v.nodes[v.nil].left == 0 && v.nodes[v.nil].right == 0 && v.nodes[v.nil].flag.Black?
  }

  // The nodes make up the tree of t at p.
  ghost predicate At(v: View, t: Tree, p: Path) {
    && Shape(v.nodes, v.nil, t, Above(p)) && Way(v.nodes, v.nil, v.root, p, Address(v.nil, t))
    && Own(t) && OwnPath(p) && Ids(t) !! PathIds(p)
  }

  // ---- Looking elsewhere in the same tree ----

  lemma GoLeft(v: View, t: Tree, p: Path)
    requires t.Node? && At(v, t, p)
    ensures At(v, t.left, OnLeft(p, t.item, t.colour, t.right))
  {
  }

  lemma GoRight(v: View, t: Tree, p: Path)
    requires t.Node? && At(v, t, p)
    ensures At(v, t.right, OnRight(p, t.item, t.colour, t.left))
  {
  }

  lemma GoUp(v: View, t: Tree, p: Path)
    requires !p.Top? && At(v, t, p)
    ensures At(v, Joined(t, p), p.up)
  {
  }

  lemma GoAcross(v: View, t: Tree, p: Path)
    requires !p.Top? && At(v, t, p)
    ensures At(v, p.sibling, Across(t, p))
  {
  }

  lemma {:induction false} GoTop(v: View, t: Tree, p: Path)
    requires At(v, t, p)
    ensures At(v, Plug(t, p), Top)
    decreases p
  {
    if !p.Top? {
      GoUp(v, t, p);
      GoTop(v, Joined(t, p), p.up);
    }
  }

  // ---- Changing nodes ----

  // The nodes of s are as they were.
  ghost predicate Same(m: map<nat, Links>, n: map<nat, Links>, s: set<nat>) {
    forall y :: y in s && y in m ==> y in n && n[y] == m[y]
  }

  lemma {:induction false} ShapeSame(m: map<nat, Links>, n: map<nat, Links>, z: nat, t: Tree, parent: nat)
    requires Shape(m, z, t, parent) && Same(m, n, Ids(t))
    ensures Shape(n, z, t, parent)
    decreases t
  {
    if t.Node? {
      ShapeSame(m, n, z, t.left, t.item.node);
      ShapeSame(m, n, z, t.right, t.item.node);
    }
  }

  lemma {:induction false} WaySame(m: map<nat, Links>, n: map<nat, Links>, z: nat, root: nat, p: Path, x: nat)
    requires Way(m, z, root, p, x) && Same(m, n, PathIds(p))
    ensures Way(n, z, root, p, x)
    decreases p
  {
    if !p.Top? {
      ShapeSame(m, n, z, p.sibling, p.item.node);
      WaySame(m, n, z, root, p.up, p.item.node);
    }
  }

  // A tree gets another parent.
  lemma Reparented(m: map<nat, Links>, n: map<nat, Links>, z: nat, t: Tree, was: nat, parent: nat)
    requires Shape(m, z, t, was) && Own(t)
    requires t.Node? ==> t.item.node in n && n[t.item.node] == m[t.item.node].(parent := parent)
    requires Same(m, n, Ids(t) - {Address(z, t)})
    ensures Shape(n, z, t, parent)
  {
    if t.Node? {
      ShapeSame(m, n, z, t.left, t.item.node);
      ShapeSame(m, n, z, t.right, t.item.node);
    }
  }

  // The node above a place, or the root, is made to point at y.
  ghost predicate Hung(v: View, w: View, p: Path, y: nat) {
    if p.Top? then w.root == y
    else
      && w.root == v.root && p.item.node in v.nodes && p.item.node in w.nodes
      && w.nodes[p.item.node]
         == if p.OnLeft? then v.nodes[p.item.node].(left := y) else v.nodes[p.item.node].(right := y)
  }

  lemma Rehung(v: View, w: View, p: Path, x: nat, y: nat)
    requires v.nil == w.nil && Way(v.nodes, v.nil, v.root, p, x) && OwnPath(p)
    requires Hung(v, w, p, y) && Same(v.nodes, w.nodes, PathIds(p) - {Above(p)})
    ensures Way(w.nodes, w.nil, w.root, p, y)
  {
    if !p.Top? {
      ShapeSame(v.nodes, w.nodes, v.nil, p.sibling, p.item.node);
      WaySame(v.nodes, w.nodes, v.nil, v.root, p.up, p.item.node);
    }
  }

  // A place gets another tree.
  lemma Replaced(v: View, w: View, t: Tree, p: Path, u: Tree)
    requires At(v, t, p) && v.nil == w.nil
    requires Hung(v, w, p, Address(v.nil, u)) && Same(v.nodes, w.nodes, PathIds(p) - {Above(p)})
    requires Shape(w.nodes, w.nil, u, Above(p)) && Own(u) && Ids(u) <= Ids(t)
    ensures At(w, u, p)
  {
    Rehung(v, w, p, Address(v.nil, t), Address(v.nil, u));
  }

  lemma {:induction false} PlugIds(t: Tree, p: Path)
    ensures Ids(Plug(t, p)) == Ids(t) + PathIds(p)
    decreases p
  {
    if !p.Top? {
      PlugIds(Joined(t, p), p.up);
    }
  }

  // ---- Rotations ----

  // The sentinel is no node, and neither is NULL.
  lemma {:induction false} NotNodes(m: map<nat, Links>, z: nat, t: Tree, parent: nat)
    requires Shape(m, z, t, parent)
    ensures z !in Ids(t) && 0 !in Ids(t)
    decreases t
  {
    if t.Node? {
      NotNodes(m, z, t.left, t.item.node);
      NotNodes(m, z, t.right, t.item.node);
    }
  }

  lemma SameLess(m: map<nat, Links>, n: map<nat, Links>, all: set<nat>, less: set<nat>, part: set<nat>)
    requires Same(m, n, all - less) && part <= all && part !! less
    ensures Same(m, n, part)
  {
  }

  // What a rotation to the left stores in the nodes of t.
  ghost predicate LeftStored(v: View, w: View, t: Tree, parent: nat)
    requires t.Node? && t.right.Node?
  {
    var x, y, c := t.item.node, t.right.item.node, Address(v.nil, t.right.left);
    && x in v.nodes && x in w.nodes && w.nodes[x] == v.nodes[x].(right := c, parent := y)
    && y in v.nodes && y in w.nodes && w.nodes[y] == v.nodes[y].(parent := parent, left := x)
    && (t.right.left.Node? ==> c in v.nodes && c in w.nodes && w.nodes[c] == v.nodes[c].(parent := x))
    && Same(v.nodes, w.nodes, Ids(t) - {x, y, c})
  }

  ghost predicate RightStored(v: View, w: View, t: Tree, parent: nat)
    requires t.Node? && t.left.Node?
  {
    var x, y, c := t.item.node, t.left.item.node, Address(v.nil, t.left.right);
    && x in v.nodes && x in w.nodes && w.nodes[x] == v.nodes[x].(left := c, parent := y)
    && y in v.nodes && y in w.nodes && w.nodes[y] == v.nodes[y].(parent := parent, right := x)
    && (t.left.right.Node? ==> c in v.nodes && c in w.nodes && w.nodes[c] == v.nodes[c].(parent := x))
    && Same(v.nodes, w.nodes, Ids(t) - {x, y, c})
  }

  lemma Parts(m: map<nat, Links>, z: nat, t: Tree, parent: nat)
    requires Shape(m, z, t, parent) && t.Node? && Own(t)
    ensures IsNode(m, z, t.item, t.colour, parent, Address(z, t.left), Address(z, t.right))
    ensures Shape(m, z, t.left, t.item.node) && Shape(m, z, t.right, t.item.node)
    ensures Own(t.left) && Own(t.right) && Ids(t.left) !! Ids(t.right)
    ensures Ids(t) == Ids(t.left) + {t.item.node} + Ids(t.right)
    ensures t.item.node !in Ids(t.left) && t.item.node !in Ids(t.right)
  {
  }

  lemma TurnedLeftAt(v: View, w: View, t: Tree, p: Path)
    requires At(v, t, p) && t.Node? && t.right.Node? && v.nil == w.nil
    requires Hung(v, w, p, t.right.item.node) && Same(v.nodes, w.nodes, PathIds(p) - {Above(p)})
    requires LeftStored(v, w, t, Above(p))
    ensures At(w, TurnedLeft(t), p)
  {
    var x, y := t.item.node, t.right.item.node;
    Parts(v.nodes, v.nil, t, Above(p));
    Parts(v.nodes, v.nil, t.right, x);
    NotNodes(v.nodes, v.nil, t, Above(p));
    var less := {x, y, Address(v.nil, t.right.left)};
    SameLess(v.nodes, w.nodes, Ids(t), less, Ids(t.left));
    SameLess(v.nodes, w.nodes, Ids(t), less, Ids(t.right.right));
    SameLess(v.nodes, w.nodes, Ids(t), less, Ids(t.right.left) - {Address(v.nil, t.right.left)});
    ShapeSame(v.nodes, w.nodes, v.nil, t.left, x);
    ShapeSame(v.nodes, w.nodes, v.nil, t.right.right, y);
    Reparented(v.nodes, w.nodes, v.nil, t.right.left, y, x);
    var low := Node(t.left, t.item, t.colour, t.right.left);
    assert Shape(w.nodes, w.nil, low, y) && Ids(low) <= Ids(t);
    Replaced(v, w, t, p, TurnedLeft(t));
  }

  lemma TurnedRightAt(v: View, w: View, t: Tree, p: Path)
    requires At(v, t, p) && t.Node? && t.left.Node? && v.nil == w.nil
    requires Hung(v, w, p, t.left.item.node) && Same(v.nodes, w.nodes, PathIds(p) - {Above(p)})
    requires RightStored(v, w, t, Above(p))
    ensures At(w, TurnedRight(t), p)
  {
    var x, y := t.item.node, t.left.item.node;
    Parts(v.nodes, v.nil, t, Above(p));
    Parts(v.nodes, v.nil, t.left, x);
    NotNodes(v.nodes, v.nil, t, Above(p));
    var less := {x, y, Address(v.nil, t.left.right)};
    SameLess(v.nodes, w.nodes, Ids(t), less, Ids(t.right));
    SameLess(v.nodes, w.nodes, Ids(t), less, Ids(t.left.left));
    SameLess(v.nodes, w.nodes, Ids(t), less, Ids(t.left.right) - {Address(v.nil, t.left.right)});
    ShapeSame(v.nodes, w.nodes, v.nil, t.right, x);
    ShapeSame(v.nodes, w.nodes, v.nil, t.left.left, y);
    Reparented(v.nodes, w.nodes, v.nil, t.left.right, y, x);
    var low := Node(t.left.right, t.item, t.colour, t.right);
    assert Shape(w.nodes, w.nil, low, y) && Ids(low) <= Ids(t);
    Replaced(v, w, t, p, TurnedRight(t));
  }

  // ---- What can be told from the nodes ----

  lemma {:induction false} RootIs(v: View, t: Tree, p: Path)
    requires Sound(v) && At(v, t, p)
    ensures v.root == Address(v.nil, t) <==> p.Top?
    ensures !p.Top? ==> v.root in PathIds(p)
    decreases p
  {
    if !p.Top? {
      GoUp(v, t, p);
      RootIs(v, Joined(t, p), p.up);
      PathNodes(v, p, Address(v.nil, t));
    }
  }

  lemma {:induction false} PathNodes(v: View, p: Path, x: nat)
    requires Way(v.nodes, v.nil, v.root, p, x)
    ensures v.nil !in PathIds(p) && 0 !in PathIds(p)
    decreases p
  {
    if !p.Top? {
      NotNodes(v.nodes, v.nil, p.sibling, p.item.node);
      PathNodes(v, p.up, p.item.node);
    }
  }

  // The code tells the side of a node by the left child of its parent, which
  // would not do for a leaf with a leaf on the other side.
  lemma Side(v: View, t: Tree, p: Path)
    requires At(v, t, p) && !p.Top?
    ensures p.item.node in v.nodes
    ensures t.Node? || p.sibling.Node? ==>
      && (Address(v.nil, t) == v.nodes[p.item.node].left <==> p.OnLeft?)
      && (Address(v.nil, t) == v.nodes[p.item.node].right <==> p.OnRight?)
    ensures t.Leaf? && p.sibling.Leaf? ==> Address(v.nil, t) == v.nodes[p.item.node].left
  {
  }

  // The node above a place made to point at y, and y back at it.
  function HungNodes(m: map<nat, Links>, p: Path, y: nat): map<nat, Links>
    requires y in m && (!p.Top? ==> p.item.node in m)
  {
    var n := m[y := m[y].(parent := Above(p))];
    if p.Top? then n
    else n[p.item.node := if p.OnLeft? then n[p.item.node].(left := y) else n[p.item.node].(right := y)]
  }

  // What a rotation to the left stores.
  function LeftNodes(m: map<nat, Links>, p: Path, x: nat, y: nat, c: nat, leaf: bool): map<nat, Links>
    requires x in m && y in m && c in m && (!p.Top? ==> p.item.node in m)
  {
    var n := m[x := m[x].(right := c)];
    var o := if leaf then n else n[c := n[c].(parent := x)];
    var q := HungNodes(o, p, y);
    var r := q[y := q[y].(left := x)];
    r[x := r[x].(parent := y)]
  }

  function RightNodes(m: map<nat, Links>, p: Path, x: nat, y: nat, c: nat, leaf: bool): map<nat, Links>
    requires x in m && y in m && c in m && (!p.Top? ==> p.item.node in m)
  {
    var n := m[x := m[x].(left := c)];
    var o := if leaf then n else n[c := n[c].(parent := x)];
    var q := HungNodes(o, p, y);
    var r := q[y := q[y].(right := x)];
    r[x := r[x].(parent := y)]
  }

  // The address of a tree is one of its nodes, or the sentinel.
  lemma Inside(v: View, t: Tree, p: Path)
    requires At(v, t, p)
    ensures t.Node? ==> t.item.node in Ids(t) && At(v, t.left, OnLeft(p, t.item, t.colour, t.right))
                        && At(v, t.right, OnRight(p, t.item, t.colour, t.left))
    ensures v.nil !in Ids(t) && v.nil !in PathIds(p)
    ensures !p.Top? ==> p.item.node in PathIds(p)
  {
    NotNodes(v.nodes, v.nil, t, Above(p));
    PathNodes(v, p, Address(v.nil, t));
    if t.Node? {
      GoLeft(v, t, p);
      GoRight(v, t, p);
    }
  }

  lemma LeftNodesStored(v: View, w: View, t: Tree, p: Path)
    requires Sound(v) && At(v, t, p) && t.Node? && t.right.Node? && v.nil == w.nil
    requires w.root == if p.Top? then t.right.item.node else v.root
    requires Places(v, t.item.node, t.right.item.node, Address(v.nil, t.right.left), p)
    requires w.nodes == LeftNodes(v.nodes, p, t.item.node, t.right.item.node, Address(v.nil, t.right.left),
                                  t.right.left.Leaf?)
    ensures Sound(w) && At(w, TurnedLeft(t), p) && w.nodes[v.nil] == v.nodes[v.nil]
  {
    var x, y, c := t.item.node, t.right.item.node, Address(v.nil, t.right.left);
    Inside(v, t, p);
    Inside(v, t.right, OnRight(p, t.item, t.colour, t.left));
    Inside(v, t.right.left, OnLeft(OnRight(p, t.item, t.colour, t.left), t.right.item, t.right.colour, t.right.right));
    assert Same(v.nodes, w.nodes, PathIds(p) - {Above(p)});
    assert Same(v.nodes, w.nodes, Ids(t) - {x, y, c});
    TurnedLeftAt(v, w, t, p);
  }

  lemma RightNodesStored(v: View, w: View, t: Tree, p: Path)
    requires Sound(v) && At(v, t, p) && t.Node? && t.left.Node? && v.nil == w.nil
    requires w.root == if p.Top? then t.left.item.node else v.root
    requires Places(v, t.item.node, t.left.item.node, Address(v.nil, t.left.right), p)
    requires w.nodes == RightNodes(v.nodes, p, t.item.node, t.left.item.node, Address(v.nil, t.left.right),
                                   t.left.right.Leaf?)
    ensures Sound(w) && At(w, TurnedRight(t), p) && w.nodes[v.nil] == v.nodes[v.nil]
  {
    var x, y, c := t.item.node, t.left.item.node, Address(v.nil, t.left.right);
    Inside(v, t, p);
    Inside(v, t.left, OnLeft(p, t.item, t.colour, t.right));
    Inside(v, t.left.right, OnRight(OnLeft(p, t.item, t.colour, t.right), t.left.item, t.left.colour, t.left.left));
    assert Same(v.nodes, w.nodes, PathIds(p) - {Above(p)});
    assert Same(v.nodes, w.nodes, Ids(t) - {x, y, c});
    TurnedRightAt(v, w, t, p);
  }

  // The nodes of a rotation differ.
  predicate Places(v: View, x: nat, y: nat, c: nat, p: Path) {
    && x in v.nodes && y in v.nodes && c in v.nodes && x != y && c != x && c != y && x != v.nil && y != v.nil
    && (!p.Top? ==> p.item.node in v.nodes && p.item.node !in {x, y, c, v.nil})
  }

  lemma PlacesDiffer(v: View, t: Tree, p: Path)
    requires Sound(v) && At(v, t, p) && t.Node?
    ensures t.right.Node? ==> Places(v, t.item.node, t.right.item.node, Address(v.nil, t.right.left), p)
    ensures t.left.Node? ==> Places(v, t.item.node, t.left.item.node, Address(v.nil, t.left.right), p)
  {
    Parts(v.nodes, v.nil, t, Above(p));
    NotNodes(v.nodes, v.nil, t, Above(p));
    PathNodes(v, p, Address(v.nil, t));
    if t.right.Node? {
      Parts(v.nodes, v.nil, t.right, t.item.node);
    }
    if t.left.Node? {
      Parts(v.nodes, v.nil, t.left, t.item.node);
    }
  }

  // ---- Flags ----

  lemma ColouredAt(v: View, t: Tree, p: Path, c: Colour)
    requires Sound(v) && At(v, t, p) && (t.Leaf? ==> c.Black?)
    ensures var x := Address(v.nil, t);
      && x in v.nodes
      && var w := v.(nodes := v.nodes[x := v.nodes[x].(flag := c)]);
         Sound(w) && At(w, Coloured(t, c), p) && w.nodes[v.nil] == v.nodes[v.nil]
  {
    var x := Address(v.nil, t);
    Inside(v, t, p);
    if t.Leaf? {
      assert v.nodes[x := v.nodes[x].(flag := c)] == v.nodes;
    } else {
      Parts(v.nodes, v.nil, t, Above(p));
      var w := v.(nodes := v.nodes[x := v.nodes[x].(flag := c)]);
      ShapeSame(v.nodes, w.nodes, v.nil, t.left, x);
      ShapeSame(v.nodes, w.nodes, v.nil, t.right, x);
      WaySame(v.nodes, w.nodes, v.nil, v.root, p, x);
    }
  }

  // What a node says of the tree.
  lemma Known(v: View, t: Tree, p: Path)
    requires Sound(v) && At(v, t, p)
    ensures var x := Address(v.nil, t);
      && x in v.nodes && x != 0 && (v.nodes[x].left == 0 <==> t.Leaf?) && (v.nodes[x].right == 0 <==> t.Leaf?)
      && v.nodes[x].flag == ColourOf(t)
      && (t.Node? ==>
            && v.nodes[x] == Links(Above(p), Address(v.nil, t.left), Address(v.nil, t.right), t.item.key, t.colour)
            && At(v, t.left, OnLeft(p, t.item, t.colour, t.right))
            && At(v, t.right, OnRight(p, t.item, t.colour, t.left)))
  {
    if t.Node? {
      Parts(v.nodes, v.nil, t, Above(p));
      GoLeft(v, t, p);
      GoRight(v, t, p);
      NotNodes(v.nodes, v.nil, t, Above(p));
      NoNull(v, t.left, t.item.node);
      NoNull(v, t.right, t.item.node);
    }
  }

  lemma NoNull(v: View, t: Tree, parent: nat)
    requires Sound(v) && Shape(v.nodes, v.nil, t, parent)
    ensures Address(v.nil, t) != 0
  {
  }

  // What a rotation reads.
  lemma TurnsLeft(v: View, t: Tree, p: Path)
    requires Sound(v) && At(v, t, p) && t.Node? && t.right.Node?
    ensures var x, y, c := t.item.node, t.right.item.node, Address(v.nil, t.right.left);
      && Places(v, x, y, c, p) && v.nodes[x].right == y != 0 && v.nodes[y].left == c
      && (v.nodes[c].left == 0 <==> t.right.left.Leaf?) && v.nodes[x].parent == Above(p)
      && (!p.Top? ==> (x == v.nodes[p.item.node].left <==> p.OnLeft?))
  {
    PlacesDiffer(v, t, p);
    Known(v, t, p);
    Known(v, t.right, OnRight(p, t.item, t.colour, t.left));
    Known(v, t.right.left, OnLeft(OnRight(p, t.item, t.colour, t.left), t.right.item, t.right.colour, t.right.right));
    if !p.Top? {
      Side(v, t, p);
    }
  }

  lemma TurnsRight(v: View, t: Tree, p: Path)
    requires Sound(v) && At(v, t, p) && t.Node? && t.left.Node?
    ensures var x, y, c := t.item.node, t.left.item.node, Address(v.nil, t.left.right);
      && Places(v, x, y, c, p) && v.nodes[x].left == y != 0 && v.nodes[y].right == c
      && (v.nodes[c].right == 0 <==> t.left.right.Leaf?) && v.nodes[x].parent == Above(p)
      && (!p.Top? ==> (x == v.nodes[p.item.node].left <==> p.OnLeft?))
  {
    PlacesDiffer(v, t, p);
    Known(v, t, p);
    Known(v, t.left, OnLeft(p, t.item, t.colour, t.right));
    Known(v, t.left.right, OnRight(OnLeft(p, t.item, t.colour, t.right), t.left.item, t.left.colour, t.left.left));
    if !p.Top? {
      Side(v, t, p);
    }
  }

  // A node is put in the place of a leaf.
  lemma LinkedAt(v: View, w: View, p: Path, x: Item)
    requires Sound(v) && At(v, Leaf, p) && v.nil == w.nil && x.node != v.nil && x.node != 0 && x.node !in PathIds(p)
    requires Hung(v, w, p, x.node) && x.node in w.nodes && Same(v.nodes, w.nodes, PathIds(p) - {Above(p)})
    requires w.nodes[x.node] == Links(Above(p), v.nil, v.nil, x.key, Red)
    ensures At(w, Node(Leaf, x, Red, Leaf), p)
  {
    Rehung(v, w, p, v.nil, x.node);
  }

  lemma {:induction false} ItemsAreNodes(t: Tree)
    ensures forall x :: x in Items(t) ==> x.node in Ids(t)
  {
    if t.Node? {
      ItemsAreNodes(t.left);
      ItemsAreNodes(t.right);
    }
  }

  // Every node has one item.
  lemma {:induction false} ItemsDiffer(t: Tree)
    requires Own(t)
    ensures forall i, j :: 0 <= i < j < |Items(t)| ==> Items(t)[i].node != Items(t)[j].node
  {
    if t.Node? {
      ItemsDiffer(t.left);
      ItemsDiffer(t.right);
      ItemsAreNodes(t.left);
      ItemsAreNodes(t.right);
      var a, b, s := Items(t.left), Items(t.right), Items(t);
      forall i, j | 0 <= i < j < |s|
        ensures s[i].node != s[j].node
      {
        assert if i < |a| then s[i] == a[i] else i == |a| || s[i] == b[i - |a| - 1];
        assert if j < |a| then s[j] == a[j] else j == |a| || s[j] == b[j - |a| - 1];
      }
    }
  }

  lemma NoZero(v: View, t: Tree)
    requires At(v, t, Top)
    ensures forall x :: x in Items(t) ==> x.node != 0
  {
    ItemsAreNodes(t);
    NotNodes(v.nodes, v.nil, t, 0);
  }

  // ---- Removal ----

  lemma SplicedAt(v: View, w: View, t: Tree, p: Path)
    requires Sound(v) && At(v, t, p) && t.Node? && (t.left.Leaf? || t.right.Leaf?) && v.nil == w.nil
    requires !p.Top? ==> p.item.node in v.nodes
    requires Address(v.nil, Remaining(t)) in v.nodes
    requires w.nodes == HungNodes(v.nodes, p, Address(v.nil, Remaining(t)))
    requires w.root == if p.Top? then Address(v.nil, Remaining(t)) else v.root
    ensures Sound(w) && At(w, Remaining(t), p) && w.nodes[Address(v.nil, Remaining(t))].parent == Above(p)
    ensures t.item.node in v.nodes && t.item.node in w.nodes && w.nodes[t.item.node] == v.nodes[t.item.node]
  {
    var a := Address(v.nil, Remaining(t));
    Inside(v, t, p);
    Parts(v.nodes, v.nil, t, Above(p));
    Known(v, t, p);
    var q := if t.left.Node? then OnLeft(p, t.item, t.colour, t.right) else OnRight(p, t.item, t.colour, t.left);
    Inside(v, Remaining(t), q);
    Reparented(v.nodes, w.nodes, v.nil, Remaining(t), t.item.node, Above(p));
    Replaced(v, w, t, p, Remaining(t));
  }

  // Up from the place of the lowest node, and down again.
  lemma {:induction false} ClimbCut(v: View, s: Tree, u: Tree, p: Path)
    requires s.Node? && At(v, u, LowestPath(s, p))
    ensures At(v, Cut(s, u), p)
    decreases s
  {
    if s.left.Node? {
      ClimbCut(v, s.left, u, OnLeft(p, s.item, s.colour, s.right));
      GoUp(v, Cut(s.left, u), OnLeft(p, s.item, s.colour, s.right));
    }
  }

  lemma {:induction false} DescendCut(v: View, s: Tree, u: Tree, p: Path)
    requires s.Node? && At(v, Cut(s, u), p)
    ensures At(v, u, LowestPath(s, p))
    decreases s
  {
    if s.left.Node? {
      GoLeft(v, Cut(s, u), p);
      DescendCut(v, s.left, u, OnLeft(p, s.item, s.colour, s.right));
    }
  }

  lemma {:induction false} CutIds(s: Tree)
    requires s.Node? && Own(s)
    ensures Lowest(s).item.node in Ids(s)
    ensures Ids(Cut(s, Remaining(Lowest(s)))) == Ids(s) - {Lowest(s).item.node}
    ensures Ids(Remaining(Lowest(s))) <= Ids(s) - {Lowest(s).item.node}
  {
    if s.left.Node? {
      CutIds(s.left);
    }
  }

  lemma {:induction false} LowestAt(v: View, s: Tree, p: Path)
    requires s.Node? && At(v, s, p)
    ensures At(v, Lowest(s), LowestPath(s, p))
    decreases s
  {
    if s.left.Node? {
      GoLeft(v, s, p);
      LowestAt(v, s.left, OnLeft(p, s.item, s.colour, s.right));
    }
  }

  // The lowest node of s is below i, or below a node of s.
  lemma {:induction false} AboveLowest(s: Tree, p: Path, i: Item, j: Item, c: Colour, l: Tree)
    requires s.Node?
    ensures var q, r := LowestPath(s, OnRight(p, i, c, l)), LowestPath(s, OnRight(p, j, c, l));
      if s.left.Leaf? then Above(q) == i.node && Above(r) == j.node else Above(q) == Above(r) && Above(q) in Ids(s)
  {
    if s.left.Node? {
      BelowLeft(s.left, OnRight(p, i, c, l), OnRight(p, j, c, l), s.item, s.colour, s.right);
    }
  }

  lemma {:induction false} BelowLeft(s: Tree, p: Path, q: Path, i: Item, c: Colour, r: Tree)
    requires s.Node?
    ensures Above(LowestPath(s, OnLeft(p, i, c, r))) == Above(LowestPath(s, OnLeft(q, i, c, r)))
    ensures Above(LowestPath(s, OnLeft(p, i, c, r))) in Ids(s) + {i.node}
    decreases s
  {
    if s.left.Node? {
      BelowLeft(s.left, OnLeft(p, i, c, r), OnLeft(q, i, c, r), s.item, s.colour, s.right);
    }
  }

  // What is stored when b takes the place of the node of t.
  ghost predicate Swapped(v: View, w: View, t: Tree, p: Path, b: Item)
    requires t.Node?
  {
    var l, r := Address(v.nil, t.left), Address(v.nil, t.right);
    && b.node in w.nodes && w.nodes[b.node] == Links(Above(p), l, r, b.key, t.colour)
    && (t.left.Node? ==> l in v.nodes && l in w.nodes && w.nodes[l] == v.nodes[l].(parent := b.node))
    && (t.right.Node? ==> r in v.nodes && r in w.nodes && w.nodes[r] == v.nodes[r].(parent := b.node))
    && Hung(v, w, p, b.node) && Same(v.nodes, w.nodes, PathIds(p) - {Above(p)})
    && Same(v.nodes, w.nodes, Ids(t.left) - {l}) && Same(v.nodes, w.nodes, Ids(t.right) - {r})
  }

  lemma SwapApart(v: View, t: Tree, p: Path, b: nat)
    requires Sound(v) && At(v, t, p) && t.Node? && b !in Ids(t) && b !in PathIds(p)
    ensures var n, l, r := t.item.node, Address(v.nil, t.left), Address(v.nil, t.right);
      && n != b && n != l && n != r && (t.left.Node? ==> l != b && l != v.nil && l in Ids(t.left))
      && (t.right.Node? ==> r != b && r != v.nil && r in Ids(t.right))
      && (l == r ==> l == v.nil) && n != v.nil && v.nil !in Ids(t) && v.nil !in PathIds(p)
      && n !in Ids(t.left) && n !in Ids(t.right) && Ids(t.left) !! Ids(t.right)
      && Ids(t) == Ids(t.left) + {n} + Ids(t.right)
      && (!p.Top? ==>
            && p.item.node in v.nodes && p.item.node !in Ids(t) && p.item.node in PathIds(p)
            && (n == v.nodes[p.item.node].left <==> p.OnLeft?))
  {
    Parts(v.nodes, v.nil, t, Above(p));
    Inside(v, t, p);
    Inside(v, t.left, OnLeft(p, t.item, t.colour, t.right));
    Inside(v, t.right, OnRight(p, t.item, t.colour, t.left));
    ChildApart(v, t, p);
  }

  lemma ChildApart(v: View, t: Tree, p: Path)
    requires Sound(v) && At(v, t, p) && t.Node?
    ensures !p.Top? ==>
      && p.item.node in v.nodes && p.item.node != Address(v.nil, t.left) && p.item.node != Address(v.nil, t.right)
      && (t.item.node == v.nodes[p.item.node].left <==> p.OnLeft?)
  {
    Inside(v, t, p);
    GoLeft(v, t, p);
    GoRight(v, t, p);
    if !p.Top? {
      Side(v, t, p);
      Inside(v, t.left, OnLeft(p, t.item, t.colour, t.right));
      Inside(v, t.right, OnRight(p, t.item, t.colour, t.left));
    }
  }

  // b has taken over the children and the colour of n.  If its own child, a, is
  // the sentinel below n, that is made to point at b.
  ghost predicate Taken(m: map<nat, Links>, w: map<nat, Links>, n: nat, b: nat, a: nat, z: nat) {
    && n in m && b in m && b in w && z in m && z in w && (0 in w ==> 0 in m)
    && var l, r := m[n].left, m[n].right;
       && w[b] == m[b].(left := l, right := r, flag := m[n].flag)
       && (l != z ==> l in m && l in w && w[l] == m[l].(parent := b))
       && (r != z ==> r in m && r in w && w[r] == m[r].(parent := b))
       && w[z] == (if a == z && m[z].parent == n then m[z].(parent := b) else m[z])
       && forall k :: k in m && k != b && k != l && k != r && k != z ==> k in w && w[k] == m[k]
  }

  lemma SwapStored(v: View, m: map<nat, Links>, w: View, t: Tree, p: Path, b: nat, a: nat)
    requires Sound(v) && At(v, t, p) && t.Node? && v.nil == w.nil && t.item.node in v.nodes
    requires b in v.nodes && b !in Ids(t) && b !in PathIds(p) && b != v.nil && b != 0
    requires !p.Top? ==> p.item.node in v.nodes
    requires m == HungNodes(v.nodes, p, b) && w.root == if p.Top? then b else v.root
    requires Taken(m, w.nodes, t.item.node, b, a, v.nil)
    ensures Swapped(v, w, t, p, Item(b, v.nodes[b].key)) && Sound(w)
    ensures w.nodes[v.nil].parent
            == if a == v.nil && v.nodes[v.nil].parent == t.item.node then b else v.nodes[v.nil].parent
  {
    Known(v, t, p);
    SwapApart(v, t, p, b);
    assert m[t.item.node] == v.nodes[t.item.node] && m[v.nil] == v.nodes[v.nil];
  }

  lemma SwappedAt(v: View, w: View, t: Tree, p: Path, b: Item)
    requires Sound(v) && At(v, t, p) && t.Node? && v.nil == w.nil && Swapped(v, w, t, p, b)
    requires b.node !in Ids(t) && b.node !in PathIds(p) && b.node != v.nil && b.node != 0
    ensures At(w, Node(t.left, b, t.colour, t.right), p)
  {
    Parts(v.nodes, v.nil, t, Above(p));
    Reparented(v.nodes, w.nodes, v.nil, t.left, t.item.node, b.node);
    Reparented(v.nodes, w.nodes, v.nil, t.right, t.item.node, b.node);
    Rehung(v, w, p, t.item.node, b.node);
  }

  // A node of a tree is at some place in it.
  lemma {:induction false} Locate(v: View, t: Tree, p: Path, n: nat) returns (u: Tree, q: Path)
    requires At(v, t, p) && n in Ids(t)
    ensures At(v, u, q) && u.Node? && u.item.node == n && Plug(u, q) == Plug(t, p)
    decreases t
  {
    if t.item.node == n {
      u, q := t, p;
    } else if n in Ids(t.left) {
      GoLeft(v, t, p);
      u, q := Locate(v, t.left, OnLeft(p, t.item, t.colour, t.right), n);
    } else {
      GoRight(v, t, p);
      u, q := Locate(v, t.right, OnRight(p, t.item, t.colour, t.left), n);
    }
  }

  lemma {:induction false} BeforeArePathNodes(p: Path)
    ensures forall x :: x in Before(p) ==> x.node in PathIds(p)
    decreases p
  {
    if !p.Top? {
      BeforeArePathNodes(p.up);
      ItemsAreNodes(p.sibling);
    }
  }

  lemma OthersBefore(v: View, t: Tree, p: Path)
    requires At(v, t, p) && t.Node?
    ensures forall x :: x in Before(p) + Items(t.left) ==> x.node != t.item.node
  {
    BeforeArePathNodes(p);
    ItemsAreNodes(t.left);
    Parts(v.nodes, v.nil, t, Above(p));
  }

  // What the sentinel points at does not matter in the end.
  lemma Sentinel(v: View, t: Tree)
    requires Sound(v) && At(v, t, Top)
    ensures var w := v.(nodes := v.nodes[v.nil := v.nodes[v.nil].(parent := 0)]);
      Sound(w) && At(w, t, Top)
  {
    var w := v.(nodes := v.nodes[v.nil := v.nodes[v.nil].(parent := 0)]);
    NotNodes(v.nodes, v.nil, t, 0);
    ShapeSame(v.nodes, w.nodes, v.nil, t, 0);
  }

  lemma OnlyPlace(s: seq<Item>, a: seq<Item>, x: Item, b: seq<Item>, i: nat)
    requires s == a + [x] + b && i < |s| && s[i].node == x.node
    requires forall j, k :: 0 <= j < k < |s| ==> s[j].node != s[k].node
    ensures i == |a| && s[i] == x && b == s[i + 1..]
  {
    assert s[|a|] == x;
  }

  class TreeRoot {
    const nil: nat
    var root: nat
    var nodes: map<nat, Links>
    var size: nat
    ghost var tree: Tree

    ghost function Now(): View
      reads this
    {
      View(nil, root, nodes)
    }

    ghost predicate Valid()
      reads this
    {
      && Sound(Now()) && At(Now(), tree, Top)
      && InShape(tree) && Ordered(Items(tree)) && size == |Items(tree)|
    }

    // src/tree.c:50-58
    constructor (nil: nat)
      requires nil != 0
      ensures Valid() && this.nil == nil && tree == Leaf
    {
      this.nil, root, size, tree := nil, nil, 0, Leaf;
      nodes := map[nil := Links(0, 0, 0, 0, Black)];
    }

    // src/tree.c:78-83 and the like: y takes the place of x below p.
    method Hang(x: nat, y: nat, ghost p: Path)
      requires x in nodes && y in nodes && nodes[x].parent == Above(p) && 0 !in nodes
      requires !p.Top? ==> p.item.node in nodes && p.item.node != y && (x == nodes[p.item.node].left <==> p.OnLeft?)
      modifies this`root, this`nodes
      ensures nodes == HungNodes(old(nodes), p, y) && root == if p.Top? then y else old(root)
    {
      var a := nodes[x].parent;
      nodes := nodes[y := nodes[y].(parent := a)];
      if a == 0 {
        root := y;
      } else if x == nodes[a].left {
        nodes := nodes[a := nodes[a].(left := y)];
      } else {
        nodes := nodes[a := nodes[a].(right := y)];
      }
    }

    method SetFlag(x: nat, c: Colour, ghost t: Tree, ghost p: Path)
      requires Sound(Now()) && At(Now(), t, p) && x == Address(nil, t) && (t.Leaf? ==> c.Black?)
      modifies this`nodes
      ensures Sound(Now()) && At(Now(), Coloured(t, c), p) && nil in old(nodes) && nodes[nil] == old(nodes)[nil]
    {
      ColouredAt(Now(), t, p, c);
      nodes := nodes[x := nodes[x].(flag := c)];
    }

    // src/tree.c:64-83
    method RotateLeft(l: nat, ghost t: Tree, ghost p: Path)
      requires Sound(Now()) && At(Now(), t, p) && l == Address(nil, t) && (t.Node? ==> t.right.Node?)
      modifies this`root, this`nodes
      ensures Sound(Now()) && At(Now(), if t.Leaf? then t else TurnedLeft(t), p)
      ensures nil in old(nodes) && nodes[nil] == old(nodes)[nil]
    {
      ghost var was := Now();
      Known(was, t, p);
      var r := nodes[l].right;
      if r == 0 {
        return;
      }
      TurnsLeft(was, t, p);
      var c := nodes[r].left;
      nodes := nodes[l := nodes[l].(right := c)];
      if nodes[c].left != 0 {
        nodes := nodes[c := nodes[c].(parent := l)];
      }
      Hang(l, r, p);
      nodes := nodes[r := nodes[r].(left := l)];
      nodes := nodes[l := nodes[l].(parent := r)];
      LeftNodesStored(was, Now(), t, p);
    }

    // src/tree.c:90-109
    method RotateRight(r: nat, ghost t: Tree, ghost p: Path)
      requires Sound(Now()) && At(Now(), t, p) && r == Address(nil, t) && (t.Node? ==> t.left.Node?)
      modifies this`root, this`nodes
      ensures Sound(Now()) && At(Now(), if t.Leaf? then t else TurnedRight(t), p)
      ensures nil in old(nodes) && nodes[nil] == old(nodes)[nil]
    {
      ghost var was := Now();
      Known(was, t, p);
      var l := nodes[r].left;
      if l == 0 {
        return;
      }
      TurnsRight(was, t, p);
      var c := nodes[l].right;
      nodes := nodes[r := nodes[r].(left := c)];
      if nodes[c].right != 0 {
        nodes := nodes[c := nodes[c].(parent := r)];
      }
      Hang(r, l, p);
      nodes := nodes[l := nodes[l].(right := r)];
      nodes := nodes[r := nodes[r].(parent := l)];
      RightNodesStored(was, Now(), t, p);
    }

    // src/tree.c:149-152 and 168-171: x is the brother of the parent.
    method Recolour(n: nat, x: nat, ghost t: Tree, ghost p: Path) returns (g: nat)
      requires Sound(Now()) && At(Now(), t, p) && n == Address(nil, t) && t.Node? && !p.Top? && !p.up.Top?
      requires x == Address(nil, p.up.sibling)
      modifies this`nodes
      ensures Sound(Now()) && At(Now(), Recoloured(t, p), p.up.up) && g == Address(nil, Recoloured(t, p))
      ensures nil in old(nodes) && nodes[nil] == old(nodes)[nil]
    {
      ghost var pt, q := Joined(t, p), p.up;
      Known(Now(), t, p);
      var b := nodes[n].parent;
      GoUp(Now(), t, p);
      Known(Now(), pt, q);
      g := nodes[b].parent;
      GoAcross(Now(), pt, q);
      SetFlag(x, Black, q.sibling, Across(pt, q));
      GoAcross(Now(), Coloured(q.sibling, Black), Across(pt, q));
      q := Across(Coloured(q.sibling, Black), Across(pt, q));
      SetFlag(b, Black, pt, q);
      GoUp(Now(), Coloured(pt, Black), q);
      SetFlag(g, Red, Joined(Coloured(pt, Black), q), q.up);
    }

    // src/tree.c:156-160 and 175-179
    method Straighten(n: nat, ghost t: Tree, ghost p: Path) returns (m: nat)
      requires Sound(Now()) && At(Now(), t, p) && n == Address(nil, t) && t.Node? && !p.Top? && !p.up.Top?
      modifies this`root, this`nodes
      ensures var (u, q) := Straightened(t, p); Sound(Now()) && At(Now(), u, q) && m == Address(nil, u)
      ensures nil in old(nodes) && nodes[nil] == old(nodes)[nil]
    {
      ghost var pt, q := Joined(t, p), p.up;
      Known(Now(), t, p);
      var b := nodes[n].parent;
      GoUp(Now(), t, p);
      Side(Now(), t, p);
      Side(Now(), pt, q);
      Known(Now(), pt, q);
      m := n;
      if b == nodes[nodes[b].parent].left {
        if n == nodes[b].right {
          m := b;
          RotateLeft(b, pt, q);
          GoLeft(Now(), TurnedLeft(pt), q);
        }
      } else {
        if n == nodes[b].left {
          m := b;
          RotateRight(b, pt, q);
          GoRight(Now(), TurnedRight(pt), q);
        }
      }
    }

    // src/tree.c:161-163 and 180-182
    method Raise(n: nat, left: bool, ghost t: Tree, ghost p: Path)
      requires Sound(Now()) && At(Now(), t, p) && n == Address(nil, t) && t.Node? && Straight(p) && left == p.OnLeft?
      modifies this`root, this`nodes
      ensures Sound(Now()) && At(Now(), t, Raised(p)) && nil in old(nodes) && nodes[nil] == old(nodes)[nil]
    {
      ghost var pt, q := Joined(t, p), p.up;
      Known(Now(), t, p);
      GoUp(Now(), t, p);
      var b := nodes[n].parent;
      Known(Now(), pt, q);
      var g := nodes[b].parent;
      SetFlag(b, Black, pt, q);
      GoUp(Now(), Coloured(pt, Black), q);
      ghost var gt := Joined(Coloured(pt, Black), q);
      SetFlag(g, Red, gt, q.up);
      if left {
        RotateRight(g, Coloured(gt, Red), q.up);
        GoLeft(Now(), TurnedRight(Coloured(gt, Red)), q.up);
      } else {
        RotateLeft(g, Coloured(gt, Red), q.up);
        GoRight(Now(), TurnedLeft(Coloured(gt, Red)), q.up);
      }
    }

    // src/tree.c:146-183: one turn of the loop.
    method Rise(n: nat, ghost t: Tree, ghost p: Path) returns (m: nat, ghost u: Tree, ghost q: Path)
      requires Sound(Now()) && At(Now(), t, p) && n == Address(nil, t)
      requires Rising(t, p) && !p.Top? && p.colour.Red?
      modifies this`root, this`nodes
      ensures Sound(Now()) && At(Now(), u, q) && m == Address(nil, u)
      ensures Rising(u, q) && All(u, q) == All(t, p) && Length(q) < Length(p)
    {
      RecolouredRises(t, p);
      var left, x := Uncle(n, t, p);
      if nodes[x].flag.Red? {
        m := Recolour(n, x, t, p);
        u, q := Recoloured(t, p), p.up.up;
        RecolouredItems(t, p);
      } else {
        m := Straighten(n, t, p);
        StraightenedRises(t, p);
        StraightenedItems(t, p);
        u, q := Straightened(t, p).0, Straightened(t, p).1;
        Raise(m, left, u, q);
        RaisedRises(u, q);
        RaisedItems(q);
        q := Raised(q);
      }
    }

    // The brother of the parent, and whether it is on the right.
    method Uncle(n: nat, ghost t: Tree, ghost p: Path) returns (left: bool, x: nat)
      requires Sound(Now()) && At(Now(), t, p) && n == Address(nil, t) && t.Node? && !p.Top? && !p.up.Top?
      ensures left == p.up.OnLeft? && x == Address(nil, p.up.sibling)
      ensures x in nodes && nodes[x].flag == ColourOf(p.up.sibling)
    {
      Known(Now(), t, p);
      GoUp(Now(), t, p);
      Known(Now(), Joined(t, p), p.up);
      Side(Now(), Joined(t, p), p.up);
      GoUp(Now(), Joined(t, p), p.up);
      Known(Now(), Joined(Joined(t, p), p.up), p.up.up);
      GoAcross(Now(), Joined(t, p), p.up);
      Known(Now(), p.up.sibling, Across(Joined(t, p), p.up));
      var b := nodes[n].parent;
      var g := nodes[b].parent;
      left := b == nodes[g].left;
      x := if left then nodes[g].right else nodes[g].left;
    }

    // src/tree.c:124-133: where a node with key k goes.
    method Descend(k: nat) returns (b: nat, ghost p: Path)
      requires Valid()
      ensures At(Now(), Leaf, p) && Plug(Leaf, p) == tree && b == Above(p)
      ensures UpTo(Before(p), k) && Beyond(After(p), k) && (!p.Top? ==> (p.OnLeft? <==> k < p.item.key))
    {
      var a := root;
      b := 0;
      ghost var t := tree;
      p := Top;
      Known(Now(), t, p);
      while nodes[a].left != 0
        invariant Sound(Now()) && At(Now(), t, p) && a == Address(nil, t) && b == Above(p) && Plug(t, p) == tree
        invariant a in nodes && (nodes[a].left == 0 <==> t.Leaf?)
        invariant UpTo(Before(p), k) && Beyond(After(p), k) && (!p.Top? ==> (p.OnLeft? <==> k < p.item.key))
        decreases t
      {
        Known(Now(), t, p);
        PlugItems(t, p);
        KeyBetween(t, p, k);
        b := a;
        if k < nodes[a].key {
          a := nodes[a].left;
          t, p := t.left, OnLeft(p, t.item, t.colour, t.right);
        } else {
          a := nodes[a].right;
          t, p := t.right, OnRight(p, t.item, t.colour, t.left);
        }
        Known(Now(), t, p);
      }
    }

    // src/tree.c:134-144
    method Link(n: nat, k: nat, b: nat, ghost p: Path)
      requires Sound(Now()) && At(Now(), Leaf, p) && b == Above(p) && n !in PathIds(p) && n != nil && n != 0
      requires !p.Top? ==> (p.OnLeft? <==> k < p.item.key)
      modifies this`root, this`nodes
      ensures Sound(Now()) && At(Now(), Node(Leaf, Item(n, k), Red, Leaf), p)
    {
      ghost var was := Now();
      Inside(was, Leaf, p);
      if b != 0 {
        GoUp(was, Leaf, p);
        Known(was, Joined(Leaf, p), p.up);
      }
      nodes := nodes[n := Links(b, nil, nil, k, Red)];
      if b == 0 {
        root := n;
      } else if k < nodes[b].key {
        nodes := nodes[b := nodes[b].(left := n)];
      } else {
        nodes := nodes[b := nodes[b].(right := n)];
      }
      LinkedAt(was, Now(), p, Item(n, k));
    }

    // src/tree.c:145
    method RedAbove(n: nat, ghost t: Tree, ghost p: Path) returns (more: bool)
      requires Sound(Now()) && At(Now(), t, p) && n == Address(nil, t) && t.Node?
      ensures more <==> !p.Top? && p.colour.Red?
    {
      RootIs(Now(), t, p);
      Known(Now(), t, p);
      if n == root {
        return false;
      }
      GoUp(Now(), t, p);
      Known(Now(), Joined(t, p), p.up);
      return nodes[nodes[n].parent].flag.Red?;
    }

    // src/tree.c:116-186: the node goes behind those with the same key.
    method Insert(n: nat, k: nat)
      requires Valid() && n != 0 && n !in Ids(tree)
      modifies this
      ensures Valid()
      ensures if n == nil then tree == old(tree)
              else
                && Items(tree) == Inserted(old(Items(tree)), Item(n, k))
                && Entries(Items(tree)) == old(Entries(Items(tree))) + {(k as int, n as int)}
    {
      if n == nil {
        return;
      }
      var b, p := Descend(k);
      PlugIds(Leaf, p);
      PlugItems(Leaf, p);
      FitsWhole(Leaf, p);
      InsertedHere(p, Item(n, k));
      InsertedEntries(Items(tree), Item(n, k));
      Link(n, k, b, p);
      Settle(n, Node(Leaf, Item(n, k), Red, Leaf), p);
      size := size + 1;
    }

    // src/tree.c:145-184
    method Settle(n: nat, ghost t0: Tree, ghost p0: Path)
      requires Sound(Now()) && At(Now(), t0, p0) && n == Address(nil, t0) && Rising(t0, p0)
      modifies this`root, this`nodes, this`tree
      ensures Sound(Now()) && At(Now(), tree, Top) && InShape(tree) && Items(tree) == All(t0, p0)
    {
      var m := n;
      ghost var t, p := t0, p0;
      var more := RedAbove(m, t, p);
      while more
        invariant Sound(Now()) && At(Now(), t, p) && m == Address(nil, t)
        invariant Rising(t, p) && All(t, p) == All(t0, p0) && (more <==> !p.Top? && p.colour.Red?)
        decreases Length(p)
      {
        m, t, p := Rise(m, t, p);
        more := RedAbove(m, t, p);
      }
      GoTop(Now(), t, p);
      SetFlag(root, Black, Plug(t, p), Top);
      InsertedFits(t, p);
      tree := Coloured(Plug(t, p), Black);
    }

    // src/tree.c:382-393
    method Minimum(n: nat, ghost t: Tree, ghost p: Path) returns (r: nat)
      requires Sound(Now()) && At(Now(), t, p) && n == Address(nil, t)
      ensures r == if t.Leaf? then 0 else First(Items(t))
      ensures t.Node? ==> r == Lowest(t).item.node
    {
      Known(Now(), t, p);
      if nodes[n].left == 0 {
        return 0;
      }
      r := n;
      ghost var u, q := t, p;
      var a := nodes[r].left;
      Known(Now(), u.left, OnLeft(q, u.item, u.colour, u.right));
      while nodes[a].left != 0
        invariant At(Now(), u, q) && u.Node? && r == u.item.node && a == Address(nil, u.left) && Lowest(u) == Lowest(t)
        invariant a in nodes && (nodes[a].left == 0 <==> u.left.Leaf?)
        decreases u
      {
        GoLeft(Now(), u, q);
        u, q := u.left, OnLeft(q, u.item, u.colour, u.right);
        r := a;
        Known(Now(), u, q);
        a := nodes[r].left;
        Known(Now(), u.left, OnLeft(q, u.item, u.colour, u.right));
      }
      LowestIsFirst(t);
    }

    // src/tree.c:399-410
    method Maximum(n: nat, ghost t: Tree, ghost p: Path) returns (r: nat)
      requires Sound(Now()) && At(Now(), t, p) && n == Address(nil, t)
      ensures r == if t.Leaf? then 0 else Last(Items(t))
    {
      Known(Now(), t, p);
      if nodes[n].right == 0 {
        return 0;
      }
      r := n;
      ghost var u, q := t, p;
      var a := nodes[r].right;
      Known(Now(), u.right, OnRight(q, u.item, u.colour, u.left));
      while nodes[a].right != 0
        invariant At(Now(), u, q) && u.Node? && r == u.item.node && a == Address(nil, u.right)
        invariant Highest(u) == Highest(t) && a in nodes && (nodes[a].right == 0 <==> u.right.Leaf?)
        decreases u
      {
        GoRight(Now(), u, q);
        u, q := u.right, OnRight(q, u.item, u.colour, u.left);
        r := a;
        Known(Now(), u, q);
        a := nodes[r].right;
        Known(Now(), u.right, OnRight(q, u.item, u.colour, u.left));
      }
      HighestIsLast(t);
    }

    // src/tree.c:417-433: the node before n in the order.
    method Predecessor(n: nat, ghost t: Tree, ghost p: Path) returns (r: nat)
      requires Sound(Now()) && At(Now(), t, p) && n == Address(nil, t)
      ensures r == if t.Leaf? then 0 else Last(Before(p) + Items(t.left))
    {
      Known(Now(), t, p);
      if nodes[n].left == 0 {
        return 0;
      }
      Known(Now(), t.left, OnLeft(p, t.item, t.colour, t.right));
      if nodes[nodes[n].left].left != 0 {
        r := Maximum(nodes[n].left, t.left, OnLeft(p, t.item, t.colour, t.right));
        HighestIsLast(t.left);
        return r;
      }
      r := BeforePlace(n, t, p);
      assert Before(p) + Items(t.left) == Before(p);
    }

    method BeforePlace(n0: nat, ghost t0: Tree, ghost p0: Path) returns (a: nat)
      requires Sound(Now()) && At(Now(), t0, p0) && n0 == Address(nil, t0) && t0.Node?
      ensures a == Last(Before(p0))
    {
      var n := n0;
      ghost var t, p := t0, p0;
      Known(Now(), t, p);
      a := nodes[n].parent;
      while a != 0 && n == nodes[a].left
        invariant At(Now(), t, p) && t.Node? && n == t.item.node && a == Above(p) && Last(Before(p)) == Last(Before(p0))
        invariant (a == 0 <==> p.Top?) && (a != 0 ==> a in nodes && (n == nodes[a].left <==> p.OnLeft?))
        decreases p
      {
        GoUp(Now(), t, p);
        t, p := Joined(t, p), p.up;
        Known(Now(), t, p);
        n := a;
        a := nodes[a].parent;
        Beside(t, p);
      }
    }

    // What the climb reads next.
    lemma Beside(t: Tree, p: Path)
      requires Sound(Now()) && At(Now(), t, p) && t.Node?
      ensures Above(p) == 0 <==> p.Top?
      ensures !p.Top? ==>
        && p.item.node in nodes
        && (t.item.node == nodes[p.item.node].left <==> p.OnLeft?)
        && (t.item.node == nodes[p.item.node].right <==> p.OnRight?)
    {
      if !p.Top? {
        Side(Now(), t, p);
        GoUp(Now(), t, p);
        Known(Now(), Joined(t, p), p.up);
      }
    }

    // src/tree.c:441-457: the node after n in the order.
    method Successor(n: nat, ghost t: Tree, ghost p: Path) returns (r: nat)
      requires Sound(Now()) && At(Now(), t, p) && n == Address(nil, t)
      ensures r == if t.Leaf? then 0 else First(Items(t.right) + After(p))
      ensures t.Node? && t.right.Node? ==> r == Lowest(t.right).item.node
    {
      Known(Now(), t, p);
      if nodes[n].right == 0 {
        return 0;
      }
      Known(Now(), t.right, OnRight(p, t.item, t.colour, t.left));
      if nodes[nodes[n].right].right != 0 {
        r := Minimum(nodes[n].right, t.right, OnRight(p, t.item, t.colour, t.left));
        LowestIsFirst(t.right);
        return r;
      }
      r := BehindPlace(n, t, p);
      assert Items(t.right) + After(p) == After(p);
    }

    method BehindPlace(n0: nat, ghost t0: Tree, ghost p0: Path) returns (a: nat)
      requires Sound(Now()) && At(Now(), t0, p0) && n0 == Address(nil, t0) && t0.Node?
      ensures a == First(After(p0))
    {
      var n := n0;
      ghost var t, p := t0, p0;
      Known(Now(), t, p);
      a := nodes[n].parent;
      while a != 0 && n == nodes[a].right
        invariant At(Now(), t, p) && t.Node? && n == t.item.node && a == Above(p) && First(After(p)) == First(After(p0))
        invariant (a == 0 <==> p.Top?) && (a != 0 ==> a in nodes && (n == nodes[a].right <==> p.OnRight?))
        decreases p
      {
        GoUp(Now(), t, p);
        t, p := Joined(t, p), p.up;
        Known(Now(), t, p);
        n := a;
        a := nodes[a].parent;
        Beside(t, p);
      }
    }

    // The descent of the searches: to a node with key k, or to the leaf where
    // it would be, below a.
    method Approach(k: nat) returns (n: nat, a: nat, ghost t: Tree, ghost p: Path)
      requires Valid()
      ensures At(Now(), t, p) && Plug(t, p) == tree && n == Address(nil, t) && n in nodes
      ensures nodes[n].left == 0 <==> t.Leaf?
      ensures nodes[n].right == 0 <==> t.Leaf?
      ensures a == if p.Top? then root else p.item.node
      ensures t.Node? ==> t.item.key == k
      ensures UpTo(Before(p), k - 1) && Beyond(After(p), k) && (!p.Top? ==> (p.OnLeft? <==> k < p.item.key))
      ensures !p.Top? ==> p.item.key != k
    {
      n := root;
      a := n;
      t, p := tree, Top;
      Known(Now(), t, p);
      while nodes[n].left != 0 && k != nodes[n].key
        invariant Sound(Now()) && At(Now(), t, p) && n == Address(nil, t) && Plug(t, p) == tree && n in nodes
        invariant nodes[n].left == 0 <==> t.Leaf?
        invariant nodes[n].right == 0 <==> t.Leaf?
        invariant t.Node? ==> nodes[n].key == t.item.key
        invariant a == if p.Top? then root else p.item.node
        invariant UpTo(Before(p), k - 1) && Beyond(After(p), k) && (!p.Top? ==> (p.OnLeft? <==> k < p.item.key))
        invariant !p.Top? ==> p.item.key != k
        decreases t
      {
        Known(Now(), t, p);
        PlugItems(t, p);
        KeyBetween(t, p, k);
        KeyBetween(t, p, k - 1);
        a := n;
        if k < nodes[n].key {
          n := nodes[n].left;
          t, p := t.left, OnLeft(p, t.item, t.colour, t.right);
        } else {
          n := nodes[n].right;
          t, p := t.right, OnRight(p, t.item, t.colour, t.left);
        }
        Known(Now(), t, p);
      }
    }

    // src/tree.c:310-320, from the root.
    method Search(k: nat) returns (r: nat)
      requires Valid()
      ensures r == 0 <==> forall x :: x in Entries(Items(tree)) ==> x.0 != k
      ensures r != 0 ==> (k as int, r as int) in Entries(Items(tree))
    {
      var n, a, t, p := Approach(k);
      PlugItems(t, p);
      NoZero(Now(), tree);
      if nodes[n].left != 0 {
        ExactMatch(t, p);
        return n;
      }
      assert Items(tree) == Before(p) + After(p);
      NoMatch(Items(tree), Before(p), After(p), k);
      return 0;
    }

    // src/tree.c:329-350, from the root: e is the entry of the node that is
    // found.
    method SearchLower(k: nat) returns (r: nat, ghost e: Option<(int, int)>)
      requires Valid()
      ensures (r == 0 <==> e.None?) && (e.Some? ==> e.value.1 == r)
      // The contract of SearchTrees.SearchLower.
      ensures e.None? <==> forall x :: x in Entries(Items(tree)) ==> x.0 > k
      ensures e.Some? ==> e.value in Entries(Items(tree)) && e.value.0 <= k
                          && forall x :: x in Entries(Items(tree)) && x.0 <= k ==> x.0 <= e.value.0
    {
      var n, a, t, p := Approach(k);
      PlugItems(t, p);
      NoZero(Now(), tree);
      if nodes[n].left != 0 {
        e := Some((k, n));
        ExactMatch(t, p);
        return n, e;
      }
      assert Items(tree) == Before(p) + After(p);
      e := LastEntry(Before(p));
      LowerNeighbour(Items(tree), Before(p), After(p), k, e);
      r := LastBelow(a, k, p);
    }

    // src/tree.c:347-349
    method LastBelow(a: nat, k: nat, ghost p: Path) returns (r: nat)
      requires Valid() && At(Now(), Leaf, p) && Plug(Leaf, p) == tree && a == if p.Top? then root else p.item.node
      requires !p.Top? ==> p.item.key != k && (p.OnLeft? <==> k < p.item.key)
      ensures r == Last(Before(p))
    {
      if p.Top? {
        Known(Now(), Leaf, Top);
      } else {
        GoUp(Now(), Leaf, p);
        Known(Now(), Joined(Leaf, p), p.up);
      }
      if nodes[a].left != 0 && k > nodes[a].key {
        return a;
      }
      r := Predecessor(a, if p.Top? then Leaf else Joined(Leaf, p), if p.Top? then Top else p.up);
      assert !p.Top? ==> Before(p.up) + Items(Leaf) == Before(p);
    }

    // src/tree.c:356-377, from the root.
    method SearchHigher(k: nat) returns (r: nat, ghost e: Option<(int, int)>)
      requires Valid()
      ensures (r == 0 <==> e.None?) && (e.Some? ==> e.value.1 == r)
      // The contract of SearchTrees.SearchHigher.
      ensures e.None? <==> forall x :: x in Entries(Items(tree)) ==> x.0 < k
      ensures e.Some? ==> e.value in Entries(Items(tree)) && e.value.0 >= k
                          && forall x :: x in Entries(Items(tree)) && x.0 >= k ==> x.0 >= e.value.0
    {
      var n, a, t, p := Approach(k);
      PlugItems(t, p);
      NoZero(Now(), tree);
      if nodes[n].right != 0 {
        e := Some((k, n));
        ExactMatch(t, p);
        return n, e;
      }
      assert Items(tree) == Before(p) + After(p);
      e := FirstEntry(After(p));
      HigherNeighbour(Items(tree), Before(p), After(p), k, e);
      r := FirstBeyond(a, k, p);
    }

    // src/tree.c:374-376
    method FirstBeyond(a: nat, k: nat, ghost p: Path) returns (r: nat)
      requires Valid() && At(Now(), Leaf, p) && Plug(Leaf, p) == tree && a == if p.Top? then root else p.item.node
      requires !p.Top? ==> p.item.key != k && (p.OnLeft? <==> k < p.item.key)
      ensures r == First(After(p))
    {
      if p.Top? {
        Known(Now(), Leaf, Top);
      } else {
        GoUp(Now(), Leaf, p);
        Known(Now(), Joined(Leaf, p), p.up);
      }
      if nodes[a].right != 0 && k < nodes[a].key {
        return a;
      }
      r := Successor(a, if p.Top? then Leaf else Joined(Leaf, p), if p.Top? then Top else p.up);
      assert !p.Top? ==> Items(Leaf) + After(p.up) == After(p);
    }

    // src/tree.c:239-245 and 269-275: x is the parent and b the red brother.
    method Lower(x: nat, b: nat, left: bool, ghost t: Tree, ghost p: Path)
      requires Sound(Now()) && At(Now(), t, p) && !p.Top? && p.sibling.Node? && left == p.OnLeft?
      requires x == Above(p) && b == Address(nil, p.sibling)
      modifies this`root, this`nodes
      ensures Sound(Now()) && At(Now(), t, Lowered(p)) && nil in old(nodes) && nodes[nil] == old(nodes)[nil]
    {
      ghost var across := Across(t, p);
      GoAcross(Now(), t, p);
      SetFlag(b, Black, p.sibling, across);
      GoAcross(Now(), Coloured(p.sibling, Black), across);
      ghost var q := Across(Coloured(p.sibling, Black), across);
      GoUp(Now(), t, q);
      SetFlag(x, Red, Joined(t, q), q.up);
      ghost var j := Coloured(Joined(t, q), Red);
      if left {
        RotateLeft(x, j, q.up);
        GoLeft(Now(), TurnedLeft(j), q.up);
        GoLeft(Now(), TurnedLeft(j).left, Lowered(p).up);
      } else {
        RotateRight(x, j, q.up);
        GoRight(Now(), TurnedRight(j), q.up);
        GoRight(Now(), TurnedRight(j).right, Lowered(p).up);
      }
    }

    // src/tree.c:248 and 278
    method Pass(b: nat, ghost t: Tree, ghost p: Path)
      requires Sound(Now()) && At(Now(), t, p) && !p.Top? && p.sibling.Node? && b == Address(nil, p.sibling)
      modifies this`nodes
      ensures Sound(Now()) && At(Now(), Passed(t, p), p.up) && nil in old(nodes) && nodes[nil] == old(nodes)[nil]
    {
      ghost var across := Across(t, p);
      GoAcross(Now(), t, p);
      SetFlag(b, Red, p.sibling, across);
      GoAcross(Now(), Coloured(p.sibling, Red), across);
      GoUp(Now(), t, Across(Coloured(p.sibling, Red), across));
    }

    // src/tree.c:255-258 and 285-288
    method Reach(b: nat, left: bool, ghost t: Tree, ghost p: Path)
      requires Sound(Now()) && At(Now(), t, p) && !p.Top? && p.sibling.Node? && Near(p).Node? && left == p.OnLeft?
      requires b == Address(nil, p.sibling)
      modifies this`root, this`nodes
      ensures Sound(Now()) && At(Now(), t, Reached(p)) && nil in old(nodes) && nodes[nil] == old(nodes)[nil]
    {
      ghost var across, y := Across(t, p), Coloured(p.sibling, Red);
      GoAcross(Now(), t, p);
      SetFlag(b, Red, p.sibling, across);
      Known(Now(), y, across);
      if left {
        ghost var q := OnLeft(across, y.item, Red, y.right);
        SetFlag(nodes[b].left, Black, y.left, q);
        GoUp(Now(), Coloured(y.left, Black), q);
        ghost var z := Joined(Coloured(y.left, Black), q);
        RotateRight(b, z, across);
        GoAcross(Now(), TurnedRight(z), across);
      } else {
        ghost var q := OnRight(across, y.item, Red, y.left);
        SetFlag(nodes[b].right, Black, y.right, q);
        GoUp(Now(), Coloured(y.right, Black), q);
        ghost var z := Joined(Coloured(y.right, Black), q);
        RotateLeft(b, z, across);
        GoAcross(Now(), TurnedLeft(z), across);
      }
    }

    // src/tree.c:260-263 and 290-293
    method Fill(x: nat, b: nat, left: bool, ghost t: Tree, ghost p: Path)
      requires Sound(Now()) && At(Now(), t, p) && !p.Top? && p.sibling.Node? && left == p.OnLeft?
      requires x == Above(p) && b == Address(nil, p.sibling)
      modifies this`root, this`nodes
      ensures Sound(Now()) && At(Now(), Settled(t, p), p.up) && nil in old(nodes) && nodes[nil] == old(nodes)[nil]
    {
      ghost var across, y := Across(t, p), Coloured(p.sibling, p.colour);
      GoUp(Now(), t, p);
      Known(Now(), Joined(t, p), p.up);
      GoAcross(Now(), t, p);
      SetFlag(b, nodes[x].flag, p.sibling, across);
      GoAcross(Now(), y, across);
      GoUp(Now(), t, Across(y, across));
      ghost var j := Joined(t, Across(y, across));
      SetFlag(x, Black, j, p.up);
      j := Coloured(j, Black);
      Known(Now(), j, p.up);
      if left {
        ghost var q := OnRight(p.up, p.item, Black, t);
        Known(Now(), y, q);
        SetFlag(nodes[b].right, Black, y.right, OnRight(q, y.item, y.colour, y.left));
        GoUp(Now(), Coloured(y.right, Black), OnRight(q, y.item, y.colour, y.left));
        ghost var z := Joined(Coloured(y.right, Black), OnRight(q, y.item, y.colour, y.left));
        GoUp(Now(), z, q);
        RotateLeft(x, Joined(z, q), p.up);
      } else {
        ghost var q := OnLeft(p.up, p.item, Black, t);
        Known(Now(), y, q);
        SetFlag(nodes[b].left, Black, y.left, OnLeft(q, y.item, y.colour, y.right));
        GoUp(Now(), Coloured(y.left, Black), OnLeft(q, y.item, y.colour, y.right));
        ghost var z := Joined(Coloured(y.left, Black), OnLeft(q, y.item, y.colour, y.right));
        GoUp(Now(), z, q);
        RotateRight(x, Joined(z, q), p.up);
      }
    }

    // The sentinel is made to point at the node above it while nodes are
    // removed, so that the parent of a place can be found.
    ghost predicate Backed(t: Tree, p: Path)
      reads this
    {
      t.Leaf? ==> nil in nodes && nodes[nil].parent == Above(p)
    }

    // What the loop reads: the parent x and the brother b.
    method Brother(a: nat, ghost t: Tree, ghost p: Path) returns (x: nat, b: nat, left: bool)
      requires Sound(Now()) && At(Now(), t, p) && a == Address(nil, t) && Backed(t, p) && !p.Top? && p.sibling.Node?
      ensures x == Above(p) && b == Address(nil, p.sibling) && left == p.OnLeft?
      ensures b in nodes && nodes[b].flag == p.sibling.colour
    {
      Known(Now(), t, p);
      Side(Now(), t, p);
      GoUp(Now(), t, p);
      Known(Now(), Joined(t, p), p.up);
      GoAcross(Now(), t, p);
      Known(Now(), p.sibling, Across(t, p));
      x := nodes[a].parent;
      left := a == nodes[x].left;
      b := if left then nodes[x].right else nodes[x].left;
    }

    // src/tree.c:246-248 and 253: the flags of the children of the brother.
    method Nephews(b: nat, left: bool, ghost t: Tree, ghost p: Path) returns (near: Colour, far: Colour)
      requires Sound(Now()) && At(Now(), t, p) && !p.Top? && p.sibling.Node? && left == p.OnLeft?
      requires b == Address(nil, p.sibling)
      ensures near == ColourOf(Near(p)) && far == ColourOf(Far(p))
    {
      ghost var s, across := p.sibling, Across(t, p);
      GoAcross(Now(), t, p);
      Known(Now(), s, across);
      Known(Now(), s.left, OnLeft(across, s.item, s.colour, s.right));
      Known(Now(), s.right, OnRight(across, s.item, s.colour, s.left));
      near := if left then nodes[nodes[b].left].flag else nodes[nodes[b].right].flag;
      far := if left then nodes[nodes[b].right].flag else nodes[nodes[b].left].flag;
    }

    // src/tree.c:246-265 and 276-295: the brother is black.
    method MendBlack(a: nat, x0: nat, b0: nat, left: bool, ghost t: Tree, ghost p0: Path)
      returns (c: nat, ghost u: Tree, ghost q: Path)
      requires Sound(Now()) && At(Now(), t, p0) && a == Address(nil, t) && Backed(t, p0)
      requires Deficit(t, p0) && ColourOf(t).Black? && !p0.Top? && ColourOf(p0.sibling).Black? && p0.sibling.Node?
      requires x0 == Above(p0) && b0 == Address(nil, p0.sibling) && left == p0.OnLeft?
      modifies this`root, this`nodes
      ensures Sound(Now()) && At(Now(), u, q) && c == Address(nil, u) && Backed(u, q)
      ensures Deficit(u, q) && All(u, q) == All(t, p0)
      ensures ColourOf(u).Black? ==> q.Top? || (p0.colour.Black? && Length(q) < Length(p0))
    {
      var x, b := x0, b0;
      ghost var p := p0;
      var near, far := Nephews(b, left, t, p);
      if near.Black? && far.Black? {
        PassedFits(t, p);
        PassedItems(t, p);
        Pass(b, t, p);
        return x, Passed(t, p), p.up;
      }
      if far.Black? {
        ReachedFits(t, p);
        ReachedItems(p);
        Reach(b, left, t, p);
        p := Reached(p);
        var same;
        x, b, same := Brother(a, t, p);
      }
      SettledFits(t, p);
      SettledWhole(t, p);
      Fill(x, b, left, t, p);
      GoTop(Now(), Settled(t, p), p.up);
      c, u, q := root, Plug(Settled(t, p), p.up), Top;
    }

    // src/tree.c:237-296: one turn of the loop.
    method Mend(a: nat, ghost t: Tree, ghost p: Path) returns (c: nat, ghost u: Tree, ghost q: Path)
      requires Sound(Now()) && At(Now(), t, p) && a == Address(nil, t) && Backed(t, p)
      requires Deficit(t, p) && ColourOf(t).Black? && !p.Top?
      modifies this`root, this`nodes
      ensures Sound(Now()) && At(Now(), u, q) && c == Address(nil, u) && Backed(u, q)
      ensures Deficit(u, q) && All(u, q) == All(t, p) && (ColourOf(u).Black? ==> Length(q) < Length(p))
    {
      BrotherIs(t, p);
      var x, b, left := Brother(a, t, p);
      q := p;
      if nodes[b].flag.Red? {
        Lower(x, b, left, t, p);
        LoweredFits(t, p);
        LoweredItems(p);
        q := Lowered(p);
        BrotherIs(t, q);
        x, b, left := Brother(a, t, q);
      }
      c, u, q := MendBlack(a, x, b, left, t, q);
    }

    // src/tree.c:236-297
    method Restore(a0: nat, ghost t0: Tree, ghost p0: Path)
      requires Sound(Now()) && At(Now(), t0, p0) && a0 == Address(nil, t0) && Backed(t0, p0) && Deficit(t0, p0)
      modifies this`root, this`nodes, this`tree
      ensures Sound(Now()) && At(Now(), tree, Top) && InShape(tree) && Items(tree) == All(t0, p0)
    {
      var a := a0;
      ghost var t, p := t0, p0;
      RootIs(Now(), t, p);
      Known(Now(), t, p);
      while a != root && nodes[a].flag.Black?
        invariant Sound(Now()) && At(Now(), t, p) && a == Address(nil, t) && Backed(t, p)
        invariant Deficit(t, p) && All(t, p) == All(t0, p0)
        invariant a in nodes && nodes[a].flag == ColourOf(t) && (a == root <==> p.Top?)
        decreases if ColourOf(t).Black? then Length(p) else 0
      {
        a, t, p := Mend(a, t, p);
        RootIs(Now(), t, p);
        Known(Now(), t, p);
      }
      SetFlag(a, Black, t, p);
      RemovedFits(t, p);
      GoTop(Now(), Coloured(t, Black), p);
      tree := Plug(Coloured(t, Black), p);
    }

    // src/tree.c:207-217: the child of b takes its place.
    method Splice(b: nat, ghost t: Tree, ghost p: Path) returns (a: nat, f: Colour)
      requires Sound(Now()) && At(Now(), t, p) && t.Node? && (t.left.Leaf? || t.right.Leaf?) && b == Address(nil, t)
      modifies this`root, this`nodes
      ensures Sound(Now()) && At(Now(), Remaining(t), p) && a == Address(nil, Remaining(t)) && f == t.colour
      ensures a in nodes && nodes[a].parent == Above(p)
      ensures b in old(nodes) && b in nodes && nodes[b] == old(nodes)[b] && nodes[b].key == t.item.key
    {
      ghost var was := Now();
      Known(was, t, p);
      Known(was, t.left, OnLeft(p, t.item, t.colour, t.right));
      Known(was, t.right, OnRight(p, t.item, t.colour, t.left));
      a := if nodes[nodes[b].left].left != 0 then nodes[b].left else nodes[b].right;
      ChildApart(was, t, p);
      Hang(b, a, p);
      SplicedAt(was, Now(), t, p);
      f := nodes[b].flag;
    }

    // src/tree.c:220-232: b takes the place of n.  The child of b is at a.
    method Swap(n: nat, b: nat, a: nat, ghost t: Tree, ghost p: Path)
      requires Sound(Now()) && At(Now(), t, p) && t.Node? && n == Address(nil, t)
      requires b !in Ids(t) && b !in PathIds(p) && b != nil && b != 0 && b in nodes && a in nodes
      requires a == nil || a == Address(nil, t.right) || (nodes[a].parent != n && a != b)
      modifies this`root, this`nodes
      ensures b in old(nodes)
      ensures Sound(Now()) && At(Now(), Node(t.left, Item(b, old(nodes)[b].key), t.colour, t.right), p)
      ensures nil in old(nodes)
              && nodes[nil].parent
                 == if a == nil && old(nodes)[nil].parent == n then b else old(nodes)[nil].parent
    {
      ghost var was := Now();
      Known(was, t, p);
      Known(was, t.left, OnLeft(p, t.item, t.colour, t.right));
      Known(was, t.right, OnRight(p, t.item, t.colour, t.left));
      SwapApart(was, t, p, b);
      Hang(n, b, p);
      ghost var mid := nodes;
      Take(n, b, a);
      SwapStored(was, mid, Now(), t, p, b, a);
      SwappedAt(was, Now(), t, p, Item(b, was.nodes[b].key));
    }

    // The address is that of the sentinel or of a node.
    ghost predicate Real(x: nat)
      reads this
    {
      && x in nodes && (nodes[x].left == 0 <==> x == nil) && (nodes[x].right == 0 <==> x == nil)
    }

    // src/tree.c:226-232
    method Take(n: nat, b: nat, a: nat)
      requires nil in nodes && n in nodes && b in nodes && a in nodes && n != b && n != nil && b != nil && a != b
      requires Real(nodes[n].left) && Real(nodes[n].right) && nodes[n].left != b && nodes[n].right != b
      requires nodes[n].left != n && nodes[n].right != n && nodes[n].left != 0 && nodes[n].right != 0
      requires nodes[n].left == nodes[n].right ==> nodes[n].left == nil
      requires a == nil || a == nodes[n].right || nodes[a].parent != n
      modifies this`nodes
      ensures Taken(old(nodes), nodes, n, b, a, nil)
    {
      var l := nodes[n].left;
      nodes := nodes[b := nodes[b].(left := l)];
      if nodes[l].left != 0 {
        nodes := nodes[l := nodes[l].(parent := b)];
      }
      var r := nodes[n].right;
      nodes := nodes[b := nodes[b].(right := r)];
      if nodes[r].right != 0 {
        nodes := nodes[r := nodes[r].(parent := b)];
      }
      if nodes[a].parent == n {
        nodes := nodes[a := nodes[a].(parent := b)];
      }
      nodes := nodes[b := nodes[b].(flag := nodes[n].flag)];
    }

    // src/tree.c:203-233: the place that loses a node, and the colour that it
    // loses.
    method TakeOut(n: nat, ghost t: Tree, ghost p: Path) returns (a: nat, f: Colour)
      requires Sound(Now()) && At(Now(), t, p) && t.Node? && n == Address(nil, t)
      modifies this`root, this`nodes
      ensures Sound(Now()) && At(Now(), Remaining(Leaving(t)), LeavingPath(t, p))
      ensures a == Address(nil, Remaining(Leaving(t))) && f == Leaving(t).colour
      ensures Backed(Remaining(Leaving(t)), LeavingPath(t, p))
    {
      Known(Now(), t, p);
      Known(Now(), t.left, OnLeft(p, t.item, t.colour, t.right));
      Known(Now(), t.right, OnRight(p, t.item, t.colour, t.left));
      if nodes[nodes[n].left].left == 0 || nodes[nodes[n].right].right == 0 {
        a, f := Splice(n, t, p);
        return;
      }
      var b := Successor(n, t, p);
      ghost var q := OnRight(p, t.item, t.colour, t.left);
      Inside(Now(), t, p);
      NotNodes(Now().nodes, nil, t, Above(p));
      LowestAt(Now(), t.right, q);
      a, f := Splice(b, Lowest(t.right), LowestPath(t.right, q));
      Exchange(n, b, a, t, p);
    }

    method Exchange(n: nat, b: nat, a: nat, ghost t: Tree, ghost p: Path)
      requires Sound(Now()) && t.Node? && t.left.Node? && t.right.Node?
      requires n == t.item.node && b == Lowest(t.right).item.node
      requires Own(t) && Ids(t) !! PathIds(p) && nil !in Ids(t) && 0 !in Ids(t)
      requires b in nodes && nodes[b].key == Lowest(t.right).item.key
      requires a == Address(nil, Remaining(Lowest(t.right))) && a in nodes
      requires var q := LowestPath(t.right, OnRight(p, t.item, t.colour, t.left));
        At(Now(), Remaining(Lowest(t.right)), q) && nodes[a].parent == Above(q)
      modifies this`root, this`nodes
      ensures Sound(Now()) && At(Now(), Remaining(Leaving(t)), LeavingPath(t, p))
      ensures Backed(Remaining(Leaving(t)), LeavingPath(t, p))
    {
      ghost var u := Remaining(Lowest(t.right));
      ghost var cut := Cut(t.right, u);
      ClimbCut(Now(), t.right, u, OnRight(p, t.item, t.colour, t.left));
      GoUp(Now(), cut, OnRight(p, t.item, t.colour, t.left));
      CutIds(t.right);
      AboveLowest(t.right, p, t.item, Lowest(t.right).item, t.colour, t.left);
      assert a == nil || a in Ids(u);
      Swap(n, b, a, Node(t.left, t.item, t.colour, cut), p);
      GoRight(Now(), Node(t.left, Lowest(t.right).item, t.colour, cut), p);
      DescendCut(Now(), t.right, u, OnRight(p, Lowest(t.right).item, t.colour, t.left));
    }

    // src/tree.c:194-301: exactly node n goes.
    method Remove(n: nat)
      requires Valid() && (n == nil || n in Ids(tree))
      modifies this
      ensures Valid()
      ensures if n == nil then tree == old(tree)
              else
                && Items(tree) == Without(old(Items(tree)), n)
                && Entries(Items(tree)) == set e | e in old(Entries(Items(tree))) && e.1 != n
    {
      if n == nil {
        return;
      }
      ghost var t, p := Find(n);
      var a, f := TakeOut(n, t, p);
      if f.Black? {
        Restore(a, Remaining(Leaving(t)), LeavingPath(t, p));
      } else {
        Whole(Remaining(Leaving(t)), LeavingPath(t, p));
      }
      Sentinel(Now(), tree);
      nodes := nodes[nil := nodes[nil].(parent := 0)];
      size := size - 1;
    }

    // Where n is, and what will be left without it.
    lemma Find(n: nat) returns (t: Tree, p: Path)
      requires Valid() && n in Ids(tree)
      ensures At(Now(), t, p) && t.Node? && n == t.item.node && All(t, p) == Items(tree)
      ensures var a, q, r := Remaining(Leaving(t)), LeavingPath(t, p), Without(Items(tree), n);
        && (if Leaving(t).colour.Red? then Fits(a, q) else Deficit(a, q))
        && All(a, q) == r && Ordered(r) && |r| == size - 1
        && Entries(r) == set e | e in Entries(Items(tree)) && e.1 != n
    {
      t, p := Locate(Now(), tree, Top, n);
      PlugItems(t, p);
      FitsWhole(t, p);
      OthersBefore(Now(), t, p);
      ItemsDiffer(tree);
      WithoutEntries(Items(tree), n);
      TakenOut(t, p);
      LeavingFits(t, p);
    }

    ghost method Whole(t: Tree, p: Path)
      requires Sound(Now()) && At(Now(), t, p) && Fits(t, p)
      modifies this`tree
      ensures At(Now(), tree, Top) && InShape(tree) && Items(tree) == All(t, p)
    {
      PlugItems(t, p);
      FitsWhole(t, p);
      GoTop(Now(), t, p);
      tree := Plug(t, p);
    }

    // src/profile.c:424-425 and other loops: from the first node from successor
    // to successor.
    method Traverse() returns (r: seq<nat>)
      requires Valid()
      ensures |r| == size && forall i :: 0 <= i < |r| ==> r[i] == Items(tree)[i].node
    {
      var n := Minimum(root, tree, Top);
      NoZero(Now(), tree);
      r := [];
      while n != 0
        invariant |r| <= size && n == First(Items(tree)[|r|..])
        invariant forall i :: 0 <= i < |r| ==> r[i] == Items(tree)[i].node
        decreases size - |r|
      {
        ghost var t, p := Place(|r|);
        r := r + [n];
        n := Successor(n, t, p);
      }
    }

    // The place of node i in the order.
    lemma Place(i: nat) returns (t: Tree, p: Path)
      requires Valid() && i < size
      ensures At(Now(), t, p) && t.Node? && t.item == Items(tree)[i]
      ensures Items(t.right) + After(p) == Items(tree)[i + 1..]
    {
      var s := Items(tree);
      ItemsAreNodes(tree);
      ItemsDiffer(tree);
      t, p := Locate(Now(), tree, Top, s[i].node);
      PlugItems(t, p);
      Regroup(Before(p), Items(t.left), [t.item], Items(t.right), After(p));
      OnlyPlace(s, Before(p) + Items(t.left), t.item, Items(t.right) + After(p), i);
    }
  }
}
