// The red-black trees of src/tree.c as values: a tree, or a place in a tree with
// the way back to the root.  Keys may repeat.
module RedBlack {
  import opened Memory

  datatype Item = Item(node: nat, key: nat)

  datatype Colour = Red | Black

  datatype Tree = Leaf | Node(left: Tree, item: Item, colour: Colour, right: Tree)

  // The parents of a place, with what hangs on their other side.
  datatype Path =
    | Top
    | OnLeft(up: Path, item: Item, colour: Colour, sibling: Tree)
    | OnRight(up: Path, item: Item, colour: Colour, sibling: Tree)

  // The sentinel is black.
  function ColourOf(t: Tree): Colour {
    if t.Leaf? then Black else t.colour
  }

  function Coloured(t: Tree, c: Colour): Tree {
    if t.Leaf? then t else t.(colour := c)
  }

  // The tree of the parent.
  function Joined(t: Tree, p: Path): Tree
    requires !p.Top?
  {
    if p.OnLeft? then Node(t, p.item, p.colour, p.sibling) else Node(p.sibling, p.item, p.colour, t)
  }

  // The whole tree.
  function Plug(t: Tree, p: Path): Tree
    decreases p
  {
    if p.Top? then t else Plug(Joined(t, p), p.up)
  }

  // The place on the other side of the parent.
  function Across(t: Tree, p: Path): Path
    requires !p.Top?
  {
    if p.OnLeft? then OnRight(p.up, p.item, p.colour, t) else OnLeft(p.up, p.item, p.colour, t)
  }

  function Length(p: Path): nat {
    if p.Top? then 0 else 1 + Length(p.up)
  }

  // ---- Order ----

  function Items(t: Tree): seq<Item> {
    if t.Leaf? then [] else Items(t.left) + [t.item] + Items(t.right)
  }

  // What comes before a place, and after it.
  function Before(p: Path): seq<Item> {
    match p
    case Top => []
    case OnLeft(up, _, _, _) => Before(up)
    case OnRight(up, item, _, sibling) => Before(up) + Items(sibling) + [item]
  }

  function After(p: Path): seq<Item> {
    match p
    case Top => []
    case OnLeft(up, item, _, sibling) => [item] + Items(sibling) + After(up)
    case OnRight(up, _, _, _) => After(up)
  }

  function All(t: Tree, p: Path): seq<Item> {
    Before(p) + Items(t) + After(p)
  }

  lemma UpItems(t: Tree, p: Path)
    requires !p.Top?
    ensures All(Joined(t, p), p.up) == All(t, p)
  {
    if p.OnLeft? {
      assert Items(Joined(t, p)) == Items(t) + [p.item] + Items(p.sibling);
    } else {
      assert Items(Joined(t, p)) == Items(p.sibling) + [p.item] + Items(t);
    }
  }

  lemma {:induction false} PlugItems(t: Tree, p: Path)
    ensures Items(Plug(t, p)) == All(t, p)
    decreases p
  {
    if !p.Top? {
      UpItems(t, p);
      PlugItems(Joined(t, p), p.up);
    }
  }

  ghost predicate Ordered(s: seq<Item>) {
    forall i, j :: 0 <= i < j < |s| ==> s[i].key <= s[j].key
  }

  // src/tree.c:64-109
  function TurnedLeft(t: Tree): Tree
    requires t.Node? && t.right.Node?
  {
    Node(Node(t.left, t.item, t.colour, t.right.left), t.right.item, t.right.colour, t.right.right)
  }

  function TurnedRight(t: Tree): Tree
    requires t.Node? && t.left.Node?
  {
    Node(t.left.left, t.left.item, t.left.colour, Node(t.left.right, t.item, t.colour, t.right))
  }

  // A rotation keeps the order, and the other one undoes it.
  lemma Turned(t: Tree)
    requires t.Node?
    ensures t.right.Node? ==> Items(TurnedLeft(t)) == Items(t) && TurnedRight(TurnedLeft(t)) == t
    ensures t.left.Node? ==> Items(TurnedRight(t)) == Items(t) && TurnedLeft(TurnedRight(t)) == t
  {
  }

  // ---- Colours ----

  // The black nodes on the way down.
  function Height(t: Tree): nat {
    if t.Leaf? then 0 else Height(t.left) + if t.colour.Black? then 1 else 0
  }

  // All ways down have the same number of black nodes, and no red node has a
  // red child.
  predicate Balanced(t: Tree) {
    t.Node? ==>
      && Balanced(t.left) && Balanced(t.right) && Height(t.left) == Height(t.right)
      && (t.colour.Red? ==> ColourOf(t.left).Black? && ColourOf(t.right).Black?)
  }

  predicate InShape(t: Tree) {
    Balanced(t) && ColourOf(t).Black?
  }

  // A tree of black height h would be balanced here, were it not for its own
  // colour.
  predicate Holds(p: Path, h: nat)
    decreases p
  {
    !p.Top? ==>
      && Balanced(p.sibling) && Height(p.sibling) == h
      && if p.colour.Red? then BlackStep(p.up) && ColourOf(p.sibling).Black? && Holds(p.up, h) else Holds(p.up, h + 1)
  }

  predicate BlackStep(p: Path) {
    !p.Top? && p.colour.Black?
  }

  predicate Fits(t: Tree, p: Path) {
    Balanced(t) && Holds(p, Height(t)) && (ColourOf(t).Red? ==> BlackStep(p))
  }

  lemma FitsUp(t: Tree, p: Path)
    requires !p.Top?
    ensures Fits(t, p) <==> Fits(Joined(t, p), p.up)
  {
  }

  lemma {:induction false} FitsWhole(t: Tree, p: Path)
    ensures Fits(t, p) <==> InShape(Plug(t, p))
    decreases p
  {
    if !p.Top? {
      FitsUp(t, p);
      FitsWhole(Joined(t, p), p.up);
    }
  }

  function Depth(t: Tree): nat {
    if t.Leaf? then 0 else 1 + if Depth(t.left) < Depth(t.right) then Depth(t.right) else Depth(t.left)
  }

  // 2 to the power of n.
  function Power(n: nat): nat {
    if n == 0 then 1 else 2 * Power(n - 1)
  }

  // Half the depth is at most the logarithm of the number of nodes.
  lemma {:induction false} DepthIsSmall(t: Tree)
    requires Balanced(t)
    ensures Depth(t) <= 2 * Height(t) + (if ColourOf(t).Red? then 1 else 0)
    ensures Power(Height(t)) <= |Items(t)| + 1
  {
    if t.Node? {
      DepthIsSmall(t.left);
      DepthIsSmall(t.right);
    }
  }

  lemma {:induction false} PowerGrows(m: nat, n: nat)
    requires m <= n
    ensures Power(m) <= Power(n)
    decreases n
  {
    if m < n {
      PowerGrows(m, n - 1);
    }
  }

  // A tree of n nodes is no deeper than twice the logarithm of n + 1.
  lemma DepthIsLogarithmic(t: Tree)
    requires InShape(t)
    ensures Power((Depth(t) + 1) / 2) <= |Items(t)| + 1
  {
    DepthIsSmall(t);
    PowerGrows((Depth(t) + 1) / 2, Height(t));
  }

  // ---- Insertion ----

  ghost predicate UpTo(s: seq<Item>, k: int) {
    forall i :: 0 <= i < |s| ==> s[i].key <= k
  }

  ghost predicate Beyond(s: seq<Item>, k: int) {
    forall i :: 0 <= i < |s| ==> k < s[i].key
  }

  // A key that is not below that of t is not below what comes before t's right
  // side, and the other way round.
  lemma KeyBetween(t: Tree, p: Path, k: int)
    requires t.Node? && Ordered(All(t, p))
    ensures UpTo(Before(p), k) && t.item.key <= k ==> UpTo(Before(p) + Items(t.left) + [t.item], k)
    ensures Beyond(After(p), k) && k < t.item.key ==> Beyond([t.item] + Items(t.right) + After(p), k)
  {
    var a, b := Before(p) + Items(t.left), Items(t.right) + After(p);
    Regroup(Before(p), Items(t.left), [t.item], Items(t.right), After(p));
    Around(a, t.item, b);
    if t.item.key <= k {
      UpToMore(a, t.item, k);
    } else {
      BeyondMore(t.item, b, k);
    }
  }

  lemma UpToMore(a: seq<Item>, x: Item, k: int)
    requires x.key <= k && forall i :: 0 <= i < |a| ==> a[i].key <= x.key
    ensures UpTo(a + [x], k)
  {
  }

  lemma BeyondMore(x: Item, b: seq<Item>, k: int)
    requires k < x.key && forall i :: 0 <= i < |b| ==> x.key <= b[i].key
    ensures Beyond([x] + b, k)
  {
  }

  lemma Regroup(a: seq<Item>, b: seq<Item>, c: seq<Item>, d: seq<Item>, e: seq<Item>)
    ensures a + (b + c + d) + e == (a + b) + c + (d + e) && c + d + e == c + (d + e)
  {
  }

  lemma Around(a: seq<Item>, x: Item, b: seq<Item>)
    requires Ordered(a + [x] + b)
    ensures forall i :: 0 <= i < |a| ==> a[i].key <= x.key
    ensures forall i :: 0 <= i < |b| ==> x.key <= b[i].key
  {
    var s := a + [x] + b;
    assert s[|a|] == x;
    assert forall i :: 0 <= i < |a| ==> s[i] == a[i];
    assert forall i :: 0 <= i < |b| ==> s[|a| + 1 + i] == b[i];
  }

  // Where an item goes: behind those with the same key.
  function Inserted(s: seq<Item>, x: Item): seq<Item> {
    if s == [] || x.key < s[0].key then [x] + s else [s[0]] + Inserted(s[1..], x)
  }

  lemma {:induction false} InsertedBetween(a: seq<Item>, b: seq<Item>, x: Item)
    requires UpTo(a, x.key) && Beyond(b, x.key)
    ensures Inserted(a + b, x) == a + [x] + b
  {
    if a == [] {
      assert a + b == b;
    } else {
      assert (a + b)[1..] == a[1..] + b;
      InsertedBetween(a[1..], b, x);
    }
  }

  lemma InsertedOrdered(a: seq<Item>, b: seq<Item>, x: Item)
    requires Ordered(a + b) && UpTo(a, x.key) && Beyond(b, x.key)
    ensures Ordered(a + [x] + b)
  {
    var s, r := a + b, a + [x] + b;
    assert forall i :: 0 <= i < |a| ==> r[i] == a[i] == s[i];
    assert forall i :: |a| < i < |r| ==> r[i] == b[i - |a| - 1] == s[i - 1];
  }

  lemma InsertedHere(p: Path, x: Item)
    requires Ordered(All(Leaf, p)) && UpTo(Before(p), x.key) && Beyond(After(p), x.key)
    ensures var r := All(Node(Leaf, x, Red, Leaf), p);
      r == Inserted(All(Leaf, p), x) && Ordered(r) && |r| == |All(Leaf, p)| + 1
  {
    assert All(Leaf, p) == Before(p) + After(p);
    assert Items(Node(Leaf, x, Red, Leaf)) == [x];
    InsertedBetween(Before(p), After(p), x);
    InsertedOrdered(Before(p), After(p), x);
  }

  // A new node is red.  Only its parent may be red as well.
  predicate Rising(t: Tree, p: Path) {
    t.Node? && t.colour.Red? && Balanced(t) && Holds(p, Height(t))
  }

  // src/tree.c:149-152 and 168-171: the parent and its brother are made black,
  // the grandparent red.
  function Recoloured(t: Tree, p: Path): Tree
    requires !p.Top? && !p.up.Top?
  {
    var q := p.up;
    Joined(Coloured(Joined(t, p), Black), q.(colour := Red, sibling := Coloured(q.sibling, Black)))
  }

  // src/tree.c:156-160 and 175-179: the parent is turned below the node, so that
  // both are on the same side.
  function Straightened(t: Tree, p: Path): (r: (Tree, Path))
    requires t.Node? && !p.Top? && !p.up.Top?
  {
    if p.OnRight? && p.up.OnLeft? then
      (Node(p.sibling, p.item, p.colour, t.left), OnLeft(p.up, t.item, t.colour, t.right))
    else if p.OnLeft? && p.up.OnRight? then
      (Node(t.right, p.item, p.colour, p.sibling), OnRight(p.up, t.item, t.colour, t.left))
    else (t, p)
  }

  predicate Straight(p: Path) {
    !p.Top? && !p.up.Top? && (p.OnLeft? <==> p.up.OnLeft?)
  }

  // src/tree.c:161-163 and 180-182: the grandparent is turned below the parent.
  function Raised(p: Path): Path
    requires Straight(p)
  {
    var q := p.up;
    if p.OnLeft? then OnLeft(q.up, p.item, Black, Node(p.sibling, q.item, Red, q.sibling))
    else OnRight(q.up, p.item, Black, Node(q.sibling, q.item, Red, p.sibling))
  }

  // What is known of the parent and the grandparent.
  lemma RedParent(p: Path, h: nat)
    requires !p.Top? && p.colour.Red? && Holds(p, h)
    ensures BlackStep(p.up) && Balanced(p.sibling) && ColourOf(p.sibling).Black? && Height(p.sibling) == h
    ensures Holds(p.up, h) && Balanced(p.up.sibling) && Height(p.up.sibling) == h && Holds(p.up.up, h + 1)
  {
  }

  lemma JoinedBalanced(l: Tree, i: Item, r: Tree)
    requires Balanced(l) && Balanced(r) && Height(l) == Height(r) && ColourOf(l).Black? && ColourOf(r).Black?
    ensures Balanced(Node(l, i, Red, r)) && Height(Node(l, i, Red, r)) == Height(l)
  {
  }

  lemma BlackenedBalanced(t: Tree)
    requires Balanced(t)
    ensures Balanced(Coloured(t, Black)) && Height(Coloured(t, Black)) == Height(t) + if ColourOf(t).Red? then 1 else 0
  {
  }

  lemma BlackenedHeight(t: Tree)
    ensures Height(Coloured(t, Black)) == Height(t) + if ColourOf(t).Red? then 1 else 0
    ensures Items(Coloured(t, Black)) == Items(t)
  {
  }

  lemma RecolouredRises(t: Tree, p: Path)
    requires Rising(t, p) && !p.Top? && p.colour.Red?
    ensures !p.up.Top? && (ColourOf(p.up.sibling).Red? ==> Rising(Recoloured(t, p), p.up.up))
  {
    RedParent(p, Height(t));
    var q := p.up;
    if ColourOf(q.sibling).Red? {
      BlackenedBalanced(q.sibling);
      var black := Coloured(Joined(t, p), Black);
      assert Balanced(black) && Height(black) == Height(t) + 1;
      if q.OnLeft? {
        JoinedBalanced(black, q.item, Coloured(q.sibling, Black));
      } else {
        JoinedBalanced(Coloured(q.sibling, Black), q.item, black);
      }
    }
  }

  lemma RecolouredItems(t: Tree, p: Path)
    requires !p.Top? && !p.up.Top?
    ensures All(Recoloured(t, p), p.up.up) == All(t, p)
  {
    var q := p.up;
    var black, above := Coloured(Joined(t, p), Black), q.(colour := Red, sibling := Coloured(q.sibling, Black));
    UpItems(t, p);
    UpItems(black, above);
    assert Items(black) == Items(Joined(t, p)) && Items(above.sibling) == Items(q.sibling);
  }

  lemma BlackBalanced(l: Tree, i: Item, r: Tree)
    requires Balanced(l) && Balanced(r) && Height(l) == Height(r)
    ensures Balanced(Node(l, i, Black, r)) && Height(Node(l, i, Black, r)) == Height(l) + 1
  {
  }

  lemma StraightenedRises(t: Tree, p: Path)
    requires Rising(t, p) && !p.Top? && p.colour.Red?
    ensures !p.up.Top?
    ensures var (u, q) := Straightened(t, p); Rising(u, q) && Straight(q) && q.up == p.up && q.colour.Red?
  {
    RedParent(p, Height(t));
    if p.OnRight? && p.up.OnLeft? {
      JoinedBalanced(p.sibling, p.item, t.left);
    } else if p.OnLeft? && p.up.OnRight? {
      JoinedBalanced(t.right, p.item, p.sibling);
    }
  }

  lemma StraightenedItems(t: Tree, p: Path)
    requires t.Node? && !p.Top? && !p.up.Top?
    ensures var (u, q) := Straightened(t, p); All(u, q) == All(t, p)
  {
    var (u, q) := Straightened(t, p);
    if p.OnRight? && p.up.OnLeft? {
      assert Before(q) == Before(p.up) && After(q) == [t.item] + Items(t.right) + After(p.up);
    } else if p.OnLeft? && p.up.OnRight? {
      assert Before(q) == Before(p.up) + Items(t.left) + [t.item] && After(q) == After(p.up);
    }
  }

  lemma RaisedRises(t: Tree, p: Path)
    requires Rising(t, p) && Straight(p) && p.colour.Red? && ColourOf(p.up.sibling).Black?
    ensures Rising(t, Raised(p)) && BlackStep(Raised(p))
  {
    RedParent(p, Height(t));
    if p.OnLeft? {
      JoinedBalanced(p.sibling, p.up.item, p.up.sibling);
    } else {
      JoinedBalanced(p.up.sibling, p.up.item, p.sibling);
    }
  }

  lemma RaisedItems(p: Path)
    requires Straight(p)
    ensures Before(Raised(p)) == Before(p) && After(Raised(p)) == After(p)
  {
    var q, r := p.up, Raised(p);
    if p.OnLeft? {
      assert Items(r.sibling) == Items(p.sibling) + [q.item] + Items(q.sibling);
    } else {
      assert Items(r.sibling) == Items(q.sibling) + [q.item] + Items(p.sibling);
    }
  }

  // The root is made black in the end.
  lemma InsertedFits(t: Tree, p: Path)
    requires Rising(t, p) && (p.Top? || p.colour.Black?)
    ensures InShape(Coloured(Plug(t, p), Black))
    ensures Items(Coloured(Plug(t, p), Black)) == All(t, p)
  {
    PlugItems(t, p);
    if !p.Top? {
      FitsWhole(t, p);
    }
  }

  // ---- Removal ----

  // The place in t without a left child, below t's place p.
  function Lowest(t: Tree): (r: Tree)
    requires t.Node?
    ensures r.Node? && r.left.Leaf?
  {
    if t.left.Leaf? then t else Lowest(t.left)
  }

  function LowestPath(t: Tree, p: Path): Path
    requires t.Node?
    decreases t
  {
    if t.left.Leaf? then p else LowestPath(t.left, OnLeft(p, t.item, t.colour, t.right))
  }

  lemma {:induction false} LowestFits(t: Tree, p: Path)
    requires t.Node? && Fits(t, p)
    ensures Fits(Lowest(t), LowestPath(t, p))
    decreases t
  {
    if t.left.Node? {
      LowestFits(t.left, OnLeft(p, t.item, t.colour, t.right));
    }
  }

  lemma {:induction false} LowestItems(t: Tree, p: Path)
    requires t.Node?
    ensures Before(LowestPath(t, p)) == Before(p)
    ensures Items(Lowest(t)) + After(LowestPath(t, p)) == Items(t) + After(p)
    decreases t
  {
    if t.left.Node? {
      var q := OnLeft(p, t.item, t.colour, t.right);
      LowestItems(t.left, q);
      assert Items(t.left) + After(q) == Items(t) + After(p);
    }
  }

  // src/tree.c:207-210: what is taken out has at most one child, which takes its
  // place.
  function Remaining(t: Tree): Tree
    requires t.Node?
  {
    if t.left.Node? then t.left else t.right
  }

  // The node that is taken out of its place: that of t, or its successor, which
  // then takes the place of t.
  function Leaving(t: Tree): (r: Tree)
    requires t.Node?
    ensures r.Node? && (r.left.Leaf? || r.right.Leaf?)
  {
    if t.left.Leaf? || t.right.Leaf? then t else Lowest(t.right)
  }

  function LeavingPath(t: Tree, p: Path): Path
    requires t.Node?
  {
    if t.left.Leaf? || t.right.Leaf? then p
    else LowestPath(t.right, OnRight(p, Leaving(t).item, t.colour, t.left))
  }

  // One black node is missing on the ways down from here, which may be a red node
  // that has to be made black.
  predicate Deficit(t: Tree, p: Path) {
    Balanced(Coloured(t, Black)) && Holds(p, Height(t) + 1)
  }

  lemma LeavingFits(t: Tree, p: Path)
    requires t.Node? && Fits(t, p)
    ensures var a, q := Remaining(Leaving(t)), LeavingPath(t, p);
      if Leaving(t).colour.Red? then Fits(a, q) else Deficit(a, q)
  {
    if t.left.Node? && t.right.Node? {
      LowestFits(t.right, OnRight(p, Leaving(t).item, t.colour, t.left));
    }
    RemainingFits(Leaving(t), LeavingPath(t, p));
  }

  lemma RemainingFits(b: Tree, q: Path)
    requires b.Node? && (b.left.Leaf? || b.right.Leaf?) && Fits(b, q)
    ensures if b.colour.Red? then Fits(Remaining(b), q) else Deficit(Remaining(b), q)
  {
    BlackenedBalanced(Remaining(b));
  }

  lemma LeavingItems(t: Tree, p: Path)
    requires t.Node?
    ensures All(Remaining(Leaving(t)), LeavingPath(t, p)) == Before(p) + Items(t.left) + Items(t.right) + After(p)
  {
    var b := Leaving(t);
    if t.left.Node? && t.right.Node? {
      var q := OnRight(p, b.item, t.colour, t.left);
      LowestItems(t.right, q);
      OnlyRight(b);
      Regrouped(Before(p) + Items(t.left), b.item, Items(b.right), After(LowestPath(t.right, q)), Items(t.right),
                After(p));
    } else if t.left.Leaf? {
      NoneBetween(Before(p), Items(t.right), After(p));
    } else {
      NoneBetween(Before(p), Items(t.left), After(p));
    }
  }

  lemma OnlyRight(b: Tree)
    requires b.Node? && b.left.Leaf?
    ensures Items(b) == [b.item] + Items(b.right)
  {
  }

  lemma NoneBetween(a: seq<Item>, b: seq<Item>, c: seq<Item>)
    ensures a + b + c == a + [] + b + c && a + b + c == a + b + [] + c
  {
    assert a + [] == a && a + b + [] == a + b;
  }

  lemma Regrouped(a: seq<Item>, x: Item, b: seq<Item>, c: seq<Item>, d: seq<Item>, e: seq<Item>)
    requires [x] + b + c == d + e
    ensures (a + [x]) + b + c == a + d + e
  {
    assert (a + [x]) + b + c == a + ([x] + b + c);
  }

  // src/tree.c:239-245 and 269-275: a red brother is turned above the parent.
  function Lowered(p: Path): Path
    requires !p.Top? && p.sibling.Node?
  {
    var b := p.sibling;
    if p.OnLeft? then OnLeft(OnLeft(p.up, b.item, Black, b.right), p.item, Red, b.left)
    else OnRight(OnRight(p.up, b.item, Black, b.left), p.item, Red, b.right)
  }

  // The children of the brother, on the near and on the far side.
  function Near(p: Path): Tree
    requires !p.Top? && p.sibling.Node?
  {
    if p.OnLeft? then p.sibling.left else p.sibling.right
  }

  function Far(p: Path): Tree
    requires !p.Top? && p.sibling.Node?
  {
    if p.OnLeft? then p.sibling.right else p.sibling.left
  }

  // src/tree.c:248-249 and 278-279: the brother is made red, which leaves the
  // parent short of a black node.
  function Passed(t: Tree, p: Path): Tree
    requires !p.Top?
  {
    Joined(t, p.(sibling := Coloured(p.sibling, Red)))
  }

  // src/tree.c:253-259 and 283-289: a red child on the near side is turned above
  // the brother.
  function Reached(p: Path): Path
    requires !p.Top? && p.sibling.Node? && Near(p).Node?
  {
    var b, n := p.sibling, Near(p);
    if p.OnLeft? then
      OnLeft(p.up, p.item, p.colour, Node(n.left, n.item, Black, Node(n.right, b.item, Red, b.right)))
    else
      OnRight(p.up, p.item, p.colour, Node(Node(b.left, b.item, Red, n.left), n.item, Black, n.right))
  }

  // src/tree.c:260-263 and 290-293: the brother is turned above the parent and
  // takes its colour.
  function Settled(t: Tree, p: Path): Tree
    requires !p.Top? && p.sibling.Node?
  {
    var b := p.sibling;
    if p.OnLeft? then Node(Node(t, p.item, Black, b.left), b.item, p.colour, Coloured(b.right, Black))
    else Node(Coloured(b.left, Black), b.item, p.colour, Node(b.right, p.item, Black, t))
  }

  // There is always a brother.
  lemma BrotherIs(t: Tree, p: Path)
    requires Deficit(t, p) && !p.Top?
    ensures p.sibling.Node?
  {
  }

  lemma LoweredFits(t: Tree, p: Path)
    requires Deficit(t, p) && ColourOf(t).Black? && !p.Top? && ColourOf(p.sibling).Red?
    ensures var q := Lowered(p);
      Deficit(t, q) && !q.Top? && q.colour.Red? && ColourOf(q.sibling).Black?
  {
  }

  // Five parts in a row, however they are grouped.
  lemma Joint(a: seq<Item>, b: seq<Item>, c: seq<Item>, d: seq<Item>, e: seq<Item>)
    ensures (a + b) + ((c + d) + e) == (a + ((b + c) + d)) + e
    ensures (((a + b) + c) + d) + e == (a + ((b + c) + d)) + e
    ensures (a + b) + ((c + d) + e) == ((a + b) + c) + (d + e)
  {
  }

  lemma LoweredItems(p: Path)
    requires !p.Top? && p.sibling.Node?
    ensures Before(Lowered(p)) == Before(p) && After(Lowered(p)) == After(p)
  {
    var b := p.sibling;
    if p.OnLeft? {
      Joint([p.item], Items(b.left), [b.item], Items(b.right), After(p.up));
    } else {
      Joint(Before(p.up), Items(b.left), [b.item], Items(b.right), [p.item]);
    }
  }

  lemma PassedFits(t: Tree, p: Path)
    requires Deficit(t, p) && ColourOf(t).Black? && !p.Top? && ColourOf(p.sibling).Black?
    ensures p.sibling.Node?
    ensures ColourOf(Near(p)).Black? && ColourOf(Far(p)).Black? ==> Deficit(Passed(t, p), p.up)
  {
    if ColourOf(Near(p)).Black? && ColourOf(Far(p)).Black? {
      var b := p.sibling;
      JoinedBalanced(b.left, b.item, b.right);
      if p.OnLeft? {
        BlackBalanced(t, p.item, Coloured(b, Red));
      } else {
        BlackBalanced(Coloured(b, Red), p.item, t);
      }
    }
  }

  lemma PassedItems(t: Tree, p: Path)
    requires !p.Top?
    ensures All(Passed(t, p), p.up) == All(t, p)
  {
    var q := p.(sibling := Coloured(p.sibling, Red));
    UpItems(t, q);
    assert Items(q.sibling) == Items(p.sibling);
  }

  lemma ReachedFits(t: Tree, p: Path)
    requires Deficit(t, p) && ColourOf(t).Black? && !p.Top? && ColourOf(p.sibling).Black?
    ensures p.sibling.Node?
    ensures ColourOf(Near(p)).Red? && ColourOf(Far(p)).Black? ==>
      Deficit(t, Reached(p)) && ColourOf(Reached(p).sibling).Black? && ColourOf(Far(Reached(p))).Red?
  {
    if ColourOf(Near(p)).Red? && ColourOf(Far(p)).Black? {
      var b, n := p.sibling, Near(p);
      assert Balanced(b) && Balanced(n) && Height(n) == Height(Far(p));
      if p.OnLeft? {
        JoinedBalanced(n.right, b.item, b.right);
        BlackBalanced(n.left, n.item, Node(n.right, b.item, Red, b.right));
      } else {
        JoinedBalanced(b.left, b.item, n.left);
        BlackBalanced(Node(b.left, b.item, Red, n.left), n.item, n.right);
      }
    }
  }

  lemma ReachedItems(p: Path)
    requires !p.Top? && p.sibling.Node? && Near(p).Node?
    ensures Before(Reached(p)) == Before(p) && After(Reached(p)) == After(p)
  {
    var b, n := p.sibling, Near(p);
    if p.OnLeft? {
      assert Items(b) == Items(n.left) + [n.item] + Items(n.right) + [b.item] + Items(b.right);
      assert Items(Reached(p).sibling) == Items(b);
    } else {
      assert Items(b) == Items(b.left) + [b.item] + (Items(n.left) + [n.item] + Items(n.right));
      assert Items(Reached(p).sibling) == Items(b);
    }
  }

  lemma SettledFits(t: Tree, p: Path)
    requires Deficit(t, p) && ColourOf(t).Black? && !p.Top? && ColourOf(p.sibling).Black?
    ensures p.sibling.Node? && (ColourOf(Far(p)).Red? ==> Fits(Settled(t, p), p.up))
  {
    if ColourOf(Far(p)).Red? {
      BlackenedBalanced(Far(p));
      if p.OnLeft? {
        BlackBalanced(t, p.item, Near(p));
      } else {
        BlackBalanced(Near(p), p.item, t);
      }
    }
  }

  lemma SettledItems(t: Tree, p: Path)
    requires !p.Top? && p.sibling.Node?
    ensures All(Settled(t, p), p.up) == All(t, p)
  {
    var b := p.sibling;
    UpItems(t, p);
    if p.OnLeft? {
      Joint(Items(t), [p.item], Items(b.left), [b.item], Items(b.right));
    } else {
      Joint(Items(b.left), [b.item], Items(b.right), [p.item], Items(t));
    }
    assert Items(Settled(t, p)) == Items(Joined(t, p));
  }

  lemma SettledWhole(t: Tree, p: Path)
    requires !p.Top? && p.sibling.Node? && Fits(Settled(t, p), p.up)
    ensures var u := Plug(Settled(t, p), p.up); u.Node? && Deficit(u, Top) && All(u, Top) == All(t, p)
  {
    SettledItems(t, p);
    WholeFits(Settled(t, p), p.up);
  }

  lemma WholeFits(t: Tree, p: Path)
    requires t.Node? && Fits(t, p)
    ensures Plug(t, p).Node? && Deficit(Plug(t, p), Top) && All(Plug(t, p), Top) == All(t, p)
  {
    PlugItems(t, p);
    FitsWhole(t, p);
    PlugNode(t, p);
    assert All(Plug(t, p), Top) == Items(Plug(t, p));
  }

  lemma {:induction false} PlugNode(t: Tree, p: Path)
    requires t.Node?
    ensures Plug(t, p).Node?
    decreases p
  {
    if !p.Top? {
      PlugNode(Joined(t, p), p.up);
    }
  }

  // In the end the node is made black.
  lemma RemovedFits(t: Tree, p: Path)
    requires Deficit(t, p) && (p.Top? || ColourOf(t).Red?)
    ensures InShape(Plug(Coloured(t, Black), p)) && Items(Plug(Coloured(t, Black), p)) == All(t, p)
  {
    BlackenedHeight(t);
    PlugItems(Coloured(t, Black), p);
    FitsWhole(Coloured(t, Black), p);
  }

  // ---- The neighbours in the order ----

  function Highest(t: Tree): (r: Tree)
    requires t.Node?
    ensures r.Node? && r.right.Leaf?
  {
    if t.right.Leaf? then t else Highest(t.right)
  }

  lemma {:induction false} HighestIsLast(t: Tree)
    requires t.Node?
    ensures Items(t) != [] && Items(t)[|Items(t)| - 1] == Highest(t).item
  {
    if t.right.Node? {
      HighestIsLast(t.right);
    }
  }

  lemma {:induction false} LowestIsFirst(t: Tree)
    requires t.Node?
    ensures Items(t) != [] && Items(t)[0] == Lowest(t).item
  {
    if t.left.Node? {
      LowestIsFirst(t.left);
    }
  }

  // The first node and the last one.  0 is NULL.
  function First(s: seq<Item>): nat {
    if s == [] then 0 else s[0].node
  }

  function Last(s: seq<Item>): nat {
    if s == [] then 0 else s[|s| - 1].node
  }

  // The entries of a tree, as keys and nodes.
  function Entries(s: seq<Item>): set<(int, int)> {
    set x | x in s :: (x.key, x.node)
  }

  function EntryOf(x: Item): (int, int) {
    (x.key, x.node)
  }

  function LastEntry(s: seq<Item>): Option<(int, int)> {
    if s == [] then None else Some(EntryOf(s[|s| - 1]))
  }

  function FirstEntry(s: seq<Item>): Option<(int, int)> {
    if s == [] then None else Some(EntryOf(s[0]))
  }

  lemma EntryAt(s: seq<Item>, e: (int, int)) returns (i: nat)
    requires e in Entries(s)
    ensures i < |s| && EntryOf(s[i]) == e
  {
    var x :| x in s && e == (x.key, x.node);
    i :| 0 <= i < |s| && s[i] == x;
  }

  // Between what is below a key and what is above it, the neighbours are the
  // last of the one and the first of the other.
  lemma LowerNeighbour(s: seq<Item>, a: seq<Item>, b: seq<Item>, k: int, e: Option<(int, int)>)
    requires s == a + b && Ordered(s) && UpTo(a, k - 1) && Beyond(b, k) && e == LastEntry(a)
    ensures e.None? <==> forall x :: x in Entries(s) ==> x.0 > k
    ensures e.Some? ==> e.value in Entries(s) && e.value.0 <= k
                        && forall x :: x in Entries(s) && x.0 <= k ==> x.0 <= e.value.0
  {
    forall x | x in Entries(s)
      ensures x.0 > k || (e.Some? && x.0 <= e.value.0)
    {
      var i := EntryAt(s, x);
      assert if i < |a| then s[i] == a[i] && s[|a| - 1] == a[|a| - 1] else s[i] == b[i - |a|];
    }
    if a != [] {
      assert s[|a| - 1] == a[|a| - 1];
    }
  }

  lemma HigherNeighbour(s: seq<Item>, a: seq<Item>, b: seq<Item>, k: int, e: Option<(int, int)>)
    requires s == a + b && Ordered(s) && UpTo(a, k - 1) && Beyond(b, k) && e == FirstEntry(b)
    ensures e.None? <==> forall x :: x in Entries(s) ==> x.0 < k
    ensures e.Some? ==> e.value in Entries(s) && e.value.0 >= k
                        && forall x :: x in Entries(s) && x.0 >= k ==> x.0 >= e.value.0
  {
    forall x | x in Entries(s)
      ensures x.0 < k || (e.Some? && x.0 >= e.value.0)
    {
      var i := EntryAt(s, x);
      assert if i < |a| then s[i] == a[i] else s[i] == b[i - |a|] && s[|a|] == b[0];
    }
    if b != [] {
      assert s[|a|] == b[0];
    }
  }

  lemma NoMatch(s: seq<Item>, a: seq<Item>, b: seq<Item>, k: int)
    requires s == a + b && UpTo(a, k - 1) && Beyond(b, k)
    ensures forall x :: x in Entries(s) ==> x.0 != k
  {
    forall x | x in Entries(s)
      ensures x.0 != k
    {
      var i := EntryAt(s, x);
      assert if i < |a| then s[i] == a[i] else s[i] == b[i - |a|];
    }
  }

  lemma ExactMatch(t: Tree, p: Path)
    requires t.Node?
    ensures (t.item.key, t.item.node) in Entries(All(t, p)) && t.item in All(t, p)
  {
    assert All(t, p)[|Before(p) + Items(t.left)|] == t.item;
  }

  // ---- What removal leaves ----

  // The items but for that of node n.
  function Without(s: seq<Item>, n: nat): seq<Item> {
    if s == [] then [] else if s[0].node == n then s[1..] else [s[0]] + Without(s[1..], n)
  }

  lemma {:induction false} WithoutOne(a: seq<Item>, x: Item, b: seq<Item>)
    requires forall i :: 0 <= i < |a| ==> a[i].node != x.node
    ensures Without(a + [x] + b, x.node) == a + b
  {
    var s := a + [x] + b;
    if a == [] {
      assert s == [x] + b;
    } else {
      assert s[0] == a[0] && s[1..] == a[1..] + [x] + b;
      WithoutOne(a[1..], x, b);
      assert [a[0]] + (a[1..] + b) == a + b;
    }
  }

  lemma OrderedWithout(a: seq<Item>, x: Item, b: seq<Item>)
    requires Ordered(a + [x] + b)
    ensures Ordered(a + b) && |a + b| == |a + [x] + b| - 1
  {
    var s, r := a + [x] + b, a + b;
    assert forall i :: 0 <= i < |a| ==> r[i] == s[i];
    assert forall i :: |a| <= i < |r| ==> r[i] == s[i + 1];
  }

  // The lowest node of s is replaced by u.
  function Cut(s: Tree, u: Tree): Tree
    requires s.Node?
    decreases s
  {
    if s.left.Leaf? then u else Node(Cut(s.left, u), s.item, s.colour, s.right)
  }

  // The node of t is taken out.
  lemma TakenOut(t: Tree, p: Path)
    requires t.Node? && Ordered(All(t, p)) && forall x :: x in Before(p) + Items(t.left) ==> x.node != t.item.node
    ensures var r := All(Remaining(Leaving(t)), LeavingPath(t, p));
      r == Without(All(t, p), t.item.node) && Ordered(r) && |r| == |All(t, p)| - 1
  {
    var a, b := Before(p) + Items(t.left), Items(t.right) + After(p);
    LeavingItems(t, p);
    Regroup(Before(p), Items(t.left), [t.item], Items(t.right), After(p));
    assert a + Items(t.right) + After(p) == a + b;
    OrderedWithout(a, t.item, b);
    WithoutOne(a, t.item, b);
  }

  // ---- The sets of entries ----

  lemma {:induction false} InsertedEntries(s: seq<Item>, x: Item)
    ensures Entries(Inserted(s, x)) == Entries(s) + {(x.key as int, x.node as int)}
  {
    if s == [] || x.key < s[0].key {
      EntriesFirst(x, s);
    } else {
      InsertedEntries(s[1..], x);
      EntriesFirst(s[0], Inserted(s[1..], x));
      EntriesFirst(s[0], s[1..]);
      assert [s[0]] + s[1..] == s;
    }
  }

  lemma EntriesFirst(x: Item, s: seq<Item>)
    ensures Entries([x] + s) == Entries(s) + {(x.key as int, x.node as int)}
  {
    assert forall y :: y in [x] + s <==> y == x || y in s;
  }

  // The entry of node n goes, and no other.
  lemma {:induction false} WithoutEntries(s: seq<Item>, n: nat)
    requires forall i, j :: 0 <= i < j < |s| ==> s[i].node != s[j].node
    ensures Entries(Without(s, n)) == set e | e in Entries(s) && e.1 != n
  {
    if s != [] {
      EntriesFirst(s[0], s[1..]);
      assert [s[0]] + s[1..] == s;
      if s[0].node == n {
        forall e | e in Entries(s[1..])
          ensures e.1 != n
        {
          var y :| y in s[1..] && e == (y.key, y.node);
        }
      } else {
        WithoutEntries(s[1..], n);
        EntriesFirst(s[0], Without(s[1..], n));
      }
    }
  }
}
