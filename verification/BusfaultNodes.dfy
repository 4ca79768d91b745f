/** The bus-fault index as the source keeps it: nodes linked by pointers and changed in place.
    Each method leaves the tree that BusfaultTree computes. */
module BusfaultNodes {
  import opened Common
  import opened BusfaultTree

  class Busfault {
    var data: int
    var area: int
    var height: nat
    var left: Busfault?
    var right: Busfault?
    ghost var Repr: set<Busfault>  // the nodes of the tree below and including this one
    ghost var Model: Tree          // that tree as a value

    ghost predicate Valid()
      reads this, Repr
    {
      && this in Repr
      && (left != null ==> left in Repr && left.Repr <= Repr && this !in left.Repr && left.Valid())
      && (right != null ==> right in Repr && right.Repr <= Repr && this !in right.Repr && right.Valid())
      && Repr == {this} + NodesOf(left) + NodesOf(right)
      && NodesOf(left) !! NodesOf(right)
      && Model == Node(ModelOf(left), data, area, height, ModelOf(right))
    }

    constructor (data: int, area: int)
      ensures this.data == data && this.area == area
    {
      this.data, this.area, height := data, area, 0;
      left, right := null, null;
      Repr, Model := {this}, Leaf;
    }
  }

  ghost function NodesOf(n: Busfault?): set<Busfault>
    reads n
  {
    if n == null then {} else n.Repr
  }

  ghost function ModelOf(n: Busfault?): Tree
    reads n
  {
    if n == null then Leaf else n.Model
  }

  ghost predicate ValidTree(n: Busfault?)
    reads n, NodesOf(n)
  {
    n != null ==> n.Valid()
  }

  /** l and r can be the children of n. */
  ghost predicate Apart(n: Busfault, l: Busfault?, r: Busfault?)
    reads l, r, NodesOf(l), NodesOf(r)
  {
    && ValidTree(l) && ValidTree(r)
    && n !in NodesOf(l) && n !in NodesOf(r)
    && NodesOf(l) !! NodesOf(r)
  }

  /** A tree none of the nodes of which has changed is the same tree. */
  twostate lemma Kept(n: Busfault?)
    requires old(ValidTree(n)) && unchanged(old(NodesOf(n)))
    ensures ValidTree(n) && NodesOf(n) == old(NodesOf(n)) && ModelOf(n) == old(ModelOf(n))
  {
  }

  method GetHeight(n: Busfault?) returns (h: nat)
    requires ValidTree(n)
    ensures h == Height(ModelOf(n))
  {
    if n == null {
      return 0;
    }
    return n.height;
  }

  /** Gives n its children and fixes its height. */
  method Link(n: Busfault, l: Busfault?, r: Busfault?)
    requires Apart(n, l, r)
    modifies n
    ensures n.Valid() && n.left == l && n.right == r
    ensures n.Model == Make(old(ModelOf(l)), old(Range(n.data, n.area)), old(ModelOf(r)))
    ensures n.Repr == {n} + old(NodesOf(l)) + old(NodesOf(r))
  {
    var hl := GetHeight(l);
    var hr := GetHeight(r);
    ghost var nodes, model := NodesOf(l) + NodesOf(r), Make(ModelOf(l), Range(n.data, n.area), ModelOf(r));
    SetFields(n, l, r, 1 + if hl < hr then hr else hl, nodes, model);
  }

  method SetFields(n: Busfault, l: Busfault?, r: Busfault?, h: nat, ghost nodes: set<Busfault>, ghost model: Tree)
    requires Apart(n, l, r) && nodes == NodesOf(l) + NodesOf(r)
    requires model == Node(ModelOf(l), n.data, n.area, h, ModelOf(r))
    modifies n
    ensures n.Valid() && n.left == l && n.right == r && n.Model == model && n.Repr == {n} + nodes
  {
    n.left, n.right, n.height := l, r, h;
    n.Repr, n.Model := {n} + nodes, model;
    Kept(l);
    Kept(r);
  }

  lemma SameNodes(x: Busfault, y: Busfault, a: set<Busfault>, b: set<Busfault>, c: set<Busfault>)
    ensures {x} + a + ({y} + b + c) == {y} + ({x} + a + b) + c
    ensures {x} + ({y} + c + b) + a == {y} + c + ({x} + b + a)
  {
  }

  /** What the children of a node that can be a child of n can be made children of. */
  lemma PartsApart(n: Busfault, c: Busfault, other: Busfault?)
    requires c.Valid() && ValidTree(other) && n !in c.Repr && n !in NodesOf(other) && c.Repr !! NodesOf(other)
    ensures Apart(n, c.left, other) && Apart(n, other, c.left)
    ensures Apart(n, c.right, other) && Apart(n, other, c.right)
    ensures Apart(c, c.left, c.right) && c !in NodesOf(other)
    ensures c.Repr == {c} + NodesOf(c.left) + NodesOf(c.right) && NodesOf(c.left) !! NodesOf(c.right)
    ensures c.Model == Node(ModelOf(c.left), c.data, c.area, c.height, ModelOf(c.right))
  {
  }

  /** Rotates the left child of root, which has children l and r, to the top. */
  method RotateNodesLeft(root: Busfault, l: Busfault, r: Busfault?) returns (top: Busfault)
    requires Apart(root, l, r)
    modifies root, l
    ensures top.Valid()
    ensures top.Model == RotateLeft(old(ModelOf(l)), old(Range(root.data, root.area)), old(ModelOf(r)))
    ensures top.Repr == {root} + old(NodesOf(l)) + old(NodesOf(r))
  {
    PartsApart(root, l, r);
    hide *;
    var outer, inner := l.left, l.right;
    SameNodes(root, l, NodesOf(r), NodesOf(inner), NodesOf(outer));
    Link(root, inner, r);
    Kept(outer);
    Link(l, outer, root);
    top := l;
  }

  method RotateNodesRight(root: Busfault, l: Busfault?, r: Busfault) returns (top: Busfault)
    requires Apart(root, l, r)
    modifies root, r
    ensures top.Valid()
    ensures top.Model == RotateRight(old(ModelOf(l)), old(Range(root.data, root.area)), old(ModelOf(r)))
    ensures top.Repr == {root} + old(NodesOf(l)) + old(NodesOf(r))
  {
    PartsApart(root, r, l);
    hide *;
    var outer, inner := r.right, r.left;
    SameNodes(root, r, NodesOf(l), NodesOf(inner), NodesOf(outer));
    Link(root, l, inner);
    Kept(outer);
    Link(r, root, outer);
    top := r;
  }

  /** Balances the tree with root n and subtrees l and r.  The assertions are the source's. */
  method RebalanceNode(n: Busfault, l: Busfault?, r: Busfault?) returns (top: Busfault)
    requires Apart(n, l, r) && Exact(ModelOf(l)) && Exact(ModelOf(r))
    modifies n, NodesOf(l), NodesOf(r)
    ensures top.Valid()
    ensures top.Model == Rebalance(old(ModelOf(l)), old(Range(n.data, n.area)), old(ModelOf(r)))
    ensures top.Repr == {n} + old(NodesOf(l)) + old(NodesOf(r))
  {
    var hl := GetHeight(l);
    var hr := GetHeight(r);
    if hl > hr + 1 {
      top := RebalanceTallLeft(n, l, r);
    } else if hr > hl + 1 {
      top := RebalanceTallRight(n, l, r);
    } else {
      Link(n, l, r);
      top := n;
    }
  }

  method RebalanceTallLeft(n: Busfault, l: Busfault, r: Busfault?) returns (top: Busfault)
    requires Apart(n, l, r) && (Height(l.Model.left) <= Height(l.Model.right) ==> l.Model.right.Node?)
    modifies n, l.Repr
    ensures top.Valid()
    ensures top.Model == old(if Height(l.Model.left) > Height(l.Model.right)
                             then RotateLeft(l.Model, Range(n.data, n.area), ModelOf(r))
                             else RotateLeft(RotateRight(l.Model.left, Root(l.Model), l.Model.right),
                                 Range(n.data, n.area), ModelOf(r)))
    ensures top.Repr == {n} + old(l.Repr) + old(NodesOf(r))
  {
    hide RotateLeft, RotateRight, Exact;
    var outer := GetHeight(l.left);
    var inner := GetHeight(l.right);
    if outer > inner {
      top := RotateNodesLeft(n, l, r);
    } else {
      top := RotateTwiceLeft(n, l, l.right, r);
    }
  }

  method RotateTwiceLeft(n: Busfault, l: Busfault, m: Busfault, r: Busfault?) returns (top: Busfault)
    requires Apart(n, l, r) && l.right == m && m.Valid()
    modifies n, l.Repr
    ensures top.Valid()
    ensures top.Model == RotateLeft(old(RotateRight(ModelOf(l.left), Root(l.Model), m.Model)),
        old(Range(n.data, n.area)), old(ModelOf(r)))
    ensures top.Repr == {n} + old(l.Repr) + old(NodesOf(r))
  {
    hide RotateLeft, RotateRight, Exact;
    ghost var ml := RotateRight(ModelOf(l.left), Root(l.Model), m.Model);
    var l' := RotateNodesRight(l, l.left, m);
    assert l'.Model == ml && l'.Repr == old(l.Repr);
    assert ValidTree(r) && Apart(n, l', r);
    top := RotateNodesLeft(n, l', r);
  }

  method RebalanceTallRight(n: Busfault, l: Busfault?, r: Busfault) returns (top: Busfault)
    requires Apart(n, l, r) && (Height(r.Model.right) <= Height(r.Model.left) ==> r.Model.left.Node?)
    modifies n, r.Repr
    ensures top.Valid()
    ensures top.Model == old(if Height(r.Model.right) > Height(r.Model.left)
                             then RotateRight(ModelOf(l), Range(n.data, n.area), r.Model)
                             else RotateRight(ModelOf(l), Range(n.data, n.area),
                                 RotateLeft(r.Model.left, Root(r.Model), r.Model.right)))
    ensures top.Repr == {n} + old(NodesOf(l)) + old(r.Repr)
  {
    hide RotateLeft, RotateRight, Exact;
    var outer := GetHeight(r.right);
    var inner := GetHeight(r.left);
    if outer > inner {
      top := RotateNodesRight(n, l, r);
    } else {
      top := RotateTwiceRight(n, l, r.left, r);
    }
  }

  method RotateTwiceRight(n: Busfault, l: Busfault?, m: Busfault, r: Busfault) returns (top: Busfault)
    requires Apart(n, l, r) && r.left == m && m.Valid()
    modifies n, r.Repr
    ensures top.Valid()
    ensures top.Model == RotateRight(old(ModelOf(l)), old(Range(n.data, n.area)),
        old(RotateLeft(m.Model, Root(r.Model), ModelOf(r.right))))
    ensures top.Repr == {n} + old(NodesOf(l)) + old(r.Repr)
  {
    hide RotateLeft, RotateRight, Exact;
    ghost var mr := RotateLeft(m.Model, Root(r.Model), ModelOf(r.right));
    var r' := RotateNodesLeft(r, m, r.right);
    assert r'.Model == mr && r'.Repr == old(r.Repr);
    assert ValidTree(l) && Apart(n, l, r');
    top := RotateNodesRight(n, l, r');
  }

  /** Rebalances a tree that need not be there. */
  method RebalanceBusfault(tree: Busfault?) returns (root: Busfault?)
    requires ValidTree(tree) && Exact(ModelOf(tree))
    modifies NodesOf(tree)
    ensures ValidTree(root) && ModelOf(root) == Fixed(old(ModelOf(tree)))
    ensures NodesOf(root) == old(NodesOf(tree))
  {
    if tree == null {
      return null;
    }
    root := RebalanceNode(tree, tree.left, tree.right);
  }

  method RecordBusfault(tree: Busfault?, node: Busfault) returns (root: Busfault)
    requires ValidTree(tree) && node !in NodesOf(tree) && Exact(ModelOf(tree))
    modifies NodesOf(tree), node
    ensures root.Valid()
    ensures root.Model == Insert(old(ModelOf(tree)), old(Range(node.data, node.area)))
    ensures root.Repr == old(NodesOf(tree)) + {node}
    decreases NodesOf(tree), 1
  {
    if tree == null {
      Link(node, null, null);
      return node;
    }
    if node.data > tree.data {
      root := RecordRight(tree, tree.left, tree.right, node);
    } else {
      root := RecordLeft(tree, tree.left, tree.right, node);
    }
  }

  lemma OneMoreNode(x: Busfault, a: set<Busfault>, b: set<Busfault>, node: Busfault)
    ensures {x} + a + (b + {node}) == {x} + a + b + {node} && {x} + (a + {node}) + b == {x} + a + b + {node}
  {
  }

  lemma TreeParts(tree: Busfault)
    requires tree.Valid() && Exact(tree.Model)
    ensures Apart(tree, tree.left, tree.right) && Exact(ModelOf(tree.left)) && Exact(ModelOf(tree.right))
    ensures tree.Repr == {tree} + NodesOf(tree.left) + NodesOf(tree.right)
    ensures tree.Model == Node(ModelOf(tree.left), tree.data, tree.area, tree.height, ModelOf(tree.right))
  {
  }

  method RecordRight(tree: Busfault, l: Busfault?, r: Busfault?, node: Busfault) returns (root: Busfault)
    requires tree.Valid() && l == tree.left && r == tree.right
    requires node !in tree.Repr && Exact(tree.Model)
    modifies tree.Repr, node
    ensures root.Valid()
    ensures root.Model == Rebalance(old(tree.Model.left), old(Root(tree.Model)),
        Insert(old(tree.Model.right), old(Range(node.data, node.area))))
    ensures root.Repr == old(tree.Repr) + {node}
    decreases tree.Repr, 0
  {
    TreeParts(tree);
    OneMoreNode(tree, NodesOf(l), NodesOf(r), node);
    hide *;
    var r' := RecordBusfault(r, node);
    Kept(l);
    root := RebalanceNode(tree, l, r');
  }

  method RecordLeft(tree: Busfault, l: Busfault?, r: Busfault?, node: Busfault) returns (root: Busfault)
    requires tree.Valid() && l == tree.left && r == tree.right
    requires node !in tree.Repr && Exact(tree.Model)
    modifies tree.Repr, node
    ensures root.Valid()
    ensures root.Model == Rebalance(Insert(old(tree.Model.left), old(Range(node.data, node.area))),
        old(Root(tree.Model)), old(tree.Model.right))
    ensures root.Repr == old(tree.Repr) + {node}
    decreases tree.Repr, 0
  {
    TreeParts(tree);
    OneMoreNode(tree, NodesOf(l), NodesOf(r), node);
    hide *;
    var l' := RecordBusfault(l, node);
    Kept(r);
    root := RebalanceNode(tree, l', r);
  }

  method DetectBusfault(tree: Busfault?, address: int) returns (found: Busfault?)
    requires ValidTree(tree)
    ensures found == null <==> Detect(ModelOf(tree), address) == None
    ensures found != null ==>
      found in NodesOf(tree) && Detect(ModelOf(tree), address) == Some(Range(found.data, found.area))
    decreases NodesOf(tree)
  {
    if tree == null {
      return null;
    } else if tree.data <= address < tree.data + tree.area {
      return tree;
    }
    if address > tree.data {
      found := DetectBusfault(tree.right, address);
    } else {
      found := DetectBusfault(tree.left, address);
    }
  }

  /** Takes the leftmost node out of the tree and returns its range. */
  method DeleteMinNode(tree: Busfault) returns (root: Busfault?, min: Range)
    requires tree.Valid() && Exact(tree.Model)
    modifies tree.Repr
    ensures ValidTree(root) && (ModelOf(root), min) == DeleteMin(old(tree.Model))
    ensures NodesOf(root) <= old(tree.Repr)
    decreases tree.Repr
  {
    var l, r := tree.left, tree.right;
    if l == null {
      min := Range(tree.data, tree.area);
      root := RebalanceBusfault(r);
    } else {
      l, min := DeleteMinNode(l);
      Kept(r);
      root := RebalanceNode(tree, l, r);
    }
  }

  /** Takes the node that starts at data out of the tree.  Reaching the end of the tree without
      finding it stands for the call to abort. */
  method RemoveBusfault(tree: Busfault?, data: int) returns (aborted: bool, root: Busfault?)
    requires ValidTree(tree) && Exact(ModelOf(tree))
    modifies NodesOf(tree)
    ensures aborted <==> Remove(old(ModelOf(tree)), data) == None
    ensures !aborted ==> ValidTree(root) && Some(ModelOf(root)) == Remove(old(ModelOf(tree)), data)
    ensures !aborted ==> NodesOf(root) <= old(NodesOf(tree))
    decreases NodesOf(tree)
  {
    if tree == null {
      return true, null;
    }
    aborted, root := false, tree;
    var l, r := tree.left, tree.right;
    if tree.data == data {
      root := RemoveRoot(tree, l, r);
    } else if data > tree.data {
      aborted, r := RemoveBusfault(r, data);
      Kept(l);
      if !aborted {
        root := RebalanceNode(tree, l, r);
      }
    } else {
      aborted, l := RemoveBusfault(l, data);
      Kept(r);
      if !aborted {
        root := RebalanceNode(tree, l, r);
      }
    }
  }

  method RemoveRoot(tree: Busfault, l: Busfault?, r: Busfault?) returns (root: Busfault?)
    requires tree.Valid() && Exact(tree.Model) && l == tree.left && r == tree.right
    modifies tree.Repr
    ensures ValidTree(root) && Some(ModelOf(root)) == Remove(old(tree.Model), old(tree.data))
    ensures NodesOf(root) <= old(tree.Repr)
  {
    if r != null {
      var r', min := DeleteMinNode(r);
      Kept(l);
      tree.data, tree.area := min.data, min.area;
      Kept(l);
      assert Apart(tree, l, r');
      root := RebalanceNode(tree, l, r');
    } else {
      root := RebalanceBusfault(l);
    }
  }
}
