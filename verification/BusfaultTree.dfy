/** The index of address ranges in which bus faults are ignored: an AVL tree ordered by the
    start of the ranges, as a value. */
module BusfaultTree {
  import opened Common

  datatype Tree = Leaf | Node(left: Tree, data: int, area: int, height: nat, right: Tree)

  datatype Range = Range(data: int, area: int)

  function Height(t: Tree): nat {
    if t.Leaf? then 0 else t.height
  }

  /** A node the height of which has been fixed. */
  function Make(l: Tree, x: Range, r: Tree): (t: Tree)
    ensures Exact(l) && Exact(r) ==> Exact(t)
  {
    Node(l, x.data, x.area, 1 + Max(Height(l), Height(r)), r)
  }

  function Root(t: Tree): Range
    requires t.Node?
  {
    Range(t.data, t.area)
  }

  /** Stored heights are what they should be. */
  ghost predicate Exact(t: Tree) {
    t.Node? ==> Exact(t.left) && Exact(t.right) && t.height == 1 + Max(Height(t.left), Height(t.right))
  }

  /** The left child becomes the root; the source calls this a left rotation. */
  function RotateLeft(l: Tree, x: Range, r: Tree): (t: Tree)
    requires l.Node?
    ensures Exact(l) && Exact(r) ==> Exact(t)
  {
    Make(l.left, Root(l), Make(l.right, x, r))
  }

  function RotateRight(l: Tree, x: Range, r: Tree): (t: Tree)
    requires r.Node?
    ensures Exact(l) && Exact(r) ==> Exact(t)
  {
    Make(Make(l, x, r.left), Root(r), r.right)
  }

  /** The rebalanced node.  The preconditions of the rotations are the source's assertions; exact
      heights make them hold. */
  function Rebalance(l: Tree, x: Range, r: Tree): (t: Tree)
    requires Exact(l) && Exact(r)
    ensures Exact(t)
  {
    if Height(l) > Height(r) + 1 then
      if Height(l.left) > Height(l.right) then RotateLeft(l, x, r)
      else RotateLeft(RotateRight(l.left, Root(l), l.right), x, r)
    else if Height(r) > Height(l) + 1 then
      if Height(r.right) > Height(r.left) then RotateRight(l, x, r)
      else RotateRight(l, x, RotateLeft(r.left, Root(r), r.right))
    else Make(l, x, r)
  }

  function Insert(t: Tree, x: Range): (t': Tree)
    requires Exact(t)
    ensures Exact(t')
  {
    if t.Leaf? then Make(Leaf, x, Leaf)
    else if x.data > t.data then Rebalance(t.left, Root(t), Insert(t.right, x))
    else Rebalance(Insert(t.left, x), Root(t), t.right)
  }

  /** The node the range of which contains the address. */
  function Detect(t: Tree, address: int): Option<Range> {
    if t.Leaf? then None
    else if t.data <= address < t.data + t.area then Some(Root(t))
    else if address > t.data then Detect(t.right, address)
    else Detect(t.left, address)
  }

  function DeleteMin(t: Tree): (r: (Tree, Range))
    requires t.Node? && Exact(t)
    ensures Exact(r.0)
  {
    if t.left.Leaf? then (Fixed(t.right), Root(t))
    else
      var (l, x) := DeleteMin(t.left);
      (Rebalance(l, Root(t), t.right), x)
  }

  /** Rebalancing a tree that need not be there. */
  function Fixed(t: Tree): (t': Tree)
    requires Exact(t)
    ensures Exact(t')
  {
    if t.Leaf? then t else Rebalance(t.left, Root(t), t.right)
  }

  /** None stands for the call to abort. */
  function Remove(t: Tree, data: int): (r: Option<Tree>)
    requires Exact(t)
    ensures r.Some? ==> Exact(r.value)
  {
    if t.Leaf? then None
    else if t.data == data then
      if t.right.Node? then
        var (r, x) := DeleteMin(t.right);
        Some(Rebalance(t.left, x, r))
      else Some(Fixed(t.left))
    else if data > t.data then
      match Remove(t.right, data)
      case None => None
      case Some(r) => Some(Rebalance(t.left, Root(t), r))
    else
      match Remove(t.left, data)
      case None => None
      case Some(l) => Some(Rebalance(l, Root(t), t.right))
  }

  // ----- order and contents -----

  /** The ranges from left to right. */
  function Flat(t: Tree): seq<Range> {
    if t.Leaf? then [] else Flat(t.left) + [Root(t)] + Flat(t.right)
  }

  ghost predicate Increasing(s: seq<Range>) {
    forall i, j :: 0 <= i < j < |s| ==> s[i].data < s[j].data
  }

  /** Ranges are not empty and do not meet. */
  ghost predicate Disjoint(s: seq<Range>) {
    && (forall i :: 0 <= i < |s| ==> s[i].area > 0)
    && (forall i, j :: 0 <= i < j < |s| ==> s[i].data + s[i].area <= s[j].data)
  }

  lemma Regroup(a: seq<Range>, x: Range, b: seq<Range>, y: Range, c: seq<Range>)
    ensures a + [x] + b + [y] + c == a + [x] + (b + [y] + c)
  {
  }

  lemma RotateFlat(l: Tree, x: Range, r: Tree)
    ensures l.Node? ==> Flat(RotateLeft(l, x, r)) == Flat(l) + [x] + Flat(r)
    ensures r.Node? ==> Flat(RotateRight(l, x, r)) == Flat(l) + [x] + Flat(r)
  {
    if l.Node? {
      Regroup(Flat(l.left), Root(l), Flat(l.right), x, Flat(r));
    }
    if r.Node? {
      Regroup(Flat(l), x, Flat(r.left), Root(r), Flat(r.right));
    }
  }

  lemma RebalanceFlat(l: Tree, x: Range, r: Tree)
    requires Exact(l) && Exact(r)
    ensures Flat(Rebalance(l, x, r)) == Flat(l) + [x] + Flat(r)
  {
    RotateFlat(l, x, r);
    if Height(l) > Height(r) + 1 {
      if Height(l.left) <= Height(l.right) {
        RotateFlat(l.left, Root(l), l.right);
        RotateFlat(RotateRight(l.left, Root(l), l.right), x, r);
      }
    } else if Height(r) > Height(l) + 1 {
      if Height(r.right) <= Height(r.left) {
        RotateFlat(r.left, Root(r), r.right);
        RotateFlat(l, x, RotateLeft(r.left, Root(r), r.right));
      }
    }
  }

  lemma PutRight(l: seq<Range>, m: Range, r: seq<Range>, x: Range, k: nat)
    requires |l| < k <= |l| + 1 + |r|
    ensures var f, j := l + [m] + r, k - |l| - 1;
      f[..k] + [x] + f[k..] == l + [m] + (r[..j] + [x] + r[j..]) && f[..k] + f[k..] == f
  {
  }

  lemma PutLeft(l: seq<Range>, m: Range, r: seq<Range>, x: Range, k: nat)
    requires k <= |l|
    ensures var f := l + [m] + r; f[..k] + [x] + f[k..] == (l[..k] + [x] + l[k..]) + [m] + r
  {
  }

  /** k of the ranges start before x, and they come first. */
  ghost predicate Place(f: seq<Range>, x: Range, k: nat) {
    k <= |f| && forall i :: 0 <= i < |f| ==> (f[i].data < x.data <==> i < k)
  }

  lemma PlaceRight(l: seq<Range>, m: Range, r: seq<Range>, x: Range, k: nat)
    requires Place(l + [m] + r, x, k) && m.data < x.data
    ensures k > |l| && Place(r, x, k - |l| - 1)
  {
    var f := l + [m] + r;
    assert f[|l|] == m;
    forall i | 0 <= i < |r|
      ensures r[i].data < x.data <==> i < k - |l| - 1
    {
      assert r[i] == f[|l| + 1 + i];
    }
  }

  lemma PlaceLeft(l: seq<Range>, m: Range, r: seq<Range>, x: Range, k: nat)
    requires Place(l + [m] + r, x, k) && m.data >= x.data
    ensures Place(l, x, k)
  {
    var f := l + [m] + r;
    assert f[|l|] == m;
    forall i | 0 <= i < |l|
      ensures l[i].data < x.data <==> i < k
    {
      assert l[i] == f[i];
    }
  }

  lemma InsertUnfolds(t: Tree, x: Range)
    requires t.Node? && Exact(t)
    ensures Exact(t.left) && Exact(t.right) && Flat(t) == Flat(t.left) + [Root(t)] + Flat(t.right)
    ensures Insert(t, x) ==
      if x.data > t.data then Rebalance(t.left, Root(t), Insert(t.right, x))
      else Rebalance(Insert(t.left, x), Root(t), t.right)
  {
    hide Rebalance;
  }

  /** A new range goes to where it belongs and nothing else moves. */
  lemma {:induction false} InsertFlat(t: Tree, x: Range, k: nat)
    requires Exact(t) && Place(Flat(t), x, k)
    ensures Flat(Insert(t, x)) == Flat(t)[..k] + [x] + Flat(t)[k..]
  {
    if t.Node? {
      var l, m, r := Flat(t.left), Root(t), Flat(t.right);
      InsertUnfolds(t, x);
      hide Insert, Rebalance, Flat, Exact, Place, Make;
      if x.data > t.data {
        PlaceRight(l, m, r, x, k);
        InsertFlat(t.right, x, k - |l| - 1);
        RebalanceFlat(t.left, m, Insert(t.right, x));
        PutRight(l, m, r, x, k);
      } else {
        PlaceLeft(l, m, r, x, k);
        InsertFlat(t.left, x, k);
        RebalanceFlat(Insert(t.left, x), m, t.right);
        PutLeft(l, m, r, x, k);
      }
    }
  }

  lemma {:induction false} DeleteMinFlat(t: Tree)
    requires t.Node? && Exact(t)
    ensures Flat(t) == [DeleteMin(t).1] + Flat(DeleteMin(t).0)
  {
    if t.left.Leaf? {
      FixedFlat(t.right);
    } else {
      DeleteMinFlat(t.left);
      RebalanceFlat(DeleteMin(t.left).0, Root(t), t.right);
    }
  }

  lemma FixedFlat(t: Tree)
    requires Exact(t)
    ensures Flat(Fixed(t)) == Flat(t)
  {
    if t.Node? {
      RebalanceFlat(t.left, Root(t), t.right);
    }
  }

  lemma DropRight(l: seq<Range>, m: Range, r: seq<Range>, k: nat)
    requires |l| < k < |l| + 1 + |r|
    ensures var f, j := l + [m] + r, k - |l| - 1; f[..k] + f[k + 1..] == l + [m] + (r[..j] + r[j + 1..])
  {
  }

  lemma DropLeft(l: seq<Range>, m: Range, r: seq<Range>, k: nat)
    requires k < |l|
    ensures var f := l + [m] + r; f[..k] + f[k + 1..] == (l[..k] + l[k + 1..]) + [m] + r
  {
  }

  lemma DropRoot(l: seq<Range>, m: Range, r: seq<Range>)
    ensures var f := l + [m] + r; f[..|l|] + f[|l| + 1..] == l + r
  {
  }

  lemma IncreasingParts(l: seq<Range>, m: Range, r: seq<Range>)
    requires Increasing(l + [m] + r)
    ensures Increasing(l) && Increasing(r)
    ensures forall i :: 0 <= i < |l| ==> l[i].data < m.data
    ensures forall i :: 0 <= i < |r| ==> m.data < r[i].data
  {
    var f := l + [m] + r;
    assert f[|l|] == m;
    forall i | 0 <= i < |l|
      ensures l[i] == f[i]
    {
    }
    forall i | 0 <= i < |r|
      ensures r[i] == f[|l| + 1 + i] && m.data < r[i].data
    {
    }
    forall i, j | 0 <= i < j < |r|
      ensures r[i].data < r[j].data
    {
      assert r[i] == f[|l| + 1 + i] && r[j] == f[|l| + 1 + j];
    }
  }

  lemma Assoc(a: seq<Range>, x: Range, b: seq<Range>)
    ensures a + [x] + b == a + ([x] + b) && a + [] == a
  {
  }

  lemma RemoveRootFlat(l: Tree, x: Range, r: Tree, t: Tree)
    requires t.Node? && Exact(t) && t.left == l && t.right == r
    ensures Remove(t, t.data).Some? && Flat(Remove(t, t.data).value) == Flat(l) + Flat(r)
  {
    if r.Node? {
      var (r', y) := DeleteMin(r);
      DeleteMinFlat(r);
      RebalanceFlat(l, y, r');
      Assoc(Flat(l), y, Flat(r'));
    } else {
      FixedFlat(l);
      Assoc(Flat(l), x, []);
    }
  }

  /** Removing the range that starts at data removes it and nothing else. */
  lemma {:induction false} RemoveFlat(t: Tree, data: int, k: nat)
    requires Exact(t) && Increasing(Flat(t)) && k < |Flat(t)| && Flat(t)[k].data == data
    ensures Remove(t, data).Some?
    ensures Flat(Remove(t, data).value) == Flat(t)[..k] + Flat(t)[k + 1..]
  {
    var l, m, r := Flat(t.left), Root(t), Flat(t.right);
    IncreasingParts(l, m, r);
    WhereAt(l, m, r, k);
    if t.data == data {
      RemoveRootFlat(t.left, m, t.right, t);
      DropRoot(l, m, r);
    } else if data > t.data {
      RemoveFlat(t.right, data, k - |l| - 1);
      RebalanceFlat(t.left, m, Remove(t.right, data).value);
      DropRight(l, m, r, k);
    } else {
      RemoveFlat(t.left, data, k);
      RebalanceFlat(Remove(t.left, data).value, m, t.right);
      DropLeft(l, m, r, k);
    }
  }

  lemma WhereAt(l: seq<Range>, m: Range, r: seq<Range>, k: nat)
    requires k < |l| + 1 + |r|
    ensures (l + [m] + r)[k] == if k < |l| then l[k] else if k == |l| then m else r[k - |l| - 1]
  {
  }

  /** Abort is reached when no range starts at data. */
  lemma {:induction false} RemoveMissing(t: Tree, data: int)
    requires Exact(t) && forall x :: x in Flat(t) ==> x.data != data
    ensures Remove(t, data) == None
  {
    if t.Node? {
      assert Root(t) in Flat(t);
      RemoveMissing(t.left, data);
      RemoveMissing(t.right, data);
    }
  }

  ghost predicate Contains(x: Range, address: int) {
    x.data <= address < x.data + x.area
  }

  lemma DisjointParts(l: seq<Range>, m: Range, r: seq<Range>)
    requires Disjoint(l + [m] + r)
    ensures Disjoint(l) && Disjoint(r)
    ensures forall x :: x in l ==> x.data + x.area <= m.data
    ensures forall x :: x in r ==> m.data < x.data
  {
    var f := l + [m] + r;
    assert f[|l|] == m;
    forall i | 0 <= i < |l|
      ensures l[i] == f[i] && l[i].data + l[i].area <= m.data
    {
    }
    forall i | 0 <= i < |r|
      ensures r[i] == f[|l| + 1 + i] && m.data < r[i].data && r[i].area > 0
    {
    }
    forall i, j | 0 <= i < j < |r|
      ensures r[i].data + r[i].area <= r[j].data
    {
      assert r[i] == f[|l| + 1 + i] && r[j] == f[|l| + 1 + j];
    }
  }

  /** The signal handler finds a range exactly when the address lies in one. */
  lemma {:induction false} DetectIff(t: Tree, address: int)
    requires Disjoint(Flat(t))
    ensures Detect(t, address).Some? ==>
      Detect(t, address).value in Flat(t) && Contains(Detect(t, address).value, address)
    ensures forall x :: x in Flat(t) && Contains(x, address) ==> Detect(t, address) == Some(x)
  {
    if t.Node? {
      DisjointParts(Flat(t.left), Root(t), Flat(t.right));
      assert Root(t) in Flat(t);
      DetectIff(t.left, address);
      DetectIff(t.right, address);
    }
  }

  // ----- balance -----

  /** At every node the heights of the subtrees differ by at most one. */
  ghost predicate Balanced(t: Tree) {
    && Exact(t)
    && (t.Node? ==> Balanced(t.left) && Balanced(t.right)
                    && Height(t.left) <= Height(t.right) + 1 && Height(t.right) <= Height(t.left) + 1)
  }

  /** The taller child, if one is too tall, has grandchildren of equal height. */
  ghost predicate Tie(l: Tree, r: Tree) {
    || (Height(l) > Height(r) + 1 && l.Node? && Height(l.left) == Height(l.right))
    || (Height(r) > Height(l) + 1 && r.Node? && Height(r.left) == Height(r.right))
  }

  /** c' is c with one more range: balanced, at most one higher, and then with subtrees of
      different height unless it is a new leaf. */
  ghost predicate Grown(c: Tree, c': Tree) {
    && Balanced(c') && c'.Node?
    && (Height(c') == Height(c) || Height(c') == Height(c) + 1)
    && (c.Node? && Height(c') > Height(c) ==> Height(c'.left) != Height(c'.right))
  }

  lemma MakeBalanced(l: Tree, x: Range, r: Tree)
    requires Balanced(l) && Balanced(r)
    requires Height(l) <= Height(r) + 1 && Height(r) <= Height(l) + 1
    ensures Balanced(Make(l, x, r)) && Height(Make(l, x, r)) == 1 + Max(Height(l), Height(r))
  {
  }

  /** One rotation mends a left subtree the outer half of which is the taller one. */
  lemma SingleLeft(l: Tree, x: Range, r: Tree)
    requires Balanced(l) && Balanced(r) && Height(l) == Height(r) + 2 && Height(l.left) > Height(l.right)
    ensures Balanced(Rebalance(l, x, r)) && Height(Rebalance(l, x, r)) == Height(l)
  {
    MakeBalanced(l.right, x, r);
    MakeBalanced(l.left, Root(l), Make(l.right, x, r));
  }

  lemma SingleRight(l: Tree, x: Range, r: Tree)
    requires Balanced(l) && Balanced(r) && Height(r) == Height(l) + 2 && Height(r.right) > Height(r.left)
    ensures Balanced(Rebalance(l, x, r)) && Height(Rebalance(l, x, r)) == Height(r)
  {
    MakeBalanced(l, x, r.left);
    MakeBalanced(Make(l, x, r.left), Root(r), r.right);
  }

  /** A double rotation mends the other kind. */
  lemma DoubleLeft(l: Tree, x: Range, r: Tree)
    requires Balanced(l) && Balanced(r) && Height(l) == Height(r) + 2 && Height(l.left) < Height(l.right)
    ensures Balanced(Rebalance(l, x, r)) && Height(Rebalance(l, x, r)) == Height(l)
  {
    var m := l.right;
    MakeBalanced(l.left, Root(l), m.left);
    MakeBalanced(m.right, x, r);
    MakeBalanced(Make(l.left, Root(l), m.left), Root(m), Make(m.right, x, r));
  }

  lemma DoubleRight(l: Tree, x: Range, r: Tree)
    requires Balanced(l) && Balanced(r) && Height(r) == Height(l) + 2 && Height(r.right) < Height(r.left)
    ensures Balanced(Rebalance(l, x, r)) && Height(Rebalance(l, x, r)) == Height(r)
  {
    var m := r.left;
    MakeBalanced(l, x, m.left);
    MakeBalanced(m.right, Root(r), r.right);
    MakeBalanced(Make(l, x, m.left), Root(m), Make(m.right, Root(r), r.right));
  }

  lemma GrowLeft(l: Tree, x: Range, r: Tree, l': Tree)
    requires Balanced(Make(l, x, r)) && Grown(l, l')
    ensures Grown(Make(l, x, r), Rebalance(l', x, r)) && !Tie(l', r)
  {
    assert Balanced(l) && Balanced(r);
    if Height(l') > Height(r) + 1 {
      if Height(l'.left) > Height(l'.right) { SingleLeft(l', x, r); } else { DoubleLeft(l', x, r); }
    } else {
      MakeBalanced(l', x, r);
    }
  }

  lemma GrowRight(l: Tree, x: Range, r: Tree, r': Tree)
    requires Balanced(Make(l, x, r)) && Grown(r, r')
    ensures Grown(Make(l, x, r), Rebalance(l, x, r')) && !Tie(l, r')
  {
    assert Balanced(l) && Balanced(r);
    if Height(r') > Height(l) + 1 {
      if Height(r'.right) > Height(r'.left) { SingleRight(l, x, r'); } else { DoubleRight(l, x, r'); }
    } else {
      MakeBalanced(l, x, r');
    }
  }

  /** Inserting into an AVL tree gives an AVL tree that is at most one higher, and never meets
      grandchildren of equal height. */
  lemma {:induction false} InsertBalanced(t: Tree, x: Range)
    requires Balanced(t)
    ensures Grown(t, Insert(t, x))
    ensures t.Node? ==> if x.data > t.data then !Tie(t.left, Insert(t.right, x)) else !Tie(Insert(t.left, x), t.right)
  {
    if t.Node? {
      assert t == Make(t.left, Root(t), t.right);
      if x.data > t.data {
        InsertBalanced(t.right, x);
        GrowRight(t.left, Root(t), t.right, Insert(t.right, x));
      } else {
        InsertBalanced(t.left, x);
        GrowLeft(t.left, Root(t), t.right, Insert(t.left, x));
      }
    }
  }

  function Size(t: Tree): nat {
    if t.Leaf? then 0 else Size(t.left) + 1 + Size(t.right)
  }

  function Fib(n: nat): nat {
    if n < 2 then n else Fib(n - 2) + Fib(n - 1)
  }

  /** A balanced tree of height h has at least Fib(h + 2) - 1 nodes. */
  lemma {:induction false} FibonacciBound(t: Tree)
    requires Balanced(t)
    ensures Size(t) + 1 >= Fib(Height(t) + 2)
  {
    if t.Node? {
      FibonacciBound(t.left);
      FibonacciBound(t.right);
      FibSplit(Height(t.left), Height(t.right), Height(t));
      hide Fib;
    }
  }

  /** The taller side of a tree of height h has height h - 1, and the other at least h - 2. */
  lemma FibSplit(l: nat, r: nat, h: nat)
    requires h == 1 + Max(l, r) && l <= r + 1 && r <= l + 1
    ensures Fib(h + 2) <= Fib(l + 2) + Fib(r + 2)
  {
    assert Fib(h + 2) == Fib(h) + Fib(h + 1);
    FibMonotone(h, l + 2);
    FibMonotone(h, r + 2);
  }

  lemma {:induction false} FibMonotone(m: nat, n: nat)
    ensures m <= n ==> Fib(m) <= Fib(n)
    decreases n
  {
    if m < n {
      FibMonotone(m, n - 1);
    }
  }

  function InsertAll(xs: seq<Range>): (t: Tree)
    ensures Exact(t)
  {
    if xs == [] then Leaf else Insert(InsertAll(xs[..|xs| - 1]), xs[|xs| - 1])
  }

  /** Trees built by insertions alone are balanced and obey the bound. */
  lemma {:induction false} InsertionsStayBalanced(xs: seq<Range>)
    ensures Balanced(InsertAll(xs)) && Size(InsertAll(xs)) + 1 >= Fib(Height(InsertAll(xs)) + 2)
  {
    if xs != [] {
      InsertionsStayBalanced(xs[..|xs| - 1]);
      InsertBalanced(InsertAll(xs[..|xs| - 1]), xs[|xs| - 1]);
    }
    FibonacciBound(InsertAll(xs));
  }

  lemma TieLeft(l: Tree, x: Range, r: Tree)
    requires Balanced(l) && Balanced(r) && Height(l) == Height(r) + 2 && Height(l.left) == Height(l.right)
    ensures Balanced(Rebalance(l, x, r)) <==> Height(l.right.left) == Height(l.left) - 1
  {
    var m := l.right;
    var outer := Make(l.left, Root(l), m.left);
    MakeBalanced(m.right, x, r);
    assert Rebalance(l, x, r) == Make(outer, Root(m), Make(m.right, x, r));
    if Height(m.left) == Height(l.left) - 1 {
      MakeBalanced(l.left, Root(l), m.left);
      MakeBalanced(outer, Root(m), Make(m.right, x, r));
    } else {
      assert !Balanced(outer);
    }
  }

  lemma TieRight(l: Tree, x: Range, r: Tree)
    requires Balanced(l) && Balanced(r) && Height(r) == Height(l) + 2 && Height(r.left) == Height(r.right)
    ensures Balanced(Rebalance(l, x, r)) <==> Height(r.left.right) == Height(r.right) - 1
  {
    var m := r.left;
    var outer := Make(m.right, Root(r), r.right);
    MakeBalanced(l, x, m.left);
    assert Rebalance(l, x, r) == Make(Make(l, x, m.left), Root(m), outer);
    if Height(m.right) == Height(r.right) - 1 {
      MakeBalanced(m.right, Root(r), r.right);
      MakeBalanced(Make(l, x, m.left), Root(m), outer);
    } else {
      assert !Balanced(outer);
    }
  }

  lemma TooTallLeft(l: Tree, x: Range, r: Tree)
    requires Balanced(l) && Balanced(r) && Height(l) == Height(r) + 2
    ensures Balanced(Rebalance(l, x, r)) <==>
            Height(l.left) != Height(l.right) || Height(l.right.left) == Height(l.left) - 1
  {
    if Height(l.left) > Height(l.right) {
      SingleLeft(l, x, r);
    } else if Height(l.left) < Height(l.right) {
      DoubleLeft(l, x, r);
    } else {
      TieLeft(l, x, r);
    }
  }

  lemma TooTallRight(l: Tree, x: Range, r: Tree)
    requires Balanced(l) && Balanced(r) && Height(r) == Height(l) + 2
    ensures Balanced(Rebalance(l, x, r)) <==>
            Height(r.left) != Height(r.right) || Height(r.left.right) == Height(r.right) - 1
  {
    if Height(r.right) > Height(r.left) {
      SingleRight(l, x, r);
    } else if Height(r.right) < Height(r.left) {
      DoubleRight(l, x, r);
    } else {
      TieRight(l, x, r);
    }
  }

  /** If a subtree is two higher than the other, its children differ in height, or its inner child
      has an outer half of full height. */
  predicate Settles(l: Tree, r: Tree) {
    && (l.Node? && Height(l) == Height(r) + 2 && Height(l.left) == Height(l.right) ==>
          l.right.Node? && Height(l.right.left) == Height(l.left) - 1)
    && (r.Node? && Height(r) == Height(l) + 2 && Height(r.left) == Height(r.right) ==>
          r.left.Node? && Height(r.left.right) == Height(r.right) - 1)
  }

  /** Rebalancing a node of balanced subtrees, one of which is at most two higher than the
      other, balances it exactly when the taller subtree's children differ in height or the inner
      grandchild has an outer half of full height. */
  lemma RebalanceBalancedIff(l: Tree, x: Range, r: Tree)
    requires Balanced(l) && Balanced(r)
    requires Height(l) <= Height(r) + 2 && Height(r) <= Height(l) + 2
    ensures Balanced(Rebalance(l, x, r)) <==> Settles(l, r)
  {
    if Height(l) == Height(r) + 2 {
      TooTallLeft(l, x, r);
    } else if Height(r) == Height(l) + 2 {
      TooTallRight(l, x, r);
    }
  }

  // ----- balance after a removal -----

  /** c' is c with a range less: as high, or one less, but perhaps not balanced. */
  ghost predicate Shrunk(c: Tree, c': Tree) {
    Exact(c') && Height(c') <= Height(c) <= Height(c') + 1
  }

  lemma PartsBalanced(l: Tree, x: Range, r: Tree)
    ensures Balanced(Make(l, x, r)) ==> Balanced(l) && Balanced(r)
    ensures Height(Make(l, x, r)) == 1 + Max(Height(l), Height(r))
  {
  }

  /** Too tall a left subtree becomes at most one taller by being rebalanced, and what has shrunk on
      the right stays a part of the tree as it is. */
  lemma ShrinkTallLeft(l: Tree, x: Range, r: Tree)
    requires Balanced(l) && Exact(r) && Height(l) == Height(r) + 2
    ensures Height(l) <= Height(Rebalance(l, x, r)) <= Height(l) + 1
    ensures Balanced(Rebalance(l, x, r)) ==> Balanced(r)
  {
    if Height(l.left) > Height(l.right) {
      PartsBalanced(l.right, x, r);
      PartsBalanced(l.left, Root(l), Make(l.right, x, r));
    } else {
      var m := l.right;
      PartsBalanced(l.left, Root(l), m.left);
      PartsBalanced(m.right, x, r);
      PartsBalanced(Make(l.left, Root(l), m.left), Root(m), Make(m.right, x, r));
      assert Rebalance(l, x, r) == Make(Make(l.left, Root(l), m.left), Root(m), Make(m.right, x, r));
    }
  }

  lemma ShrinkTallRight(l: Tree, x: Range, r: Tree)
    requires Balanced(r) && Exact(l) && Height(r) == Height(l) + 2
    ensures Height(r) <= Height(Rebalance(l, x, r)) <= Height(r) + 1
    ensures Balanced(Rebalance(l, x, r)) ==> Balanced(l)
  {
    if Height(r.right) > Height(r.left) {
      PartsBalanced(l, x, r.left);
      PartsBalanced(Make(l, x, r.left), Root(r), r.right);
    } else {
      var m := r.left;
      PartsBalanced(l, x, m.left);
      PartsBalanced(m.right, Root(r), r.right);
      PartsBalanced(Make(l, x, m.left), Root(m), Make(m.right, Root(r), r.right));
      assert Rebalance(l, x, r) == Make(Make(l, x, m.left), Root(m), Make(m.right, Root(r), r.right));
    }
  }

  lemma ShrinkRight(l: Tree, x: Range, r: Tree, r': Tree, y: Range)
    requires Balanced(Make(l, x, r)) && Shrunk(r, r')
    ensures Shrunk(Make(l, x, r), Rebalance(l, y, r'))
    ensures Balanced(Rebalance(l, y, r')) <==> Balanced(r') && Settles(l, r')
  {
    assert Balanced(l) && Balanced(r);
    if Height(l) == Height(r') + 2 {
      ShrinkTallLeft(l, y, r');
    }
    if Balanced(r') {
      RebalanceBalancedIff(l, y, r');
    }
  }

  lemma ShrinkLeft(l: Tree, x: Range, r: Tree, l': Tree)
    requires Balanced(Make(l, x, r)) && Shrunk(l, l')
    ensures Shrunk(Make(l, x, r), Rebalance(l', x, r))
    ensures Balanced(Rebalance(l', x, r)) <==> Balanced(l') && Settles(l', r)
  {
    assert Balanced(l) && Balanced(r);
    if Height(r) == Height(l') + 2 {
      ShrinkTallRight(l', x, r);
    }
    if Balanced(l') {
      RebalanceBalancedIff(l', x, r);
    }
  }

  /** Every rebalance on the way up from the least node settles. */
  predicate DeleteMinSettles(t: Tree)
    requires t.Node? && Exact(t)
  {
    t.left.Node? ==> DeleteMinSettles(t.left) && Settles(DeleteMin(t.left).0, t.right)
  }

  /** Every rebalance on the way up from the node taken out settles. */
  predicate RemoveSettles(t: Tree, data: int)
    requires Exact(t) && Remove(t, data).Some?
  {
    if t.data == data then
      t.right.Node? ==> DeleteMinSettles(t.right) && Settles(t.left, DeleteMin(t.right).0)
    else if data > t.data then
      RemoveSettles(t.right, data) && Settles(t.left, Remove(t.right, data).value)
    else
      RemoveSettles(t.left, data) && Settles(Remove(t.left, data).value, t.right)
  }

  lemma FixedBalanced(t: Tree)
    requires Balanced(t)
    ensures Fixed(t) == t
  {
  }

  lemma {:induction false} DeleteMinBalancedIff(t: Tree)
    requires t.Node? && Balanced(t)
    ensures Shrunk(t, DeleteMin(t).0)
    ensures Balanced(DeleteMin(t).0) <==> DeleteMinSettles(t)
  {
    if t.left.Leaf? {
      FixedBalanced(t.right);
    } else {
      assert t == Make(t.left, Root(t), t.right);
      DeleteMinBalancedIff(t.left);
      ShrinkLeft(t.left, Root(t), t.right, DeleteMin(t.left).0);
    }
  }

  /** Removal leaves a balanced tree balanced if and only if every rebalance on the path settles;
      it never makes it taller, nor more than one lower. */
  lemma {:induction false} RemoveBalancedIff(t: Tree, data: int)
    requires Balanced(t) && Remove(t, data).Some?
    ensures Shrunk(t, Remove(t, data).value)
    ensures Balanced(Remove(t, data).value) <==> RemoveSettles(t, data)
  {
    assert t == Make(t.left, Root(t), t.right);
    if t.data == data {
      if t.right.Node? {
        DeleteMinBalancedIff(t.right);
        ShrinkRight(t.left, Root(t), t.right, DeleteMin(t.right).0, DeleteMin(t.right).1);
      } else {
        FixedBalanced(t.left);
      }
    } else if data > t.data {
      RemoveBalancedIff(t.right, data);
      ShrinkRight(t.left, Root(t), t.right, Remove(t.right, data).value, Root(t));
    } else {
      RemoveBalancedIff(t.left, data);
      ShrinkLeft(t.left, Root(t), t.right, Remove(t.left, data).value);
    }
  }

  function Unit(data: int): Range { Range(data, 1) }

  function One(data: int): Tree {
    Make(Leaf, Unit(data), Leaf)
  }

  /** A balanced tree of height 3 the root of which has children of equal height, and the right
      one of these no left child. */
  function TallSide(d: int): Tree {
    Make(Make(One(d + 1), Unit(d + 2), Leaf), Unit(d + 4), Make(Leaf, Unit(d + 6), One(d + 7)))
  }

  function ShortSide(d: int): Tree {
    Make(Leaf, Unit(d + 9), One(d + 10))
  }

  lemma OneBalanced(data: int)
    ensures Balanced(One(data)) && Height(One(data)) == 1
  {
    MakeBalanced(Leaf, Unit(data), Leaf);
  }

  lemma TallSideBalanced(d: int)
    ensures Balanced(TallSide(d)) && Height(TallSide(d)) == 3
    ensures Height(TallSide(d).left) == Height(TallSide(d).right) == 2 && Height(TallSide(d).right.left) == 0
  {
    OneBalanced(d + 1);
    OneBalanced(d + 7);
    var a, b := Make(One(d + 1), Unit(d + 2), Leaf), Make(Leaf, Unit(d + 6), One(d + 7));
    MakeBalanced(One(d + 1), Unit(d + 2), Leaf);
    MakeBalanced(Leaf, Unit(d + 6), One(d + 7));
    MakeBalanced(a, Unit(d + 4), b);
  }

  lemma RemoveRightStep(l: Tree, x: Range, r: Tree, data: int, r': Tree)
    requires Exact(l) && Exact(r) && data > x.data && Remove(r, data) == Some(r')
    ensures Remove(Make(l, x, r), data) == Some(Rebalance(l, x, r'))
  {
  }

  lemma InsertLeftStep(l: Tree, x: Range, r: Tree, y: Range, l': Tree)
    requires Exact(l) && Exact(r) && y.data <= x.data && l' == Insert(l, y)
    requires Height(l') <= Height(r) + 1 && Height(r) <= Height(l') + 1
    ensures Insert(Make(l, x, r), y) == Make(l', x, r)
  {
    var t := Make(l, x, r);
    assert t.Node? && t.left == l && t.right == r && Root(t) == x && t.data == x.data;
    InsertIsLeft(t, y);
    hide *;
    LevelRebalance(l', x, r);
  }

  lemma LevelRebalance(l: Tree, x: Range, r: Tree)
    requires Exact(l) && Exact(r) && Height(l) <= Height(r) + 1 && Height(r) <= Height(l) + 1
    ensures Rebalance(l, x, r) == Make(l, x, r)
  {
  }

  lemma InsertIsLeft(t: Tree, y: Range)
    requires t.Node? && Exact(t) && y.data <= t.data
    ensures Insert(t, y) == Rebalance(Insert(t.left, y), Root(t), t.right)
  {
  }

  lemma InsertIsRight(t: Tree, y: Range)
    requires t.Node? && Exact(t) && y.data > t.data
    ensures Insert(t, y) == Rebalance(t.left, Root(t), Insert(t.right, y))
  {
  }

  lemma InsertRightStep(l: Tree, x: Range, r: Tree, y: Range, r': Tree)
    requires Exact(l) && Exact(r) && y.data > x.data && r' == Insert(r, y)
    requires Height(l) <= Height(r') + 1 && Height(r') <= Height(l) + 1
    ensures Insert(Make(l, x, r), y) == Make(l, x, r')
  {
    var t := Make(l, x, r);
    assert t.Node? && t.left == l && t.right == r && Root(t) == x && t.data == x.data;
    InsertIsRight(t, y);
    hide *;
    LevelRebalance(l, x, r');
  }

  /** The ranges of the tree, in an order in which they can be recorded without a rotation. */
  function TieRanges(d: int): seq<Range> {
    [Unit(d + 8), Unit(d + 4), Unit(d + 9), Unit(d + 2)] + [Unit(d + 6), Unit(d + 10), Unit(d + 1), Unit(d + 7)]
  }

  lemma InsertOneMore(xs: seq<Range>, x: Range, all: seq<Range>, t: Tree)
    requires all == xs + [x] && t == InsertAll(xs)
    ensures InsertAll(all) == Insert(t, x)
  {
    assert all[..|all| - 1] == xs;
  }

  lemma FirstFour(d: int)
    ensures InsertAll(TieRanges(d)[..4]) == Make(Make(One(d + 2), Unit(d + 4), Leaf), Unit(d + 8), One(d + 9))
  {
    var xs, x := TieRanges(d), Unit(d + 8);
    InsertOneMore([], x, xs[..1], Leaf);
    assert InsertAll(xs[..1]) == One(d + 8);
    InsertOneMore(xs[..1], xs[1], xs[..2], One(d + 8));
    InsertLeftStep(Leaf, x, Leaf, xs[1], One(d + 4));
    InsertOneMore(xs[..2], xs[2], xs[..3], Make(One(d + 4), x, Leaf));
    InsertRightStep(One(d + 4), x, Leaf, xs[2], One(d + 9));
    InsertOneMore(xs[..3], xs[3], xs[..4], Make(One(d + 4), x, One(d + 9)));
    InsertLeftStep(Leaf, Unit(d + 4), Leaf, xs[3], One(d + 2));
    InsertLeftStep(One(d + 4), x, One(d + 9), xs[3], Make(One(d + 2), Unit(d + 4), Leaf));
  }

  /** Recording the ranges builds the tree. */
  lemma TieIsBuilt(d: int)
    ensures InsertAll(TieRanges(d)) == Make(TallSide(d), Unit(d + 8), ShortSide(d))
  {
    var xs, x, y := TieRanges(d), Unit(d + 8), Unit(d + 4);
    FirstFour(d);
    var l4, l5 := Make(One(d + 2), y, Leaf), Make(One(d + 2), y, One(d + 6));
    InsertOneMore(xs[..4], xs[4], xs[..5], Make(l4, x, One(d + 9)));
    InsertRightStep(One(d + 2), y, Leaf, xs[4], One(d + 6));
    InsertLeftStep(l4, x, One(d + 9), xs[4], l5);
    InsertOneMore(xs[..5], xs[5], xs[..6], Make(l5, x, One(d + 9)));
    InsertRightStep(Leaf, Unit(d + 9), Leaf, xs[5], One(d + 10));
    InsertRightStep(l5, x, One(d + 9), xs[5], ShortSide(d));
    TieIsFinished(d, l5);
  }

  lemma TieIsFinished(d: int, l5: Tree)
    requires l5 == Make(One(d + 2), Unit(d + 4), One(d + 6))
    requires InsertAll(TieRanges(d)[..6]) == Make(l5, Unit(d + 8), ShortSide(d))
    ensures InsertAll(TieRanges(d)) == Make(TallSide(d), Unit(d + 8), ShortSide(d))
  {
    var xs, x, y := TieRanges(d), Unit(d + 8), Unit(d + 4);
    var a, b := Make(One(d + 1), Unit(d + 2), Leaf), Make(Leaf, Unit(d + 6), One(d + 7));
    var l7 := Make(a, y, One(d + 6));
    InsertOneMore(xs[..6], xs[6], xs[..7], Make(l5, x, ShortSide(d)));
    InsertLeftStep(Leaf, Unit(d + 2), Leaf, xs[6], One(d + 1));
    InsertLeftStep(One(d + 2), y, One(d + 6), xs[6], a);
    InsertLeftStep(l5, x, ShortSide(d), xs[6], l7);
    InsertOneMore(xs[..7], xs[7], xs, Make(l7, x, ShortSide(d)));
    InsertRightStep(Leaf, Unit(d + 6), Leaf, xs[7], One(d + 7));
    InsertRightStep(a, y, One(d + 6), xs[7], b);
    InsertLeftStep(l7, x, ShortSide(d), xs[7], TallSide(d));
  }

  /** Removal does not keep balance: the program settles a tie by a double rotation, after which a
      node can have subtrees that differ in height by two.  The tree is one that insertions
      build. */
  lemma RemovalMayUnbalance(d: int)
    ensures var t := InsertAll(TieRanges(d));
      Balanced(t) && Exact(t) && Remove(t, d + 10).Some? && !Balanced(Remove(t, d + 10).value)
  {
    TieIsBuilt(d);
    RemovalUnbalances(d, InsertAll(TieRanges(d)));
  }

  lemma RemovalUnbalances(d: int, t: Tree)
    requires t == Make(TallSide(d), Unit(d + 8), ShortSide(d))
    ensures Balanced(t) && Exact(t) && Remove(t, d + 10).Some? && !Balanced(Remove(t, d + 10).value)
  {
    var l, r := TallSide(d), ShortSide(d);
    OneBalanced(d + 9);
    OneBalanced(d + 10);
    MakeBalanced(Leaf, Unit(d + 9), One(d + 10));
    TallSideBalanced(d);
    MakeBalanced(l, Unit(d + 8), r);
    assert Remove(One(d + 10), d + 10) == Some(Leaf);
    RemoveRightStep(Leaf, Unit(d + 9), One(d + 10), d + 10, Leaf);
    assert Rebalance(Leaf, Unit(d + 9), Leaf) == One(d + 9);
    RemoveRightStep(l, Unit(d + 8), r, d + 10, One(d + 9));
    TooTallLeft(l, Unit(d + 8), One(d + 9));
  }

  // ----- runs -----

  datatype Op = Record(x: Range) | Forget(data: int)

  ghost predicate Apart(x: Range, y: Range) {
    x.data + x.area <= y.data || y.data + y.area <= x.data
  }

  /** What is to be ignored after a run, newest operation last. */
  ghost function Recorded(ops: seq<Op>): set<Range> {
    if ops == [] then {}
    else
      var before := Recorded(ops[..|ops| - 1]);
      match ops[|ops| - 1]
      case Record(x) => before + {x}
      case Forget(data) => set x | x in before && x.data != data
  }

  /** New ranges are not empty and meet none that is recorded, and only recorded ranges are
      forgotten. */
  ghost predicate Proper(ops: seq<Op>) {
    ops != [] ==>
      var before := Recorded(ops[..|ops| - 1]);
      && Proper(ops[..|ops| - 1])
      && match ops[|ops| - 1]
         case Record(x) => x.area > 0 && forall y :: y in before ==> Apart(x, y)
         case Forget(data) => exists y :: y in before && y.data == data
  }

  /** The tree after a run, or None if it came to abort. */
  function TreeAfter(ops: seq<Op>): (r: Option<Tree>)
    ensures r.Some? ==> Exact(r.value)
  {
    if ops == [] then Some(Leaf)
    else
      match TreeAfter(ops[..|ops| - 1])
      case None => None
      case Some(t) =>
        match ops[|ops| - 1]
        case Record(x) => Some(Insert(t, x))
        case Forget(data) => Remove(t, data)
  }

  ghost predicate Holds(t: Tree, ranges: set<Range>) {
    Exact(t) && Disjoint(Flat(t)) && (forall x :: x in Flat(t) <==> x in ranges)
  }

  /** The number of leading ranges that start before d. */
  function Rank(s: seq<Range>, d: int): (k: nat)
    ensures k <= |s|
  {
    if s == [] || s[0].data >= d then 0 else 1 + Rank(s[1..], d)
  }

  lemma {:induction false} RankIsPlace(s: seq<Range>, x: Range)
    requires Increasing(s)
    ensures Place(s, x, Rank(s, x.data))
  {
    if s != [] && s[0].data < x.data {
      RankIsPlace(s[1..], x);
      forall i | 0 <= i < |s|
        ensures s[i].data < x.data <==> i < Rank(s, x.data)
      {
        if i > 0 { assert s[i] == s[1..][i - 1]; }
      }
    }
  }

  lemma DisjointIncreasing(s: seq<Range>)
    requires Disjoint(s)
    ensures Increasing(s)
  {
    forall i, j | 0 <= i < j < |s|
      ensures s[i].data < s[j].data
    {
      assert s[i].area > 0 && s[i].data + s[i].area <= s[j].data;
    }
  }

  lemma DisjointPut(s: seq<Range>, x: Range, k: nat)
    requires Disjoint(s) && Place(s, x, k) && x.area > 0 && forall y :: y in s ==> Apart(x, y)
    ensures Disjoint(s[..k] + [x] + s[k..])
  {
    var s' := s[..k] + [x] + s[k..];
    forall i | 0 <= i < |s|
      ensures if i < k then s[i].data + s[i].area <= x.data else x.data + x.area <= s[i].data
    {
      assert s[i] in s;
    }
    forall i, j | 0 <= i < j < |s'|
      ensures s'[i].data + s'[i].area <= s'[j].data
    {
      assert i < k ==> s'[i] == s[i];
      assert i > k ==> s'[i] == s[i - 1];
      assert j < k ==> s'[j] == s[j];
      assert j > k ==> s'[j] == s[j - 1];
    }
    forall i | 0 <= i < |s'|
      ensures s'[i].area > 0
    {
      assert i < k ==> s'[i] == s[i];
      assert i > k ==> s'[i] == s[i - 1];
    }
  }

  lemma DisjointDrop(s: seq<Range>, k: nat)
    requires Disjoint(s) && k < |s|
    ensures Disjoint(s[..k] + s[k + 1..])
  {
    var s' := s[..k] + s[k + 1..];
    forall i | 0 <= i < |s'|
      ensures s'[i] == s[if i < k then i else i + 1]
    {
    }
    forall i, j | 0 <= i < j < |s'|
      ensures s'[i].data + s'[i].area <= s'[j].data
    {
      var i0, j0 := if i < k then i else i + 1, if j < k then j else j + 1;
      assert s[i0].data + s[i0].area <= s[j0].data;
    }
  }

  /** Recording a range that meets no other adds just it. */
  lemma InsertHolds(t: Tree, ranges: set<Range>, x: Range)
    requires Holds(t, ranges) && x.area > 0 && forall y :: y in ranges ==> Apart(x, y)
    ensures Holds(Insert(t, x), ranges + {x})
  {
    var f := Flat(t);
    var k := Rank(f, x.data);
    DisjointIncreasing(f);
    RankIsPlace(f, x);
    InsertFlat(t, x, k);
    DisjointPut(f, x, k);
    hide Disjoint, Increasing, Flat, Rank, Insert, Apart;
    PutMembers(f, x, k);
  }

  lemma PutMembers(f: seq<Range>, x: Range, k: nat)
    requires k <= |f|
    ensures forall y :: y in f[..k] + [x] + f[k..] <==> y in f || y == x
  {
    assert f == f[..k] + f[k..];
  }

  /** Removing a recorded range never aborts and removes just it. */
  lemma RemoveHolds(t: Tree, ranges: set<Range>, data: int)
    requires Holds(t, ranges) && exists y :: y in ranges && y.data == data
    ensures Remove(t, data).Some?
    ensures Holds(Remove(t, data).value, set x | x in ranges && x.data != data)
  {
    var f := Flat(t);
    DisjointIncreasing(f);
    var y :| y in ranges && y.data == data;
    assert y in f;
    var k :| 0 <= k < |f| && f[k] == y;
    RemoveFlat(t, data, k);
    DisjointDrop(f, k);
    DropMembers(f, k);
  }

  lemma DropMembers(f: seq<Range>, k: nat)
    requires Increasing(f) && k < |f|
    ensures forall x :: x in f[..k] + f[k + 1..] <==> x in f && x.data != f[k].data
  {
    forall x | x in f && x.data != f[k].data
      ensures x in f[..k] + f[k + 1..]
    {
      var i :| 0 <= i < |f| && f[i] == x;
      assert i < k ==> f[..k][i] == x;
      assert i > k ==> f[k + 1..][i - k - 1] == x;
    }
    forall x | x in f[..k] + f[k + 1..]
      ensures x.data != f[k].data
    {
      if x in f[..k] {
        var i :| 0 <= i < k && f[i] == x;
      } else {
        var i :| 0 <= i < |f| - k - 1 && f[k + 1..][i] == x;
        assert f[k + 1 + i] == x;
      }
    }
  }

  /** After any proper run the tree is in order, its heights are exact, it holds exactly the
      recorded ranges, abort has not been reached, and an address is found exactly when it lies
      in a recorded range. */
  lemma {:induction false} RunHolds(ops: seq<Op>)
    requires Proper(ops)
    ensures TreeAfter(ops).Some? && Holds(TreeAfter(ops).value, Recorded(ops))
    ensures forall a :: Detect(TreeAfter(ops).value, a).Some? <==> exists x :: x in Recorded(ops) && Contains(x, a)
  {
    if ops != [] {
      var front := ops[..|ops| - 1];
      RunHolds(front);
      match ops[|ops| - 1]
      case Record(x) => InsertHolds(TreeAfter(front).value, Recorded(front), x);
      case Forget(data) => RemoveHolds(TreeAfter(front).value, Recorded(front), data);
    }
    var t := TreeAfter(ops).value;
    forall a
      ensures Detect(t, a).Some? <==> exists x :: x in Recorded(ops) && Contains(x, a)
    {
      DetectIff(t, a);
    }
  }
}
