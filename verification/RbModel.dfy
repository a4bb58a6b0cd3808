/** The ghost view of a red-black tree: the tree itself, the path from a position up to the
    root (a zipper), and the invariants of usockets/include/uv/tree.h:37-48. */
module RbModel {

  class Node {
    const key: int
    var left: Node?
    var right: Node?
    var parent: Node?
    var red: bool

    constructor (key: int)
      ensures this.key == key
    {
      this.key := key;
      left, right, parent, red := null, null, null, false;
    }
  }

  datatype Dir = L | R

  function Opp(d: Dir): Dir {
    if d == L then R else L
  }

  ghost function Max(a: nat, b: nat): nat {
    if a > b then a else b
  }

  datatype Tree = Leaf | Branch(node: Node, red: bool, left: Tree, right: Tree)

  /** The way from a position in a tree up to the root.  `Step(d, n, red, sib, up)` says that the
      position is child `d` of node `n`, whose other subtree is `sib`. */
  datatype Path = Top | Step(dir: Dir, node: Node, red: bool, sib: Tree, up: Path)

  /** The tree at `node` whose subtree on side `d` is `near`. */
  ghost function Mk(d: Dir, node: Node, red: bool, near: Tree, far: Tree): Tree {
    if d == L then Branch(node, red, near, far) else Branch(node, red, far, near)
  }

  ghost function Near(d: Dir, t: Tree): Tree
    requires t.Branch?
  {
    if d == L then t.left else t.right
  }

  /** The tree after its root has moved down to side `d`, below its other child. */
  ghost function Rotated(d: Dir, t: Tree): Tree
    requires t.Branch? && Near(Opp(d), t).Branch?
  {
    var m := Near(Opp(d), t);
    Mk(d, m.node, m.red, Mk(d, t.node, t.red, Near(d, t), Near(d, m)), Near(Opp(d), m))
  }

  /** The one subtree of a node that has at most one child. */
  ghost function OnlyChild(t: Tree): Tree
    requires t.Branch?
  {
    if t.left.Leaf? then t.right else t.left
  }

  ghost function Plug(c: Path, t: Tree): Tree {
    match c
    case Top => t
    case Step(d, n, red, sib, up) => Plug(up, Mk(d, n, red, t, sib))
  }

  lemma {:induction false} PlugBranch(c: Path, t: Tree)
    requires t.Branch?
    ensures Plug(c, t).Branch?
  {
    if c.Step? {
      PlugBranch(c.up, Mk(c.dir, c.node, c.red, t, c.sib));
    }
  }

  ghost function Append(c: Path, base: Path): Path {
    match c
    case Top => base
    case Step(d, n, red, sib, up) => Step(d, n, red, sib, Append(up, base))
  }

  ghost function Depth(c: Path): nat {
    if c.Top? then 0 else 1 + Depth(c.up)
  }

  ghost function Height(t: Tree): nat {
    if t.Leaf? then 0 else 1 + Max(Height(t.left), Height(t.right))
  }

  // ----- contents, in search order -----

  ghost function InOrder(t: Tree): seq<Node> {
    match t
    case Leaf => []
    case Branch(n, _, l, r) => InOrder(l) + [n] + InOrder(r)
  }

  ghost function Before(c: Path): seq<Node> {
    match c
    case Top => []
    case Step(d, n, _, sib, up) => if d == L then Before(up) else Before(up) + InOrder(sib) + [n]
  }

  ghost function After(c: Path): seq<Node> {
    match c
    case Top => []
    case Step(d, n, _, sib, up) => if d == L then [n] + InOrder(sib) + After(up) else After(up)
  }

  /** The contents of the whole tree, seen from the position. */
  ghost function Around(c: Path, t: Tree): seq<Node> {
    Before(c) + InOrder(t) + After(c)
  }

  lemma {:induction false} InOrderPlug(c: Path, t: Tree)
    ensures InOrder(Plug(c, t)) == Around(c, t)
  {
    if c.Step? {
      InOrderPlug(c.up, Mk(c.dir, c.node, c.red, t, c.sib));
      AroundUp(c, t);
    }
  }

  lemma AroundUp(c: Path, t: Tree)
    requires c.Step?
    ensures Around(c, t) == Around(c.up, Mk(c.dir, c.node, c.red, t, c.sib))
  {
    var b, a, s, i := Before(c.up), After(c.up), InOrder(c.sib), InOrder(t);
    if c.dir == L {
      assert b + i + ([c.node] + s + a) == b + (i + [c.node] + s) + a;
    } else {
      assert (b + s + [c.node]) + i + a == b + (s + [c.node] + i) + a;
    }
  }

  lemma {:induction false} AppendAround(c: Path, base: Path)
    ensures Before(Append(c, base)) == Before(base) + Before(c)
    ensures After(Append(c, base)) == After(c) + After(base)
  {
    if c.Step? {
      AppendAround(c.up, base);
    }
  }

  lemma {:induction false} AppendTop(c: Path)
    ensures Append(c, Top) == c
  {
    if c.Step? {
      AppendTop(c.up);
    }
  }

  lemma {:induction false} PlugAppend(c: Path, base: Path, t: Tree)
    ensures Plug(Append(c, base), t) == Plug(base, Plug(c, t))
  {
    if c.Step? {
      PlugAppend(c.up, base, Mk(c.dir, c.node, c.red, t, c.sib));
    }
  }

  // ----- finding a node's position -----

  lemma {:induction false} Locate(t: Tree, n: Node) returns (c: Path, u: Tree)
    requires n in InOrder(t)
    ensures t == Plug(c, u) && u.Branch? && u.node == n
  {
    if n == t.node {
      c, u := Top, t;
    } else {
      var d := if n in InOrder(t.left) then L else R;
      c, u := Locate(Near(d, t), n);
      var base := Step(d, t.node, t.red, Near(Opp(d), t), Top);
      PlugAppend(c, base, u);
      c := Append(c, base);
    }
  }

  // ----- node sets -----

  ghost function Nodes(t: Tree): set<Node> {
    match t
    case Leaf => {}
    case Branch(n, _, l, r) => {n} + Nodes(l) + Nodes(r)
  }

  ghost function PathNodes(c: Path): set<Node> {
    match c
    case Top => {}
    case Step(_, n, _, sib, up) => {n} + Nodes(sib) + PathNodes(up)
  }

  /** No node occurs twice. */
  ghost predicate Distinct(t: Tree) {
    match t
    case Leaf => true
    case Branch(n, _, l, r) =>
      && Distinct(l) && Distinct(r)
      && n !in Nodes(l) && n !in Nodes(r) && Nodes(l) !! Nodes(r)
  }

  ghost predicate PathDistinct(c: Path) {
    match c
    case Top => true
    case Step(_, n, _, sib, up) =>
      && Distinct(sib) && PathDistinct(up)
      && n !in Nodes(sib) && n !in PathNodes(up) && Nodes(sib) !! PathNodes(up)
  }

  /** A rotation moves no node in search order. */
  lemma RotatedSame(d: Dir, t: Tree)
    requires t.Branch? && Near(Opp(d), t).Branch?
    ensures InOrder(Rotated(d, t)) == InOrder(t) && Nodes(Rotated(d, t)) == Nodes(t)
    ensures Distinct(t) ==> Distinct(Rotated(d, t))
  {
    assert Distinct(t) ==> Distinct(Near(Opp(d), t));
  }

  lemma {:induction false} NodesInOrder(t: Tree)
    ensures forall n :: n in Nodes(t) <==> n in InOrder(t)
  {
    if t.Branch? {
      NodesInOrder(t.left);
      NodesInOrder(t.right);
    }
  }

  // ----- pointers -----

  ghost function RootOf(t: Tree): (n: Node?)
    ensures n != null ==> n in Nodes(t)
  {
    if t.Leaf? then null else t.node
  }

  ghost function ParentOf(c: Path): (n: Node?)
    ensures n != null ==> n in PathNodes(c)
  {
    if c.Top? then null else c.node
  }

  /** `n` is the root of a heap structure that agrees with `t` in every field, below parent `p`. */
  ghost predicate Shape(n: Node?, p: Node?, t: Tree)
    reads Nodes(t)
    ensures Shape(n, p, t) ==> n == RootOf(t)
    decreases t
  {
    match t
    case Leaf => n == null
    case Branch(m, red, l, r) =>
      && n == m && m.parent == p && m.red == red
      && Shape(m.left, m, l) && Shape(m.right, m, r)
  }

  /** The heap agrees with path `c` in every field; the pointer at the position is `child`
      and the root pointer is `root`. */
  ghost predicate PathShape(c: Path, child: Node?, root: Node?)
    reads PathNodes(c)
    decreases c
  {
    match c
    case Top => root == child
    case Step(d, n, red, sib, up) =>
      && n.parent == ParentOf(up) && n.red == red
      && (if d == L then n.left == child && Shape(n.right, n, sib)
          else n.right == child && Shape(n.left, n, sib))
      && PathShape(up, n, root)
  }

  // ----- the red-black conditions -----

  ghost predicate IsRed(t: Tree) {
    t.Branch? && t.red
  }

  ghost predicate TopRed(c: Path) {
    c.Step? && c.red
  }

  ghost function Blacken(t: Tree): Tree {
    if t.Leaf? then t else t.(red := false)
  }

  /** Every way down has `h` black nodes and no red node has a red child. */
  ghost predicate RB(t: Tree, h: int) {
    match t
    case Leaf => h == 0
    case Branch(_, red, l, r) =>
      && (red ==> !IsRed(l) && !IsRed(r))
      && RB(l, if red then h else h - 1)
      && RB(r, if red then h else h - 1)
  }

  /** The surroundings of a position obey the same conditions, provided that the subtree there has
      black height `h` (and is not red below a red node); the topmost node is black. */
  ghost predicate PathRB(c: Path, h: int) {
    match c
    case Top => true
    case Step(_, _, red, sib, up) =>
      && RB(sib, h)
      && (red ==> !IsRed(sib) && up.Step? && !TopRed(up))
      && PathRB(up, if red then h else h + 1)
  }

  /** The whole contract: a black root, no red-red edge, equal black counts. */
  ghost predicate RedBlack(t: Tree) {
    !IsRed(t) && exists h :: RB(t, h)
  }

  lemma {:induction false} RBHeightUnique(t: Tree, h: int, k: int)
    requires RB(t, h) && RB(t, k)
    ensures h == k >= 0
  {
    if t.Branch? {
      RBHeightUnique(t.left, if t.red then h else h - 1, if t.red then k else k - 1);
    }
  }

  lemma {:induction false} PlugRB(c: Path, t: Tree, h: int) returns (k: int)
    requires RB(t, h) && PathRB(c, h)
    requires IsRed(t) ==> c.Step? && !TopRed(c)
    ensures RB(Plug(c, t), k) && !IsRed(Plug(c, t))
  {
    if c.Top? {
      k := h;
    } else {
      k := PlugRB(c.up, Mk(c.dir, c.node, c.red, t, c.sib), if c.red then h else h + 1);
    }
  }

  /** The converse: the surroundings of any position in a red-black tree are red-black. */
  lemma {:induction false} UnplugRB(c: Path, t: Tree, k: int) returns (h: int)
    requires RB(Plug(c, t), k) && !IsRed(Plug(c, t))
    ensures RB(t, h) && PathRB(c, h) && (IsRed(t) ==> c.Step? && !TopRed(c))
  {
    if c.Top? {
      h := k;
    } else {
      h := UnplugRB(c.up, Mk(c.dir, c.node, c.red, t, c.sib), k);
      h := if c.red then h else h - 1;
    }
  }

  /** The same for the part of the way up to `base`. */
  lemma {:induction false} UnplugPart(rel: Path, base: Path, u: Tree, k: int) returns (h: int)
    requires RB(Plug(rel, u), k) && PathRB(base, k)
    requires IsRed(Plug(rel, u)) ==> base.Step? && !TopRed(base)
    ensures RB(u, h) && PathRB(Append(rel, base), h)
  {
    var c := Append(rel, base);
    PlugAppend(rel, base, u);
    var w := PlugRB(base, Plug(rel, u), k);
    h := UnplugRB(c, u, w);
  }

  lemma {:induction false} PlugHasNode(rel: Path, u: Tree)
    requires u.Branch?
    ensures u.node in Nodes(Plug(rel, u)) && (rel.Step? ==> rel.node in Nodes(Plug(rel, u)))
  {
    if rel.Step? {
      PlugHasNode(rel.up, Mk(rel.dir, rel.node, rel.red, u, rel.sib));
      InOrderPlug(rel, u);
      NodesInOrder(Plug(rel, u));
      NodesInOrder(u);
      assert u.node in InOrder(u);
    }
  }

  /** The successor `u.node`, the first node of `t.right`, takes the place of the root of `t`. */
  lemma SuccessorAround(c: Path, t: Tree, rel: Path, u: Tree)
    requires t.Branch? && u.Branch? && Plug(rel, u) == t.right && u.left == Leaf && Before(rel) == []
    ensures Around(Append(rel, Step(R, u.node, t.red, t.left, c)), u.right)
         == Rest(c, t)
  {
    var e := Step(R, u.node, t.red, t.left, c);
    var b, r, f := Before(c) + InOrder(t.left), InOrder(u.right), After(rel);
    assert Before(e) == b + [u.node] && After(e) == After(c) && InOrder(u) == [u.node] + r;
    hide InOrder, Before, After;
    InOrderPlug(rel, u);
    AppendAround(rel, e);
    assert Before(Append(rel, e)) == b + [u.node];
    assert InOrder(t.right) == [u.node] + r + f;
    Regroup(b, [u.node], r, f, After(c));
  }

  lemma Regroup(x: seq<Node>, l: seq<Node>, m: seq<Node>, r: seq<Node>, a: seq<Node>)
    ensures (x + l) + m + (r + a) == x + (l + m + r) + a
  {
  }

  // ----- search order -----

  ghost predicate Ascending(s: seq<Node>) {
    forall i, j :: 0 <= i < j < |s| ==> s[i].key < s[j].key
  }

  /** Key `k` belongs at the position, if it belongs anywhere. */
  ghost predicate Between(c: Path, k: int) {
    && (forall n :: n in Before(c) ==> n.key < k)
    && (forall n :: n in After(c) ==> k < n.key)
  }

  lemma KeysBeside(b: seq<Node>, l: seq<Node>, n: Node, r: seq<Node>, a: seq<Node>)
    requires Ascending(b + (l + [n] + r) + a)
    ensures forall m :: m in l ==> m.key < n.key
    ensures forall m :: m in r ==> n.key < m.key
  {
    var s, i := b + (l + [n] + r) + a, |b| + |l|;
    assert s[i] == n;
    forall m | m in l ensures m.key < n.key {
      var j :| 0 <= j < |l| && l[j] == m;
      assert s[|b| + j] == m;
    }
    forall m | m in r ensures n.key < m.key {
      var j :| 0 <= j < |r| && r[j] == m;
      assert s[i + 1 + j] == m;
    }
  }

  lemma Descend(d: Dir, c: Path, t: Tree, k: int)
    requires t.Branch? && Ascending(Around(c, t)) && Between(c, k)
    requires if d == L then k < t.node.key else t.node.key < k
    ensures var e := Step(d, t.node, t.red, Near(Opp(d), t), c);
            Between(e, k) && Around(e, Near(d, t)) == Around(c, t)
  {
    AroundUp(Step(d, t.node, t.red, Near(Opp(d), t), c), Near(d, t));
    KeysBeside(Before(c), InOrder(t.left), t.node, InOrder(t.right), After(c));
  }

  /** At an empty position: what lies before has smaller keys, and what comes first after it is the
      least element with a larger key. */
  lemma AtGap(c: Path, k: int)
    requires Ascending(Around(c, Leaf)) && Between(c, k)
    ensures Around(c, Leaf) == Before(c) + After(c)
    ensures forall n :: n in Around(c, Leaf) ==> n.key != k
    ensures After(c) == [] ==> forall n :: n in Around(c, Leaf) ==> n.key < k
    ensures After(c) != [] ==> k < After(c)[0].key && After(c)[0] in Around(c, Leaf)
    ensures After(c) != [] ==> forall n :: n in Around(c, Leaf) && k <= n.key ==> After(c)[0].key <= n.key
  {
    var s := Around(c, Leaf);
    assert s == Before(c) + After(c);
    if After(c) != [] {
      assert s[|Before(c)|] == After(c)[0];
    }
  }

  /** The node after `x`, if there is one. */
  ghost function Succ(s: seq<Node>, x: Node): Node?
    requires x in s
  {
    var i :| 0 <= i < |s| && s[i] == x;
    if i + 1 < |s| then s[i + 1] else null
  }

  ghost function Pred(s: seq<Node>, x: Node): Node?
    requires x in s
  {
    var i :| 0 <= i < |s| && s[i] == x;
    if i > 0 then s[i - 1] else null
  }

  /** Where `x` is, in a sequence that ascends. */
  lemma SuccAt(s: seq<Node>, i: nat)
    requires Ascending(s) && i < |s|
    ensures Succ(s, s[i]) == if i + 1 < |s| then s[i + 1] else null
    ensures Pred(s, s[i]) == if i > 0 then s[i - 1] else null
  {
  }

  /** The node in the middle of everything. */
  lemma NodeAround(c: Path, t: Tree)
    requires t.Branch?
    ensures Around(c, t) == (Before(c) + InOrder(t.left)) + [t.node] + (InOrder(t.right) + After(c))
  {
    hide Before, After;
    Regroup(Before(c), InOrder(t.left), [t.node], InOrder(t.right), After(c));
  }

  lemma RegroupFour(x: seq<Node>, l: seq<Node>, r: seq<Node>, a: seq<Node>)
    ensures (x + l) + (r + a) == x + l + r + a
  {
  }

  /** The neighbours of the node at a position. */
  lemma Neighbours(c: Path, t: Tree)
    requires t.Branch? && Ascending(Around(c, t))
    ensures t.node in Around(c, t)
    ensures var f := InOrder(t.right) + After(c); Succ(Around(c, t), t.node) == if f == [] then null else f[0]
    ensures var b := Before(c) + InOrder(t.left);
            Pred(Around(c, t), t.node) == if b == [] then null else b[|b| - 1]
  {
    hide Before, After, InOrder, Around, Ascending, Succ, Pred;
    var b, f := Before(c) + InOrder(t.left), InOrder(t.right) + After(c);
    NodeAround(c, t);
    var s := b + [t.node] + f;
    assert s[|b|] == t.node;
    SuccAt(s, |b|);
  }

  /** The outermost node on side `d` is the first or the last one. */
  lemma OutermostIs(d: Dir, c: Path, t: Tree)
    requires t.Branch? && Near(d, t) == Leaf && (if d == L then Before(c) == [] else After(c) == [])
    ensures var s := Around(c, t); s != [] && t.node == if d == L then s[0] else s[|s| - 1]
  {
    if d == L {
      assert Around(c, t) == [t.node] + (InOrder(t.right) + After(c));
    } else {
      assert InOrder(t) == InOrder(t.left) + [t.node];
      assert Around(c, t) == Before(c) + InOrder(t);
    }
  }

  /** Going back undoes going forward, and conversely. */
  lemma PredSucc(s: seq<Node>, x: Node)
    requires Ascending(s) && x in s
    ensures Succ(s, x) != null ==> Succ(s, x) in s && Pred(s, Succ(s, x)) == x
    ensures Pred(s, x) != null ==> Pred(s, x) in s && Succ(s, Pred(s, x)) == x
  {
    var i :| 0 <= i < |s| && s[i] == x;
    SuccAt(s, i);
    if i + 1 < |s| {
      SuccAt(s, i + 1);
    }
    if i > 0 {
      SuccAt(s, i - 1);
    }
  }

  /** What is left when the node at a position goes. */
  ghost function Rest(c: Path, t: Tree): seq<Node>
    requires t.Branch?
  {
    Before(c) + InOrder(t.left) + InOrder(t.right) + After(c)
  }

  lemma RestIs(c: Path, t: Tree, i: nat)
    requires t.Branch? && Ascending(Around(c, t)) && i == |Before(c) + InOrder(t.left)|
    ensures var s := Around(c, t);
            i < |s| && s[i] == t.node && s[..i] + s[i + 1..] == Rest(c, t) && Ascending(Rest(c, t))
  {
    var b, f := Before(c) + InOrder(t.left), InOrder(t.right) + After(c);
    hide Before, After, InOrder, Around, Ascending;
    NodeAround(c, t);
    RegroupFour(Before(c), InOrder(t.left), InOrder(t.right), After(c));
    WithoutOne(b, t.node, f);
  }

  lemma WithoutOne(b: seq<Node>, n: Node, f: seq<Node>)
    requires Ascending(b + [n] + f)
    ensures var s := b + [n] + f; s[..|b|] + s[|b| + 1..] == b + f && Ascending(b + f)
  {
    var s := b + [n] + f;
    assert forall i :: 0 <= i < |b + f| ==> (b + f)[i] == s[if i < |b| then i else i + 1];
  }

  lemma OnlyChildRest(c: Path, t: Tree)
    requires t.Branch? && (t.left == Leaf || t.right == Leaf)
    ensures Around(c, OnlyChild(t)) == Rest(c, t)
  {
  }

  lemma AscendingWith(c: Path, n: Node)
    requires Ascending(Around(c, Leaf)) && Between(c, n.key)
    ensures Ascending(Before(c) + [n] + After(c))
  {
    var s, b := Around(c, Leaf), Before(c);
    assert s == b + After(c);
    var u := b + [n] + After(c);
    forall i, j | 0 <= i < j < |u| ensures u[i].key < u[j].key {
      if i == |b| {
        assert u[j] in After(c);
      } else if j == |b| {
        assert u[i] in b;
      } else {
        assert u[i] == s[if i < |b| then i else i - 1] && u[j] == s[if j < |b| then j else j - 1];
      }
    }
  }

  // ----- height -----

  ghost function Pow2(n: nat): nat {
    if n == 0 then 1 else 2 * Pow2(n - 1)
  }

  lemma {:induction false} Pow2Add(a: nat, b: nat)
    ensures Pow2(a + b) == Pow2(a) * Pow2(b)
  {
    if a > 0 {
      Pow2Add(a - 1, b);
    }
  }

  lemma {:induction false} Pow2Mono(a: nat, b: nat)
    requires a <= b
    ensures Pow2(a) <= Pow2(b)
  {
    if a < b {
      Pow2Mono(a, b - 1);
    }
  }

  lemma {:induction false} BlackHeightBounds(t: Tree, h: int)
    requires RB(t, h)
    ensures h >= 0 && Pow2(h) <= |InOrder(t)| + 1
    ensures Height(t) <= 2 * h + (if IsRed(t) then 1 else 0)
  {
    if t.Branch? {
      BlackHeightBounds(t.left, if t.red then h else h - 1);
      BlackHeightBounds(t.right, if t.red then h else h - 1);
    }
  }

  lemma SquareMono(p: nat, n: nat)
    requires p <= n
    ensures p * p <= n * n
  {
    assert p * p <= p * n;
    assert p * n <= n * n;
  }

  /** Height at most 2 lg(n + 1), that is 2^height <= (n + 1)^2. */
  lemma HeightBound(t: Tree)
    requires RedBlack(t)
    ensures Pow2(Height(t)) <= (|InOrder(t)| + 1) * (|InOrder(t)| + 1)
  {
    var h :| RB(t, h);
    BlackHeightBounds(t, h);
    Pow2Mono(Height(t), h + h);
    Pow2Add(h, h);
    SquareMono(Pow2(h), |InOrder(t)| + 1);
  }
}
