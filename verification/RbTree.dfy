/** The operations of usockets/include/uv/tree.h on node objects, updated in place.  The mirrored
    halves of the source are one code here, with the side as a parameter. */
module RbTree {
  import opened RbModel
  import opened RbFixup

  class RedBlackTree {
    var root: Node?
    ghost var repr: set<Node>
    ghost var model: Tree

    /** The heap, seen from a position: subtree `t` there, path `c` up to the root. */
    ghost predicate Rep(c: Path, t: Tree)
      reads this`root, this`repr, repr
    {
      && repr == Nodes(t) + PathNodes(c)
      && Nodes(t) !! PathNodes(c) && Distinct(t) && PathDistinct(c)
      && Shape(RootOf(t), ParentOf(c), t)
      && PathShape(c, RootOf(t), root)
    }

    /** One step up: the position's parent becomes the position. */
    lemma ZipUp(c: Path, t: Tree)
      requires c.Step? && Rep(c, t)
      ensures Rep(c.up, Mk(c.dir, c.node, c.red, t, c.sib))
    {
    }

    /** One step down, to child `d`. */
    lemma ZipDown(d: Dir, c: Path, t: Tree)
      requires t.Branch? && Rep(c, t)
      ensures Rep(Step(d, t.node, t.red, Near(Opp(d), t), c), Near(d, t))
    {
    }

    lemma {:induction false} ZipAll(c: Path, t: Tree)
      requires Rep(c, t)
      ensures Rep(Top, Plug(c, t))
      decreases c
    {
      if c.Step? {
        ZipUp(c, t);
        ZipAll(c.up, Mk(c.dir, c.node, c.red, t, c.sib));
      }
    }

    /** Up or down several steps at once. */
    lemma {:induction false} ZipPart(rel: Path, base: Path, t: Tree)
      requires Rep(Append(rel, base), t)
      ensures Rep(base, Plug(rel, t))
      decreases rel
    {
      if rel.Step? {
        ZipUp(Append(rel, base), t);
        ZipPart(rel.up, base, Mk(rel.dir, rel.node, rel.red, t, rel.sib));
      }
    }

    lemma {:induction false} UnzipPart(rel: Path, base: Path, t: Tree)
      requires Rep(base, Plug(rel, t))
      ensures Rep(Append(rel, base), t)
      decreases rel
    {
      if rel.Step? {
        var u := Mk(rel.dir, rel.node, rel.red, t, rel.sib);
        UnzipPart(rel.up, base, u);
        ZipDown(rel.dir, Append(rel.up, base), u);
      }
    }

    function Kid(n: Node, d: Dir): Node?
      reads n
    {
      if d == L then n.left else n.right
    }

    method SetKid(n: Node, d: Dir, k: Node?)
      modifies n
      ensures Kid(n, d) == k && Kid(n, Opp(d)) == old(Kid(n, Opp(d)))
      ensures n.parent == old(n.parent) && n.red == old(n.red)
    {
      if d == L {
        n.left := k;
      } else {
        n.right := k;
      }
    }

    method SetColor(n: Node, red: bool, ghost c: Path, ghost t: Tree)
      requires Rep(c, t) && t.Branch? && t.node == n
      modifies this`root, repr
      ensures Rep(c, t.(red := red)) && repr == old(repr)
    {
      n.red := red;
    }

    /** The pointer at the position, a child of `p` or the root, changes from `o` to `k`. */
    method Relink(p: Node?, o: Node, k: Node?, ghost c: Path)
      requires p == ParentOf(c) && PathShape(c, o, root) && PathDistinct(c) && o !in PathNodes(c)
      modifies this`root, PathNodes(c)
      ensures PathShape(c, k, root)
    {
      if p != null {
        if o == p.left {
          p.left := k;
        } else {
          p.right := k;
        }
      } else {
        root := k;
      }
    }

    /** Child `k`, with its whole subtree `b`, gets parent `p` in place of `q`. */
    method Adopt(k: Node?, p: Node?, ghost q: Node?, ghost b: Tree)
      requires Shape(k, q, b) && Distinct(b)
      modifies Nodes(b)
      ensures Shape(k, p, b)
    {
      if k != null {
        k.parent := p;
      }
    }

    /** The nodes of a rotation are all different: `n`, `m`, and those of the pieces around them. */
    ghost predicate Apart(n: Node, m: Node, a: Tree, b: Tree, e: Tree, c: Path)
      reads this
    {
      && n in repr && m in repr && Nodes(a) <= repr && Nodes(b) <= repr && Nodes(e) <= repr && PathNodes(c) <= repr
      && n != m && n !in Nodes(a) + Nodes(b) + Nodes(e) && m !in Nodes(a) + Nodes(b) + Nodes(e)
      && Nodes(b) !! Nodes(a) && Nodes(b) !! Nodes(e)
      && n !in PathNodes(c) && m !in PathNodes(c)
      && PathNodes(c) !! Nodes(a) && PathNodes(c) !! Nodes(b) && PathNodes(c) !! Nodes(e)
      && Distinct(b) && PathDistinct(c)
    }

    method RotateLeft(n: Node, ghost a: Tree, ghost b: Tree, ghost e: Tree, ghost c: Path) returns (m: Node)
      requires n.right != null && Apart(n, n.right, a, b, e, c)
      requires n.parent == ParentOf(c) && PathShape(c, n, root)
      requires Shape(n.left, n, a) && Shape(n.right.left, n.right, b) && Shape(n.right.right, n.right, e)
      modifies this`root, repr
      ensures m == old(n.right) && m.left == n && n.parent == m && m.parent == ParentOf(c)
      ensures m.red == old(n.right.red) && n.red == old(n.red)
      ensures Shape(n.left, n, a) && Shape(n.right, n, b) && Shape(m.right, m, e)
      ensures PathShape(c, m, root)
    {
      hide Shape, PathShape, Nodes, PathNodes, Distinct, PathDistinct;
      m := n.right;
      var k := m.left;
      n.right := k;
      Adopt(k, n, m, b);
      m.parent := n.parent;
      Relink(n.parent, n, m, c);
      m.left := n;
      n.parent := m;
    }

    method RotateRight(n: Node, ghost a: Tree, ghost b: Tree, ghost e: Tree, ghost c: Path) returns (m: Node)
      requires n.left != null && Apart(n, n.left, a, b, e, c)
      requires n.parent == ParentOf(c) && PathShape(c, n, root)
      requires Shape(n.right, n, a) && Shape(n.left.right, n.left, b) && Shape(n.left.left, n.left, e)
      modifies this`root, repr
      ensures m == old(n.left) && m.right == n && n.parent == m && m.parent == ParentOf(c)
      ensures m.red == old(n.left.red) && n.red == old(n.red)
      ensures Shape(n.right, n, a) && Shape(n.left, n, b) && Shape(m.left, m, e)
      ensures PathShape(c, m, root)
    {
      hide Shape, PathShape, Nodes, PathNodes, Distinct, PathDistinct;
      m := n.left;
      var k := m.right;
      n.left := k;
      Adopt(k, n, m, b);
      m.parent := n.parent;
      Relink(n.parent, n, m, c);
      m.right := n;
      n.parent := m;
    }

    method Rotate(n: Node, d: Dir, ghost c: Path, ghost t: Tree) returns (m: Node)
      requires Rep(c, t) && t.Branch? && t.node == n && Near(Opp(d), t).Branch?
      modifies this`root, repr
      ensures Rep(c, Rotated(d, t)) && m == Rotated(d, t).node && repr == old(repr)
    {
      ghost var a, b, e := Near(d, t), Near(d, Near(Opp(d), t)), Near(Opp(d), Near(Opp(d), t));
      RotatedSame(d, t);
      assert Distinct(Near(Opp(d), t)) && Shape(Near(Opp(d), t).node, n, Near(Opp(d), t));
      if d == L {
        m := RotateLeft(n, a, b, e, c);
        assert Shape(n, m, Branch(n, t.red, a, b));
      } else {
        m := RotateRight(n, a, b, e, c);
        assert Shape(n, m, Branch(n, t.red, b, a));
      }
    }

    /** Takes node `n`, which has at most one child, out of the tree. */
    method Splice(n: Node, child: Node?, ghost c: Path, ghost t: Tree)
      requires Rep(c, t) && t.Branch? && t.node == n && (t.left.Leaf? || t.right.Leaf?)
      requires child == if n.left == null then n.right else n.left
      modifies this`root, this`repr, repr
      ensures Rep(c, OnlyChild(t)) && repr == old(repr) - {n}
      ensures n.parent == old(n.parent)
    {
      ghost var u := OnlyChild(t);
      assert Shape(child, n, u) && Distinct(u);
      assert Nodes(t) == {n} + Nodes(u) && n !in Nodes(u);
      assert n.parent == ParentOf(c);
      hide Shape, PathShape, Nodes, PathNodes, Distinct, PathDistinct;
      Adopt(child, n.parent, n, u);
      Relink(n.parent, n, child, c);
      repr := repr - {n};
    }

    /** Node `n`, not in the tree, takes the place of node `o`, which has a left child. */
    method Replace(o: Node, n: Node, ghost l: Tree, ghost r: Tree, ghost c: Path)
      requires n !in repr && n !in Nodes(l) && n !in Nodes(r) && n !in PathNodes(c)
      requires o in repr && o !in Nodes(l) && o !in Nodes(r) && o !in PathNodes(c)
      requires Nodes(l) <= repr && Nodes(r) <= repr && PathNodes(c) <= repr
      requires Nodes(l) !! Nodes(r) && Nodes(l) !! PathNodes(c) && Nodes(r) !! PathNodes(c)
      requires Distinct(l) && Distinct(r) && PathDistinct(c)
      requires Shape(o.left, o, l) && Shape(o.right, o, r) && o.left != null
      requires o.parent == ParentOf(c) && PathShape(c, o, root)
      modifies this`root, repr, n
      ensures Shape(n.left, n, l) && Shape(n.right, n, r) && n.red == old(o.red)
      ensures n.parent == ParentOf(c) && PathShape(c, n, root)
    {
      hide Shape, PathShape, Nodes, PathNodes, Distinct, PathDistinct;
      n.left, n.right, n.parent, n.red := o.left, o.right, o.parent, o.red;
      Relink(o.parent, o, n, c);
      Adopt(o.left, n, o, l);
      Adopt(o.right, n, o, r);
    }

    method ReplaceRoot(o: Node, n: Node, ghost c: Path, ghost t: Tree)
      requires Rep(c, t) && t.Branch? && t.node == o && t.left.Branch? && n !in repr
      modifies this`root, this`repr, repr, n
      ensures Rep(c, t.(node := n)) && repr == old(repr) - {o} + {n}
    {
      Replace(o, n, t.left, t.right, c);
      repr := repr - {o} + {n};
    }

    /** Hangs the new red node `n` at the empty position of path `c`, below `p`. */
    method Attach(n: Node, p: Node?, d: Dir, ghost c: Path)
      requires Rep(c, Leaf) && n !in repr
      requires p == ParentOf(c) && (c.Step? ==> d == c.dir)
      modifies this`root, this`repr, repr, n
      ensures Rep(c, Branch(n, true, Leaf, Leaf)) && repr == old(repr) + {n}
    {
      n.parent, n.left, n.right, n.red := p, null, null, true;
      if p != null {
        SetKid(p, d, n);
      } else {
        root := n;
      }
      repr := repr + {n};
    }

    /** What the pointers and colours around a position read. */
    lemma Look(c: Path, t: Tree)
      requires Rep(c, t)
      ensures t.Branch? ==> t.node.parent == ParentOf(c) && t.node.red == t.red
      ensures c.Top? ==> root == RootOf(t)
      ensures c.Step? ==>
        && c.node.parent == ParentOf(c.up) && c.node.red == c.red
        && Kid(c.node, c.dir) == RootOf(t) && Kid(c.node, Opp(c.dir)) == RootOf(c.sib)
        && (t.Branch? ==> t.node != RootOf(c.sib))
        && (c.sib.Branch? ==> c.sib.node.red == c.sib.red)
    {
    }

    // ----- insertion -----

    /** The round when the uncle is red: only colours change. */
    method InsertRecolor(p: Node, g: Node, u: Node, ghost c: Path, ghost t: Tree)
      requires Rep(c, t) && c.Step? && c.up.Step? && IsRed(t) && IsRed(c.up.sib)
      requires p == c.node && g == c.up.node && u == c.up.sib.node
      modifies this`root, repr
      ensures var r := InsertRound(c, t); Rep(r.0, r.1) && repr == old(repr)
    {
      hide Rep;
      ghost var d, up, s := c.up.dir, c.up.up, Mk(c.dir, p, c.red, t, c.sib);
      ghost var gr := c.up.red;
      ZipUp(c, t);
      ZipUp(c.up, s);
      ZipDown(Opp(d), up, Mk(d, g, gr, s, c.up.sib));
      SetColor(u, false, Step(Opp(d), g, gr, s, up), c.up.sib);
      ghost var v := Blacken(c.up.sib);
      ZipUp(Step(Opp(d), g, gr, s, up), v);
      ZipDown(d, up, Mk(d, g, gr, s, v));
      SetColor(p, false, Step(d, g, gr, v, up), s);
      ZipUp(Step(d, g, gr, v, up), s.(red := false));
      SetColor(g, true, up, Mk(d, g, gr, s.(red := false), v));
    }

    /** The round when the uncle is black: one or two rotations, after which the loop ends. */
    method InsertRotate(elm: Node, p: Node, g: Node, ghost c: Path, ghost t: Tree) returns (e: Node)
      requires Rep(c, t) && c.Step? && c.red && c.up.Step? && t.Branch? && !IsRed(c.up.sib)
      requires elm == t.node && p == c.node && g == c.up.node
      modifies this`root, repr
      ensures var r := InsertRound(c, t); Rep(r.0, r.1) && e == r.1.node && repr == old(repr)
    {
      hide Rep;
      Look(c, t);
      ZipUp(c, t);
      ghost var s := Mk(c.dir, p, c.red, t, c.sib);
      Look(c.up, s);
      var side := if p == g.left then L else R;
      if Kid(p, Opp(side)) == elm {
        var q := Rotate(p, side, c.up, s);
        InsertOuter(q, g, side, c.up, Rotated(side, s));
        e := p;
      } else {
        InsertOuter(p, g, side, c.up, s);
        e := elm;
      }
    }

    /** The last steps of that round: `q` turns black and `g`, now red, goes below it. */
    method InsertOuter(q: Node, g: Node, side: Dir, ghost c: Path, ghost s: Tree)
      requires Rep(c, s) && c.Step? && c.dir == side && s.Branch? && q == s.node && g == c.node
      modifies this`root, repr
      ensures Rep(Step(side, q, false, Mk(side, g, true, Near(Opp(side), s), c.sib), c.up), Near(side, s))
      ensures repr == old(repr)
    {
      hide Rep;
      SetColor(q, false, c, s);
      ghost var w := Mk(side, g, c.red, s.(red := false), c.sib);
      ZipUp(c, s.(red := false));
      SetColor(g, true, c.up, w);
      var m := Rotate(g, Opp(side), c.up, w.(red := true));
      ZipDown(side, c.up, Rotated(Opp(side), w.(red := true)));
    }

    method InsertColor(n: Node, ghost c0: Path, ghost t0: Tree, ghost h0: int)
      requires Rep(c0, t0) && t0.Branch? && n == t0.node && IsRed(t0) && RB(t0, h0) && PathRB(c0, h0)
      modifies this`root, this`model, repr
      ensures Rep(Top, model) && RedBlack(model) && InOrder(model) == Around(c0, t0) && repr == old(repr)
    {
      hide Rep;
      var elm := n;
      ghost var c, t, h := c0, t0, h0;
      Look(c, t);
      while elm.parent != null && elm.parent.red
        invariant Rep(c, t) && t.Branch? && elm == t.node && IsRed(t) && RB(t, h) && PathRB(c, h)
        invariant Around(c, t) == Around(c0, t0) && repr == old(repr)
        decreases Depth(c)
      {
        elm, c, t, h := InsertOnce(elm, c, t, h);
        Look(c, t);
      }
      Look(c, t);
      ZipAll(c, t);
      PlugBranch(c, t);
      Look(Top, Plug(c, t));
      h := InsertDone(c, t, h);
      InOrderPlug(c, t);
      SetColor(root, false, Top, Plug(c, t));
      model := Blacken(Plug(c, t));
      assert InOrder(model) == InOrder(Plug(c, t));
    }

    /** One round of the loop. */
    method InsertOnce(elm: Node, ghost c: Path, ghost t: Tree, ghost h: int)
      returns (e: Node, ghost c': Path, ghost t': Tree, ghost k: int)
      requires Rep(c, t) && t.Branch? && elm == t.node && IsRed(t) && RB(t, h) && PathRB(c, h)
      requires elm.parent != null && elm.parent.red
      modifies this`root, repr
      ensures Rep(c', t') && t'.Branch? && e == t'.node && IsRed(t') && RB(t', k) && PathRB(c', k)
      ensures Around(c', t') == Around(c, t) && repr == old(repr) && Depth(c') < Depth(c)
    {
      hide Rep;
      Look(c, t);
      ZipUp(c, t);
      Look(c.up, Mk(c.dir, c.node, c.red, t, c.sib));
      k := InsertRoundOk(c, t, h);
      InsertRoundSame(c, t);
      var r := InsertRound(c, t);
      c', t' := r.0, r.1;
      var parent := elm.parent;
      var gparent := parent.parent;
      var tmp := Kid(gparent, if parent == gparent.left then R else L);
      if tmp != null && tmp.red {
        InsertRecolor(parent, gparent, tmp, c, t);
        e := gparent;
      } else {
        e := InsertRotate(elm, parent, gparent, c, t);
      }
    }

    // ----- removal -----

    /** From a position to its sibling. */
    lemma ToSibling(c: Path, t: Tree)
      requires Rep(c, t) && c.Step?
      ensures Rep(Step(Opp(c.dir), c.node, c.red, t, c.up), c.sib)
    {
      hide Rep;
      ZipUp(c, t);
      ZipDown(Opp(c.dir), c.up, Mk(c.dir, c.node, c.red, t, c.sib));
    }

    lemma {:induction false} RootAbove(c: Path, t: Tree)
      requires Rep(c, t)
      ensures root == RootOf(t) <==> c.Top?
      decreases c
    {
      if c.Step? {
        ZipUp(c, t);
        RootAbove(c.up, Mk(c.dir, c.node, c.red, t, c.sib));
        if c.up.Step? {
          RootInPath(c.up, c.node);
        }
      }
    }

    lemma {:induction false} RootInPath(c: Path, child: Node?)
      requires PathShape(c, child, root) && c.Step?
      ensures root != null && root in PathNodes(c)
      decreases c
    {
      if c.up.Step? {
        RootInPath(c.up, c.node);
      }
    }

    method SetSiblingColor(s: Node, red: bool, ghost c: Path, ghost t: Tree)
      requires Rep(c, t) && c.Step? && c.sib.Branch? && s == c.sib.node
      modifies this`root, repr
      ensures Rep(c.(sib := c.sib.(red := red)), t) && repr == old(repr)
    {
      hide Rep;
      ghost var e := Step(Opp(c.dir), c.node, c.red, t, c.up);
      ToSibling(c, t);
      SetColor(s, red, e, c.sib);
      ToSibling(e, c.sib.(red := red));
    }

    method SetParentColor(p: Node, red: bool, ghost c: Path, ghost t: Tree)
      requires Rep(c, t) && c.Step? && p == c.node
      modifies this`root, repr
      ensures Rep(c.(red := red), t) && repr == old(repr)
    {
      hide Rep;
      ghost var u := Mk(c.dir, p, c.red, t, c.sib);
      ZipUp(c, t);
      SetColor(p, red, c.up, u);
      ZipDown(c.dir, c.up, u.(red := red));
    }

    method RemoveRedSibling(p: Node, s: Node, side: Dir, ghost c: Path, ghost t: Tree)
      requires Rep(c, t) && c.Step? && c.sib.Branch? && p == c.node && s == c.sib.node && side == c.dir
      modifies this`root, repr
      ensures Rep(RedSibling(c), t) && repr == old(repr)
    {
      hide Rep;
      SetSiblingColor(s, false, c, t);
      ghost var e := c.(sib := c.sib.(red := false));
      SetParentColor(p, true, e, t);
      ghost var u := Mk(side, p, true, t, e.sib);
      ZipUp(e.(red := true), t);
      var m := Rotate(p, side, c.up, u);
      ZipDown(side, c.up, Rotated(side, u));
      ZipDown(side, RedSibling(c).up, Mk(side, p, true, t, Near(side, c.sib)));
    }

    /** A red near nephew is brought up in place of the sibling, if the far one is not red. */
    method RemoveFarRed(s: Node, side: Dir, ghost c: Path, ghost t: Tree) returns (s': Node)
      requires Rep(c, t) && c.Step? && c.sib.Branch? && s == c.sib.node && side == c.dir
      requires !BlackChildren(c.sib)
      modifies this`root, repr
      ensures Rep(c.(sib := FarRed(side, c.sib)), t) && s' == FarRed(side, c.sib).node && repr == old(repr)
    {
      hide Rep;
      ghost var e, q := Step(Opp(side), c.node, c.red, t, c.up), c.sib;
      ToSibling(c, t);
      ZipDown(Opp(side), e, q);
      Look(Step(Opp(side), s, q.red, Near(side, q), e), Near(Opp(side), q));
      s' := s;
      if Kid(s, Opp(side)) == null || !Kid(s, Opp(side)).red {
        s' := RemoveNearRed(s, side, e, q);
      }
      ToSibling(e, FarRed(side, q));
    }

    method RemoveNearRed(s: Node, side: Dir, ghost e: Path, ghost q: Tree) returns (m: Node)
      requires Rep(e, q) && q.Branch? && s == q.node && Near(side, q).Branch?
      modifies this`root, repr
      ensures var w := Mk(side, s, true, Blacken(Near(side, q)), Near(Opp(side), q));
              Rep(e, Rotated(Opp(side), w)) && m == Rotated(Opp(side), w).node
      ensures repr == old(repr)
    {
      hide Rep;
      ghost var n, f := Near(side, q), Near(Opp(side), q);
      ZipDown(side, e, q);
      Look(Step(side, s, q.red, f, e), n);
      SetColor(Kid(s, side), false, Step(side, s, q.red, f, e), n);
      ZipUp(Step(side, s, q.red, f, e), Blacken(n));
      SetColor(s, true, e, Mk(side, s, q.red, Blacken(n), f));
      m := Rotate(s, Opp(side), e, Mk(side, s, true, Blacken(n), f));
    }

    method RemoveRepair(p: Node, s: Node, side: Dir, ghost c: Path, ghost t: Tree)
      requires Rep(c, t) && c.Step? && c.sib.Branch? && p == c.node && s == c.sib.node && side == c.dir
      modifies this`root, repr
      ensures Rep(c.up, Repaired(c, t, c.sib)) && repr == old(repr)
    {
      hide Rep;
      Look(c, t);
      SetSiblingColor(s, p.red, c, t);
      ghost var q := c.sib.(red := c.red);
      ghost var c1 := c.(sib := q);
      SetParentColor(p, false, c1, t);
      ghost var c2 := c1.(red := false);
      q := RemoveFarBlack(s, side, c2, t);
      ZipUp(c2.(sib := q), t);
      var m := Rotate(p, side, c.up, Mk(side, p, false, t, q));
    }

    /** The far child of the sibling, if there is one, turns black. */
    method RemoveFarBlack(s: Node, side: Dir, ghost c: Path, ghost t: Tree) returns (ghost q: Tree)
      requires Rep(c, t) && c.Step? && c.sib.Branch? && s == c.sib.node && side == c.dir
      modifies this`root, repr
      ensures q == Mk(side, s, c.sib.red, Near(side, c.sib), Blacken(Near(Opp(side), c.sib)))
      ensures Rep(c.(sib := q), t) && repr == old(repr)
    {
      hide Rep;
      ghost var e, f := Step(Opp(side), c.node, c.red, t, c.up), Near(Opp(side), c.sib);
      ghost var d := Step(Opp(side), s, c.sib.red, Near(side, c.sib), e);
      ToSibling(c, t);
      ZipDown(Opp(side), e, c.sib);
      Look(d, f);
      if Kid(s, Opp(side)) != null {
        SetColor(Kid(s, Opp(side)), false, d, f);
      }
      ZipUp(d, Blacken(f));
      q := Mk(side, s, c.sib.red, Near(side, c.sib), Blacken(f));
      ToSibling(e, q);
    }

    /** The second half of a round, when the sibling is black: either the shortage moves up, or the
        tree is repaired and the loop ends. */
    method RemoveBlackSibling(p: Node, s0: Node, side: Dir, ghost c: Path, ghost t: Tree, ghost h: int)
      returns (ended: bool, ghost c': Path, ghost t': Tree, ghost k: int)
      requires Rep(c, t) && Short(c, t, h) && !IsRed(t) && c.Step? && c.sib.Branch? && !IsRed(c.sib)
      requires p == c.node && s0 == c.sib.node && side == c.dir
      modifies this`root, repr
      ensures Rep(c', t') && Around(c', t') == Around(c, t) && repr == old(repr)
      ensures !ended ==> c' == c.up && Short(c', t', k) && IsRed(t') == c.red && RootOf(t') == p
      ensures ended ==> c' == Top && RB(t', k) && !IsRed(t')
    {
      hide Rep, RB, Around, Short, FarRed, Plug;
      ghost var e := Step(Opp(side), p, c.red, t, c.up);
      ToSibling(c, t);
      ZipDown(L, e, c.sib);
      Look(Step(L, s0, c.sib.red, c.sib.right, e), c.sib.left);
      if (s0.left == null || !s0.left.red) && (s0.right == null || !s0.right.red) {
        SetSiblingColor(s0, true, c, t);
        c', t', ended := c.up, ShiftUp(c, t), false;
        k := ShiftUpOk(c, t, h);
        ZipUp(c.(sib := c.sib.(red := true)), t);
      } else {
        ended := true;
        k := RepairDone(c, t, h);
        ghost var q := FarRed(side, c.sib);
        var s := RemoveFarRed(s0, side, c, t);
        RemoveRepair(p, s, side, c.(sib := q), t);
        ZipAll(c.up, Repaired(c, t, q));
        c', t' := Top, Plug(c.up, Repaired(c, t, q));
      }
    }

    /** One round of the loop. */
    method RemoveOnce(elm: Node?, p: Node, ghost c: Path, ghost t: Tree, ghost h: int)
      returns (ended: bool, ghost c': Path, ghost t': Tree, ghost k: int)
      requires Rep(c, t) && Short(c, t, h) && !IsRed(t) && c.Step? && elm == RootOf(t) && p == c.node
      modifies this`root, repr
      ensures Rep(c', t') && Around(c', t') == Around(c, t) && repr == old(repr)
      ensures !ended ==> Short(c', t', k) && RootOf(t') == p && (Depth(c') < Depth(c) || (c'.Step? && IsRed(t') && Depth(c') == Depth(c)))
      ensures ended ==> c' == Top && RB(t', k) && !IsRed(t')
    {
      hide Rep;
      Look(c, t);
      SiblingExists(c, t, h);
      var side := if p.left == elm then L else R;
      var tmp := Kid(p, Opp(side));
      if tmp.red {
        RedSiblingOk(c, t, h);
        RedSiblingSame(c, t);
        RemoveRedSibling(p, tmp, side, c, t);
        ghost var e := RedSibling(c);
        Look(e, t);
        tmp := Kid(p, Opp(side));
        ended, c', t', k := RemoveBlackSibling(p, tmp, side, e, t, h);
      } else {
        ended, c', t', k := RemoveBlackSibling(p, tmp, side, c, t, h);
      }
    }

    method RemoveColor(parent0: Node?, elm0: Node?, ghost c0: Path, ghost t0: Tree, ghost h0: int)
      requires Rep(c0, t0) && Short(c0, t0, h0) && elm0 == RootOf(t0) && parent0 == ParentOf(c0)
      modifies this`root, this`model, repr
      ensures Rep(Top, model) && RedBlack(model) && InOrder(model) == Around(c0, t0) && repr == old(repr)
    {
      hide Rep, RB, Around, Short, InOrder;
      var elm, parent := elm0, parent0;
      ghost var c, t, h, whole := c0, t0, h0, false;
      Look(c, t);
      RootAbove(c, t);
      while (elm == null || !elm.red) && elm != root
        invariant Rep(c, t) && Short(c, t, h) && elm == RootOf(t) && parent == ParentOf(c)
        invariant root == elm <==> c.Top?
        invariant elm != null ==> elm.red == t.red
        invariant Around(c, t) == Around(c0, t0) && repr == old(repr)
        decreases Depth(c), if IsRed(t) then 0 else 1
      {
        var ended;
        var p := parent;
        ended, c, t, h := RemoveOnce(elm, p, c, t, h);
        Look(c, t);
        RootAbove(c, t);
        if ended {
          elm := root;
          whole := true;
          break;
        }
        elm := p;
        parent := elm.parent;
      }
      if !whole {
        h := ShortDone(c, t, h);
      }
      if elm != null {
        SetColor(elm, false, c, t);
      }
      ZipAll(c, Blacken(t));
      BlackenSame(c, t);
      model := Plug(c, Blacken(t));
    }

    // ----- the whole tree -----

    ghost predicate Valid()
      reads this`root, this`repr, this`model, repr
    {
      Rep(Top, model) && RedBlack(model) && Ascending(Elements())
    }

    /** The elements, in search order. */
    ghost function Elements(): seq<Node>
      reads this`model
    {
      InOrder(model)
    }

    constructor ()
      ensures Valid() && Elements() == [] && repr == {}
    {
      root, repr, model := null, {}, Leaf;
      new;
      assert RB(Leaf, 0);
    }

    lemma ElementsInRepr()
      requires Valid()
      ensures forall n :: n in repr <==> n in Elements()
    {
      NodesInOrder(model);
    }

    /** One step of a search for key `k`, to child `d` of `n`. */
    method Down(n: Node, d: Dir, k: int, ghost c: Path, ghost t: Tree)
      returns (m: Node?, ghost c': Path, ghost t': Tree)
      requires Rep(c, t) && t.Branch? && n == t.node && Ascending(Around(c, t)) && Between(c, k)
      requires if d == L then k < n.key else n.key < k
      ensures c' == Step(d, n, t.red, Near(Opp(d), t), c) && t' == Near(d, t)
      ensures Rep(c', t') && m == RootOf(t') && Around(c', t') == Around(c, t) && Between(c', k)
    {
      hide Rep;
      Descend(d, c, t, k);
      ZipDown(d, c, t);
      c', t' := Step(d, n, t.red, Near(Opp(d), t), c), Near(d, t);
      Look(c', t');
      m := Kid(n, d);
    }

    lemma AtRoot()
      requires Valid()
      ensures root == RootOf(model) && Around(Top, model) == Elements()
    {
    }

    method Find(elm: Node) returns (r: Node?, ghost steps: nat)
      requires Valid()
      ensures r != null ==> r in Elements() && r.key == elm.key
      ensures r == null ==> forall n :: n in Elements() ==> n.key != elm.key
      ensures Pow2(steps) <= (|Elements()| + 1) * (|Elements()| + 1)
    {
      AtRoot();
      HeightBound(model);
      hide Rep, InOrder, Before, After, Ascending;
      ghost var c, t := Top, model;
      r, steps := root, 0;
      while r != null
        invariant Rep(c, t) && r == RootOf(t)
        invariant Around(c, t) == Elements() && Between(c, elm.key)
        invariant steps + Height(t) <= Height(model)
        decreases t
      {
        Pow2Mono(steps + 1, Height(model));
        steps := steps + 1;
        if elm.key < r.key {
          r, c, t := Down(r, L, elm.key, c, t);
        } else if elm.key > r.key {
          r, c, t := Down(r, R, elm.key, c, t);
        } else {
          return;
        }
      }
      Pow2Mono(steps, Height(model));
    }

    method NFind(elm: Node) returns (r: Node?)
      requires Valid()
      ensures r != null ==> r in Elements() && elm.key <= r.key
      ensures r != null ==> forall n :: n in Elements() && elm.key <= n.key ==> r.key <= n.key
      ensures r == null ==> forall n :: n in Elements() ==> n.key < elm.key
    {
      AtRoot();
      hide Rep, InOrder, Before, Height;
      ghost var c, t := Top, model;
      var tmp := root;
      r := null;
      while tmp != null
        invariant Rep(c, t) && tmp == RootOf(t)
        invariant Around(c, t) == Elements() && Between(c, elm.key)
        invariant r == if After(c) == [] then null else After(c)[0]
        decreases t
      {
        if elm.key < tmp.key {
          r := tmp;
          tmp, c, t := Down(tmp, L, elm.key, c, t);
        } else if elm.key > tmp.key {
          tmp, c, t := Down(tmp, R, elm.key, c, t);
        } else {
          r := tmp;
          return;
        }
      }
      AtGap(c, elm.key);
    }

    /** The search of RB_INSERT: the node with an equal key, or the empty position for a new one. */
    method Seek(elm: Node) returns (r: Node?, parent: Node?, d: Dir, ghost c: Path)
      requires Valid()
      ensures r != null ==> r in Elements() && r.key == elm.key
      ensures r == null ==>
        && Rep(c, Leaf) && parent == ParentOf(c) && (c.Step? ==> c.dir == d)
        && Plug(c, Leaf) == model && Around(c, Leaf) == Elements() && Between(c, elm.key)
        && Elements() == Before(c) + After(c) && forall n :: n in Elements() ==> n.key != elm.key
    {
      AtRoot();
      hide Rep, InOrder, Before, After, Height, RedBlack;
      ghost var t := model;
      c, parent, d := Top, null, L;
      var tmp := root;
      while tmp != null
        invariant Rep(c, t) && tmp == RootOf(t) && parent == ParentOf(c) && (c.Step? ==> c.dir == d)
        invariant Plug(c, t) == model && Around(c, t) == Elements() && Between(c, elm.key)
        decreases t
      {
        parent := tmp;
        if elm.key < parent.key {
          d := L;
          tmp, c, t := Down(tmp, L, elm.key, c, t);
        } else if elm.key > parent.key {
          d := R;
          tmp, c, t := Down(tmp, R, elm.key, c, t);
        } else {
          r := tmp;
          return;
        }
      }
      r := null;
      AtGap(c, elm.key);
    }

    /** Either `elm` joins the tree at index `i` of the order, or `r`, with the same key, is there
        already and nothing changes. */
    method Insert(elm: Node) returns (r: Node?, ghost i: nat)
      requires Valid()
      modifies this, repr, elm
      ensures Valid()
      ensures r != null ==> r in Elements() && r.key == elm.key
      ensures r != null ==> unchanged(this, elm) && forall n :: n in old(repr) ==> unchanged(n)
      ensures r == null ==>
        && (forall n :: n in old(Elements()) ==> n.key != elm.key)
        && i <= |old(Elements())| && Elements() == old(Elements())[..i] + [elm] + old(Elements())[i..]
        && repr == old(repr) + {elm}
    {
      hide *;
      ElementsInRepr();
      var parent, d;
      ghost var c;
      i := 0;
      r, parent, d, c := Seek(elm);
      if r == null {
        i := |Before(c)|;
        InsertAt(elm, parent, d, c);
      }
    }

    method InsertAt(elm: Node, parent: Node?, d: Dir, ghost c: Path)
      requires Valid() && elm !in repr
      requires Rep(c, Leaf) && parent == ParentOf(c) && (c.Step? ==> c.dir == d)
      requires Plug(c, Leaf) == model && Around(c, Leaf) == Elements() && Between(c, elm.key)
      modifies this, repr, elm
      ensures Valid() && Elements() == Before(c) + [elm] + After(c) && repr == old(repr) + {elm}
    {
      hide Rep, Plug, PathRB, Before, After, Between;
      ghost var t := Branch(elm, true, Leaf, Leaf);
      ghost var k :| RB(Plug(c, Leaf), k);
      ghost var h := UnplugRB(c, Leaf, k);
      AscendingWith(c, elm);
      assert Around(c, t) == Before(c) + [elm] + After(c);
      Attach(elm, parent, d, c);
      InsertColor(elm, c, t, h);
    }

    // ----- traversal -----

    /** From the position of `n`, all the way down on side `d`. */
    method Extreme(n: Node, d: Dir, ghost c: Path, ghost t: Tree) returns (m: Node, ghost rel: Path, ghost u: Tree)
      requires Rep(c, t) && t.Branch? && n == t.node
      ensures Rep(Append(rel, c), u) && u.Branch? && m == u.node && Near(d, u) == Leaf
      ensures Plug(rel, u) == t
      ensures if d == L then Before(rel) == [] else After(rel) == []
    {
      hide Rep, InOrder;
      m, rel, u := n, Top, t;
      Look(c, t);
      ZipDown(d, c, t);
      Look(Step(d, n, t.red, Near(Opp(d), t), c), Near(d, t));
      while Kid(m, d) != null
        invariant Rep(Append(rel, c), u) && u.Branch? && m == u.node && Kid(m, d) == RootOf(Near(d, u))
        invariant Plug(rel, u) == t
        invariant if d == L then Before(rel) == [] else After(rel) == []
        decreases u
      {
        var e := Append(rel, c);
        ZipDown(d, e, u);
        rel, u := Step(d, m, u.red, Near(Opp(d), u), rel), Near(d, u);
        m := Kid(m, d);
        ZipDown(d, Append(rel, c), u);
        Look(Step(d, m, u.red, Near(Opp(d), u), Append(rel, c)), Near(d, u));
      }
    }

    /** The position of element `n`. */
    lemma PositionOf(n: Node) returns (c: Path, t: Tree)
      requires Valid() && n in Elements()
      ensures Rep(c, t) && t.Branch? && t.node == n && Plug(c, t) == model
      ensures Around(c, t) == Elements() && Ascending(Around(c, t))
    {
      c, t := Locate(model, n);
      InOrderPlug(c, t);
      UnzipPart(c, Top, t);
      AppendTop(c);
    }

    method MinMax(val: int) returns (r: Node?)
      requires Valid()
      ensures Elements() == [] ==> r == null
      ensures Elements() != [] ==> r == if val < 0 then Elements()[0] else Elements()[|Elements()| - 1]
    {
      AtRoot();
      hide Rep, Plug;
      r := root;
      if root != null {
        var d := if val < 0 then L else R;
        ghost var rel, u;
        r, rel, u := Extreme(root, d, Top, model);
        InOrderPlug(rel, u);
        OutermostIs(d, rel, u);
      }
    }

    /** Up to the first ancestor of which `n` is not on side `d`: the neighbour of `n` on side `d`,
        when there is nothing below. */
    method Climb(n: Node, d: Dir, ghost c0: Path, ghost t0: Tree) returns (p: Node?)
      requires Rep(c0, t0) && t0.Branch? && n == t0.node
      ensures d == R ==> p == if After(c0) == [] then null else After(c0)[0]
      ensures d == L ==> p == if Before(c0) == [] then null else Before(c0)[|Before(c0)| - 1]
    {
      hide Rep, InOrder;
      var elm := n;
      ghost var c, t := c0, t0;
      Look(c, t);
      while elm.parent != null && elm == Kid(elm.parent, d)
        invariant Rep(c, t) && t.Branch? && elm == t.node && elm.parent == ParentOf(c)
        invariant c.Step? ==> (elm == Kid(c.node, d) <==> c.dir == d)
        invariant if d == R then After(c) == After(c0) else Before(c) == Before(c0)
        decreases c
      {
        ZipUp(c, t);
        elm := elm.parent;
        c, t := c.up, Mk(c.dir, c.node, c.red, t, c.sib);
        Look(c, t);
      }
      p := elm.parent;
    }

    method Next(elm: Node) returns (r: Node?)
      requires Valid() && elm in Elements()
      ensures r == Succ(Elements(), elm)
    {
      hide *;
      ghost var c, t := PositionOf(elm);
      Neighbours(c, t);
      r := Beside(elm, R, c, t);
    }

    method Prev(elm: Node) returns (r: Node?)
      requires Valid() && elm in Elements()
      ensures r == Pred(Elements(), elm)
    {
      hide *;
      ghost var c, t := PositionOf(elm);
      Neighbours(c, t);
      r := Beside(elm, L, c, t);
    }

    /** RB_NEXT (`d` is R) and RB_PREV (`d` is L). */
    method Beside(elm: Node, d: Dir, ghost c: Path, ghost t: Tree) returns (r: Node?)
      requires Rep(c, t) && t.Branch? && elm == t.node
      ensures d == R ==> var f := InOrder(t.right) + After(c); r == if f == [] then null else f[0]
      ensures d == L ==> var b := Before(c) + InOrder(t.left); r == if b == [] then null else b[|b| - 1]
    {
      hide Rep, Before, After, Plug;
      ghost var e, u := Step(d, elm, t.red, Near(Opp(d), t), c), Near(d, t);
      ZipDown(d, c, t);
      Look(e, u);
      if Kid(elm, d) != null {
        ghost var rel, v;
        r, rel, v := Extreme(Kid(elm, d), Opp(d), e, u);
        InOrderPlug(rel, v);
        OutermostIs(Opp(d), rel, v);
      } else {
        r := Climb(elm, d, c, t);
      }
    }

    /** RB_FOREACH visits every element once, in order. */
    method ForEach() returns (visited: seq<Node>)
      requires Valid()
      ensures visited == Elements()
    {
      visited := [];
      var x := MinMax(-1);
      while x != null
        invariant visited <= Elements()
        invariant x == if |visited| < |Elements()| then Elements()[|visited|] else null
        decreases |Elements()| - |visited|
      {
        SuccAt(Elements(), |visited|);
        visited := visited + [x];
        x := Next(x);
      }
    }

    // ----- removal of a node -----

    /** Where `elm` is, and what is left without it. */
    lemma RemovalPlace(elm: Node) returns (c: Path, t: Tree, h: int, i: nat)
      requires Valid() && elm in Elements()
      ensures Rep(c, t) && t.Branch? && t.node == elm && elm.left == RootOf(t.left) && elm.right == RootOf(t.right)
      ensures RB(t, h) && PathRB(c, h) && (IsRed(t) ==> c.Step? && !TopRed(c))
      ensures i < |Elements()| && Elements()[i] == elm
      ensures Rest(c, t) == Elements()[..i] + Elements()[i + 1..] && Ascending(Rest(c, t))
    {
      c, t := PositionOf(elm);
      var k :| RB(model, k);
      hide Rep, RB, Ascending, InOrder, Before, After, Plug, Around, Rest, PathRB;
      h := UnplugRB(c, t, k);
      i := |Before(c) + InOrder(t.left)|;
      RestIs(c, t, i);
      LookBelow(c, t);
    }

    /** Takes exactly `elm`, at index `i` of the order, out of the tree. */
    method Remove(elm: Node) returns (r: Node, ghost i: nat)
      requires Valid() && elm in Elements()
      modifies this, repr
      ensures Valid() && r == elm && repr == old(repr) - {elm}
      ensures i < |old(Elements())| && old(Elements())[i] == elm
      ensures Elements() == old(Elements())[..i] + old(Elements())[i + 1..]
    {
      ghost var c, t, h;
      c, t, h, i := RemovalPlace(elm);
      hide Rep, RB, RedBlack, Ascending, InOrder, Before, After, Plug, Around, OnlyChild, Rest, PathRB;
      r := elm;
      if elm.left == null || elm.right == null {
        OnlyChildRest(c, t);
        RemoveSingle(elm, c, t, h);
      } else {
        RemoveDouble(elm, c, t, h);
      }
    }

    /** `elm` has at most one child, which takes its place. */
    method RemoveSingle(elm: Node, ghost c: Path, ghost t: Tree, ghost h: int)
      requires Rep(c, t) && t.Branch? && t.node == elm && (t.left == Leaf || t.right == Leaf)
      requires RB(t, h) && PathRB(c, h) && (IsRed(t) ==> c.Step? && !TopRed(c))
      modifies this, repr
      ensures Rep(Top, model) && RedBlack(model) && repr == old(repr) - {elm}
      ensures InOrder(model) == Around(c, OnlyChild(t))
    {
      hide Rep;
      var child := if elm.left == null then elm.right else elm.left;
      var color := elm.red;
      var parent := elm.parent;
      LookBelow(c, t);
      Look(c, t);
      Splice(elm, child, c, t);
      AfterSplice(color, parent, child, c, OnlyChild(t), h);
    }

    /** The common end of removal: a lost black node is made up for. */
    method AfterSplice(wasRed: bool, parent: Node?, child: Node?, ghost c: Path, ghost t: Tree, ghost h: int)
      requires Rep(c, t) && parent == ParentOf(c) && child == RootOf(t)
      requires PathRB(c, h) && RB(t, if wasRed then h else h - 1)
      requires wasRed ==> !IsRed(t)
      modifies this`root, this`model, repr
      ensures Rep(Top, model) && RedBlack(model) && InOrder(model) == Around(c, t) && repr == old(repr)
    {
      hide Rep;
      if !wasRed {
        RemoveColor(parent, child, c, t, h - 1);
      } else {
        ghost var k := PlugRB(c, t, h);
        InOrderPlug(c, t);
        ZipAll(c, t);
        model := Plug(c, t);
      }
    }

    /** `o` has two children: its successor is spliced out and takes the place, links and colour of `o`. */
    method RemoveDouble(o: Node, ghost c: Path, ghost t: Tree, ghost h: int)
      requires Rep(c, t) && t.Branch? && t.node == o && t.left.Branch? && t.right.Branch?
      requires RB(t, h) && PathRB(c, h) && (IsRed(t) ==> c.Step? && !TopRed(c))
      modifies this, repr
      ensures Rep(Top, model) && RedBlack(model) && repr == old(repr) - {o}
      ensures InOrder(model) == Rest(c, t)
    {
      hide Rep, RB, PathRB, RedBlack, InOrder, Before, After, Around, Rest, Plug;
      ghost var e := Step(R, o, t.red, t.left, c);
      ghost var rel, u;
      var elm;
      elm, rel, u := Successor(o, c, t);
      ghost var hu := SuccessorRB(c, t, h, rel, u);
      SuccessorAround(c, t, rel, u);
      var child, parent, color := elm.right, elm.parent, elm.red;
      Splice(elm, child, Append(rel, e), u);
      if elm.parent == o {
        parent := elm;
      }
      ZipPart(rel, e, u.right);
      ZipUp(e, Plug(rel, u.right));
      MoveUp(o, elm, color, parent, child, c, t.(right := Plug(rel, u.right)), rel, u.right, hu);
    }

    method Successor(o: Node, ghost c: Path, ghost t: Tree) returns (elm: Node, ghost rel: Path, ghost u: Tree)
      requires Rep(c, t) && t.Branch? && t.node == o && t.left.Branch? && t.right.Branch?
      ensures Rep(Append(rel, Step(R, o, t.red, t.left, c)), u) && Plug(rel, u) == t.right
      ensures u.Branch? && u.left == Leaf && u.node == elm && Before(rel) == []
      ensures elm.left == null && elm.right == RootOf(u.right) && elm.red == u.red && elm != o && elm in repr
      ensures elm.parent == (if rel.Top? then o else rel.node) && (rel.Step? ==> rel.node != o)
    {
      OldNotBelow(c, t);
      hide Rep, Plug, Nodes;
      ghost var e := Step(R, o, t.red, t.left, c);
      LookBelow(c, t);
      ZipDown(R, c, t);
      elm, rel, u := Extreme(o.right, L, e, t.right);
      PlugHasNode(rel, u);
      Look(Append(rel, e), u);
      LookBelow(Append(rel, e), u);
    }

    /** The second half: the successor takes the place of `o`; then the colours are repaired. */
    method MoveUp(o: Node, elm: Node, wasRed: bool, parent: Node?, child: Node?,
                  ghost c: Path, ghost t: Tree, ghost rel: Path, ghost v: Tree, ghost h: int)
      requires Rep(c, t) && t.Branch? && t.node == o && t.left.Branch? && t.right == Plug(rel, v) && elm !in repr
      requires parent == (if rel.Top? then elm else rel.node) && child == RootOf(v)
      requires PathRB(Append(rel, Step(R, elm, t.red, t.left, c)), h)
      requires RB(v, if wasRed then h else h - 1) && (wasRed ==> !IsRed(v))
      modifies this, repr, elm
      ensures Rep(Top, model) && RedBlack(model) && repr == old(repr) - {o} + {elm}
      ensures InOrder(model) == Around(Append(rel, Step(R, elm, t.red, t.left, c)), v)
    {
      hide Rep, RB, PathRB, RedBlack, InOrder, Around, Plug;
      ghost var e := Step(R, elm, t.red, t.left, c);
      ReplaceRoot(o, elm, c, t);
      ZipDown(R, c, t.(node := elm));
      UnzipPart(rel, e, v);
      AfterSplice(wasRed, parent, child, Append(rel, e), v, h);
    }

    lemma LookBelow(c: Path, t: Tree)
      requires Rep(c, t) && t.Branch?
      ensures t.node.left == RootOf(t.left) && t.node.right == RootOf(t.right)
    {
    }

    lemma OldNotBelow(c: Path, t: Tree)
      requires Rep(c, t) && t.Branch?
      ensures t.node in repr && t.node !in Nodes(t.right) && Nodes(t.right) <= repr
    {
    }
  }
}
