/** What one round of each rebalancing loop of usockets/include/uv/tree.h does to the tree seen
    from the loop's node, and why it restores the red-black conditions. */
module RbFixup {
  import opened RbModel

  // ----- insertion, tree.h:160-202 -----

  /** One round of RB_INSERT_COLOR at the red node `t` below a red parent. */
  ghost function InsertRound(c: Path, t: Tree): (Path, Tree)
    requires c.Step? && c.up.Step? && t.Branch?
  {
    var p, s, g, u, up, d := c.node, c.sib, c.up.node, c.up.sib, c.up.up, c.up.dir;
    if IsRed(u) then
      (up, Mk(d, g, true, Mk(c.dir, p, false, t, s), Blacken(u)))
    else if c.dir == d then
      (Step(d, p, false, Mk(d, g, true, s, u), up), t)
    else
      (Step(d, t.node, false, Mk(d, g, true, Near(Opp(d), t), u), up), Mk(d, p, true, s, Near(d, t)))
  }

  lemma InsertRoundOk(c: Path, t: Tree, h: int) returns (k: int)
    requires RB(t, h) && PathRB(c, h) && IsRed(t) && TopRed(c)
    ensures var (c', t') := InsertRound(c, t);
            RB(t', k) && PathRB(c', k) && IsRed(t') && Depth(c') < Depth(c)
  {
    k := if IsRed(c.up.sib) then h + 1 else h;
    assert RB(c.up.sib, h) && !c.up.red && PathRB(c.up, h) && PathRB(c.up.up, h + 1);
  }

  lemma InsertRoundSame(c: Path, t: Tree)
    requires c.Step? && c.up.Step? && t.Branch?
    ensures var (c', t') := InsertRound(c, t); Around(c', t') == Around(c, t)
  {
    var (c', t') := InsertRound(c, t);
    var p, g := Mk(c.dir, c.node, c.red, t, c.sib), c.up;
    AroundUp(c, t);
    AroundUp(g, p);
    if IsRed(g.sib) {
      assert InOrder(Blacken(g.sib)) == InOrder(g.sib) && InOrder(p.(red := false)) == InOrder(p);
    } else {
      var q := if c.dir == g.dir then p else Rotated(g.dir, p);
      if c.dir != g.dir {
        RotatedSame(g.dir, p);
      }
      assert InOrder(q.(red := false)) == InOrder(p);
      RotatedSame(Opp(g.dir), Mk(g.dir, g.node, true, q.(red := false), g.sib));
      AroundUp(c', t');
    }
  }

  /** The loop ends with the root painted black. */
  lemma InsertDone(c: Path, t: Tree, h: int) returns (k: int)
    requires RB(t, h) && PathRB(c, h) && !TopRed(c)
    ensures RB(Blacken(Plug(c, t)), k)
  {
    if c.Top? {
      k := if IsRed(t) then h + 1 else h;
    } else {
      k := PlugRB(c, t, h);
    }
  }

  // ----- removal, tree.h:204-281 -----

  /** The subtree at the position is one black node short: `RB(t, h)` where `h + 1` is wanted.  A red
      root only has to be painted black. */
  ghost predicate Short(c: Path, t: Tree, h: int) {
    && PathRB(c, h + 1)
    && (if IsRed(t) then RB(Blacken(t), h + 1) else RB(t, h))
  }

  /** A red sibling is rotated above the parent; the position gets a black sibling. */
  ghost function RedSibling(c: Path): Path
    requires c.Step? && c.sib.Branch?
  {
    var d, s := c.dir, c.sib;
    Step(d, c.node, true, Near(d, s), Step(d, s.node, false, Near(Opp(d), s), c.up))
  }

  ghost predicate BlackChildren(s: Tree)
    requires s.Branch?
  {
    !IsRed(s.left) && !IsRed(s.right)
  }

  /** The sibling gives up its black; the shortage moves to the parent. */
  ghost function ShiftUp(c: Path, t: Tree): Tree
    requires c.Step? && c.sib.Branch?
  {
    Mk(c.dir, c.node, c.red, t, c.sib.(red := true))
  }

  /** A red near nephew is rotated above the sibling, so that the far nephew is red. */
  ghost function FarRed(d: Dir, s: Tree): (u: Tree)
    requires s.Branch? && !BlackChildren(s)
    ensures u.Branch?
  {
    if IsRed(Near(Opp(d), s)) then s
    else Rotated(Opp(d), Mk(d, s.node, true, Blacken(Near(d, s)), Near(Opp(d), s)))
  }

  /** The parent is rotated below the sibling, which takes its colour. */
  ghost function Repaired(c: Path, t: Tree, s: Tree): Tree
    requires c.Step? && s.Branch?
  {
    Mk(c.dir, s.node, c.red, Mk(c.dir, c.node, false, t, Near(c.dir, s)), Blacken(Near(Opp(c.dir), s)))
  }

  lemma SiblingExists(c: Path, t: Tree, h: int)
    requires Short(c, t, h) && !IsRed(t) && c.Step?
    ensures c.sib.Branch? && (IsRed(c.sib) ==> c.sib.left.Branch? && c.sib.right.Branch?)
  {
    RBHeightUnique(t, h, h);
    assert IsRed(c.sib) ==> RB(c.sib.left, h + 1) && RB(c.sib.right, h + 1);
  }

  lemma RedSiblingOk(c: Path, t: Tree, h: int)
    requires Short(c, t, h) && !IsRed(t) && c.Step? && IsRed(c.sib)
    ensures Short(RedSibling(c), t, h) && !IsRed(RedSibling(c).sib) && RedSibling(c).sib.Branch?
  {
    SiblingExists(c, t, h);
    assert RB(c.sib, h + 1) && RB(c.sib.left, h + 1) && RB(c.sib.right, h + 1);
  }

  lemma RedSiblingSame(c: Path, t: Tree)
    requires c.Step? && c.sib.Branch?
    ensures Around(RedSibling(c), t) == Around(c, t)
  {
    var e := RedSibling(c);
    AroundUp(c, t);
    AroundUp(e, t);
    AroundUp(e.up, Mk(e.dir, e.node, e.red, t, e.sib));
    RotatedSame(c.dir, Mk(c.dir, c.node, c.red, t, c.sib));
  }

  lemma ShiftUpOk(c: Path, t: Tree, h: int) returns (k: int)
    requires Short(c, t, h) && !IsRed(t) && c.Step? && !IsRed(c.sib) && c.sib.Branch? && BlackChildren(c.sib)
    ensures Short(c.up, ShiftUp(c, t), k) && IsRed(ShiftUp(c, t)) == c.red
    ensures Around(c.up, ShiftUp(c, t)) == Around(c, t)
  {
    k := if c.red then h else h + 1;
    AroundUp(c, t);
    assert InOrder(c.sib.(red := true)) == InOrder(c.sib);
  }

  lemma FarRedOk(d: Dir, s: Tree, h: int)
    requires RB(s, h) && s.Branch? && !s.red && !BlackChildren(s)
    ensures var u := FarRed(d, s);
            u.Branch? && IsRed(Near(Opp(d), u)) && InOrder(u) == InOrder(s)
            && RB(Near(d, u), h - 1) && RB(Blacken(Near(Opp(d), u)), h)
  {
    var n, f := Near(d, s), Near(Opp(d), s);
    if !IsRed(f) {
      var q := Mk(d, s.node, true, Blacken(n), f);
      assert RB(n, h - 1) && InOrder(Blacken(n)) == InOrder(n) && InOrder(q) == InOrder(s);
      RotatedSame(Opp(d), q);
    }
  }

  lemma RepairedOk(c: Path, t: Tree, h: int, s: Tree) returns (k: int)
    requires Short(c, t, h) && !IsRed(t) && c.Step?
    requires s.Branch? && RB(Near(c.dir, s), h) && RB(Blacken(Near(Opp(c.dir), s)), h + 1)
    ensures RB(Repaired(c, t, s), k) && PathRB(c.up, k) && IsRed(Repaired(c, t, s)) == c.red
    ensures c.red ==> c.up.Step? && !TopRed(c.up)
  {
    k := if c.red then h + 1 else h + 2;
  }

  lemma RepairedSame(c: Path, t: Tree, s: Tree)
    requires c.Step? && s.Branch? && InOrder(s) == InOrder(c.sib)
    ensures Around(c.up, Repaired(c, t, s)) == Around(c, t)
  {
    var q := Mk(c.dir, c.node, false, t, s);
    AroundUp(c, t);
    RotatedSame(c.dir, q);
    assert InOrder(Blacken(Near(Opp(c.dir), s))) == InOrder(Near(Opp(c.dir), s));
  }

  /** The loop's last round: the whole tree is red-black again. */
  lemma RepairDone(c: Path, t: Tree, h: int) returns (k: int)
    requires Short(c, t, h) && !IsRed(t) && c.Step? && c.sib.Branch? && !IsRed(c.sib) && !BlackChildren(c.sib)
    ensures var w := Plug(c.up, Repaired(c, t, FarRed(c.dir, c.sib)));
            RB(w, k) && !IsRed(w) && Around(Top, w) == Around(c, t)
  {
    var q := FarRed(c.dir, c.sib);
    FarRedOk(c.dir, c.sib, h + 1);
    k := RepairedOk(c, t, h, q);
    RepairedSame(c, t, q);
    k := PlugRB(c.up, Repaired(c, t, q), k);
    InOrderPlug(c.up, Repaired(c, t, q));
  }

  /** After the loop, the node it stopped at is painted black. */
  lemma ShortDone(c: Path, t: Tree, h: int) returns (k: int)
    requires Short(c, t, h) && (IsRed(t) || c.Top?)
    ensures RB(Plug(c, Blacken(t)), k) && !IsRed(Plug(c, Blacken(t)))
  {
    k := PlugRB(c, Blacken(t), if IsRed(t) then h + 1 else h);
  }

  lemma BlackenSame(c: Path, t: Tree)
    ensures InOrder(Plug(c, Blacken(t))) == Around(c, t)
  {
    InOrderPlug(c, Blacken(t));
    assert InOrder(Blacken(t)) == InOrder(t);
  }

  /** Black counts around the successor's old position, after the successor has moved up. */
  lemma SuccessorRB(c: Path, t: Tree, h: int, rel: Path, u: Tree) returns (k: int)
    requires t.Branch? && RB(t, h) && PathRB(c, h) && (IsRed(t) ==> c.Step? && !TopRed(c))
    requires Plug(rel, u) == t.right && u.Branch?
    ensures RB(u, k) && PathRB(Append(rel, Step(R, u.node, t.red, t.left, c)), k)
    ensures RB(u.right, if u.red then k else k - 1) && (u.red ==> !IsRed(u.right))
  {
    k := UnplugPart(rel, Step(R, u.node, t.red, t.left, c), u, if t.red then h else h - 1);
  }
}
