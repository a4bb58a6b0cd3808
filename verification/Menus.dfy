/** The menu forest of auth.v. */
module Menus {

  datatype Menu = Menu(id: int, name: string, parentId: int, children: seq<Menu>)

  function Bare(m: Menu): Menu {
    m.(children := [])
  }

  // ----- ids and chains -----

  /** The ids are a key, and none of them is 0, the parent id of the roots. */
  ghost predicate ProperIds(menus: seq<Menu>) {
    && (forall i, j :: 0 <= i < j < |menus| ==> menus[i].id != menus[j].id)
    && (forall i :: 0 <= i < |menus| ==> menus[i].id != 0)
  }

  ghost predicate IsItem(menus: seq<Menu>, id: int, parentId: int) {
    exists i :: 0 <= i < |menus| && menus[i].id == id && menus[i].parentId == parentId
  }

  /** A chain of menus: it starts at a root and goes from parent to child. */
  ghost predicate Chain(menus: seq<Menu>, c: seq<int>) {
    && c != []
    && IsItem(menus, c[|c| - 1], Above(c))
    && (|c| > 1 ==> Chain(menus, c[..|c| - 1]))
  }

  ghost function Above(c: seq<int>): int {
    if |c| < 2 then 0 else c[|c| - 2]
  }

  ghost predicate ChainOf(menus: seq<Menu>, c: seq<int>, id: int) {
    Chain(menus, c) && c[|c| - 1] == id
  }

  /** The parent chain of the menu reaches 0. */
  ghost predicate Reaches(menus: seq<Menu>, id: int) {
    exists c :: ChainOf(menus, c, id)
  }

  lemma OneParent(menus: seq<Menu>, id: int, a: int, b: int)
    requires ProperIds(menus) && IsItem(menus, id, a) && IsItem(menus, id, b)
    ensures a == b && id != 0
  {
  }

  lemma ChainNext(menus: seq<Menu>, c: seq<int>, i: nat)
    requires Chain(menus, c) && i < |menus| && menus[i].parentId == c[|c| - 1]
    ensures Chain(menus, c + [menus[i].id])
  {
    hide IsItem;
    ItemAt(menus, i);
    assert (c + [menus[i].id])[..|c|] == c;
  }

  lemma ItemAt(menus: seq<Menu>, i: nat)
    requires i < |menus|
    ensures IsItem(menus, menus[i].id, menus[i].parentId)
  {
  }

  /** A menu has one chain only. */
  lemma {:induction false} ChainUnique(menus: seq<Menu>, c: seq<int>, d: seq<int>)
    requires ProperIds(menus) && Chain(menus, c) && Chain(menus, d) && c[|c| - 1] == d[|d| - 1]
    ensures c == d
    decreases |c|
  {
    hide IsItem, ProperIds;
    var (m, n) := (|c| - 1, |d| - 1);
    OneParent(menus, c[m], Above(c), Above(d));
    if m > 0 {
      OneParent(menus, c[m - 1], Above(c[..m]), Above(c[..m]));
    }
    if n > 0 {
      OneParent(menus, d[n - 1], Above(d[..n]), Above(d[..n]));
    }
    if m > 0 && n > 0 {
      ChainUnique(menus, c[..m], d[..n]);
      assert c == c[..m] + [c[m]] && d == d[..n] + [d[n]];
    }
  }

  lemma {:induction false} ChainPrefix(menus: seq<Menu>, c: seq<int>, n: nat)
    requires Chain(menus, c) && 0 < n <= |c|
    ensures Chain(menus, c[..n])
  {
    hide IsItem;
    if n < |c| {
      ChainPrefix(menus, c[..|c| - 1], n);
      assert c[..|c| - 1][..n] == c[..n];
    } else {
      assert c[..n] == c;
    }
  }

  /** No id comes twice in a chain, so a chain is no longer than the list of menus. */
  lemma ChainShort(menus: seq<Menu>, c: seq<int>)
    requires ProperIds(menus) && Chain(menus, c)
    ensures |c| <= |menus|
  {
    hide ProperIds, IsItem;
    var ids := seq(|menus|, i requires 0 <= i < |menus| => menus[i].id);
    forall i, j | 0 <= i < j < |c| ensures c[i] != c[j] {
      ChainPrefix(menus, c, i + 1);
      ChainPrefix(menus, c, j + 1);
      if c[i] == c[j] {
        ChainUnique(menus, c[..i + 1], c[..j + 1]);
      }
    }
    forall k | 0 <= k < |c| ensures c[k] in ids {
      ChainPrefix(menus, c, k + 1);
      IdOf(menus, c[k], Above(c[..k + 1]), ids);
    }
    Pigeonhole(c, ids);
  }

  lemma IdOf(menus: seq<Menu>, id: int, parentId: int, ids: seq<int>)
    requires IsItem(menus, id, parentId) && |ids| == |menus| && forall i :: 0 <= i < |ids| ==> ids[i] == menus[i].id
    ensures id in ids
  {
  }

  lemma {:induction false} Pigeonhole<T>(c: seq<T>, s: seq<T>)
    requires (forall i, j :: 0 <= i < j < |c| ==> c[i] != c[j]) && forall k :: 0 <= k < |c| ==> c[k] in s
    ensures |c| <= |s|
  {
    if c != [] {
      var n := |c| - 1;
      var i :| 0 <= i < |s| && s[i] == c[n];
      var t := s[..i] + s[i + 1..];
      forall k | 0 <= k < n ensures c[..n][k] in t {
        var j :| 0 <= j < |s| && s[j] == c[k];
        assert t[if j < i then j else j - 1] == c[k];
      }
      Pigeonhole(c[..n], t);
    }
  }

  // ----- the forest -----

  /** The children of the last menu of the chain, among the first `k` menus. */
  ghost function Kids(menus: seq<Menu>, c: seq<int>, k: nat): seq<Menu>
    requires ProperIds(menus) && Chain(menus, c) && k <= |menus|
    decreases |menus| - |c|, k
  {
    if k == 0 then []
    else
      var m := menus[k - 1];
      if m.parentId != c[|c| - 1] then Kids(menus, c, k - 1)
      else
        ChainNext(menus, c, k - 1);
        ChainShort(menus, c + [m.id]);
        Kids(menus, c, k - 1) + [m.(children := Kids(menus, c + [m.id], |menus|))]
  }

  ghost function Forest(menus: seq<Menu>, k: nat): seq<Menu>
    requires ProperIds(menus) && k <= |menus|
  {
    if k == 0 then []
    else
      var m := menus[k - 1];
      if m.parentId != 0 then Forest(menus, k - 1)
      else
        RootChain(menus, k - 1);
        Forest(menus, k - 1) + [m.(children := Kids(menus, [m.id], |menus|))]
  }

  lemma RootChain(menus: seq<Menu>, i: nat)
    requires i < |menus| && menus[i].parentId == 0
    ensures Chain(menus, [menus[i].id])
  {
    ItemAt(menus, i);
  }

  /** The recursion of get_children. The map of menus is walked in the order of insertion; `c` is the chain
      that led to `parentId`, and bounds the recursion. */
  method GetChildren(parentId: int, menuMap: seq<Menu>, ghost c: seq<int>) returns (children: seq<Menu>)
    requires ProperIds(menuMap) && Chain(menuMap, c) && c[|c| - 1] == parentId
    ensures children == Kids(menuMap, c, |menuMap|)
    decreases |menuMap| - |c|
  {
    hide ProperIds, Chain;
    children := [];
    for i := 0 to |menuMap|
      invariant children == Kids(menuMap, c, i)
    {
      var menu := menuMap[i];
      if menu.parentId == parentId {
        ChainNext(menuMap, c, i);
        ChainShort(menuMap, c + [menu.id]);
        var grandChildren := GetChildren(menu.id, menuMap, c + [menu.id]);
        var child := menu.(children := grandChildren);
        children := children + [child];
      }
    }
  }

  /** V's map keeps the order of insertion; an assignment to a key it has replaces the value in place. */
  function SetById(menuMap: seq<Menu>, m: Menu): seq<Menu> {
    if menuMap == [] then [m]
    else if menuMap[0].id == m.id then [m] + menuMap[1..]
    else [menuMap[0]] + SetById(menuMap[1..], m)
  }

  lemma {:induction false} SetNew(menuMap: seq<Menu>, m: Menu)
    requires forall i :: 0 <= i < |menuMap| ==> menuMap[i].id != m.id
    ensures SetById(menuMap, m) == menuMap + [m]
  {
    if menuMap != [] {
      SetNew(menuMap[1..], m);
    }
  }

  method BuildMenuTree(menus: seq<Menu>) returns (rootMenus: seq<Menu>)
    requires ProperIds(menus)
    ensures rootMenus == Forest(menus, |menus|)
  {
    hide Kids;
    var menuMap: seq<Menu> := [];
    for i := 0 to |menus|
      invariant menuMap == menus[..i]
    {
      SetNew(menuMap, menus[i]);
      menuMap := SetById(menuMap, menus[i]);
    }
    assert menuMap == menus;
    rootMenus := [];
    for i := 0 to |menus|
      invariant rootMenus == Forest(menus, i)
    {
      var menu := menus[i];
      if menu.parentId == 0 {
        RootChain(menus, i);
        var children := GetChildren(menu.id, menuMap, [menu.id]);
        var rootMenu := menu.(children := children);
        rootMenus := rootMenus + [rootMenu];
      }
    }
  }

  // ----- what the forest holds -----

  /** Every node hangs under its parent. */
  ghost predicate Placed(f: seq<Menu>, above: int) {
    forall i :: 0 <= i < |f| ==> f[i].parentId == above && Placed(f[i].children, f[i].id)
  }

  /** How many nodes of the forest are the menu `m`. */
  ghost function Times(f: seq<Menu>, m: Menu): nat {
    if f == [] then 0
    else
      var t := f[|f| - 1];
      Times(f[..|f| - 1], m) + (if Bare(t) == m then 1 else 0) + Times(t.children, m)
  }

  lemma TimesNext(f: seq<Menu>, t: Menu, m: Menu)
    ensures Times(f + [t], m) == Times(f, m) + (if Bare(t) == m then 1 else 0) + Times(t.children, m)
  {
    assert (f + [t])[..|f|] == f;
  }

  lemma ChainEnds(menus: seq<Menu>, c: seq<int>)
    requires Chain(menus, c)
    ensures c != []
  {
  }

  lemma {:induction false} KidsPlaced(menus: seq<Menu>, c: seq<int>, k: nat)
    requires ProperIds(menus) && Chain(menus, c) && k <= |menus|
    ensures c != [] && Placed(Kids(menus, c, k), c[|c| - 1])
    decreases |menus| - |c|, k
  {
    hide ProperIds, Chain;
    ChainEnds(menus, c);
    if k > 0 {
      KidsPlaced(menus, c, k - 1);
      var m := menus[k - 1];
      if m.parentId == c[|c| - 1] {
        ChainNext(menus, c, k - 1);
        ChainShort(menus, c + [m.id]);
        KidsPlaced(menus, c + [m.id], |menus|);
        assert (c + [m.id])[|c|] == m.id;
      }
    }
  }

  /** `d` goes on from `c` with one of the first `k` menus. */
  ghost predicate Continues(menus: seq<Menu>, c: seq<int>, k: nat, d: seq<int>)
    requires k <= |menus|
  {
    |c| < |d| && c == d[..|c|] && exists i :: 0 <= i < k && menus[i].id == d[|c|]
  }

  /** The menu whose chain is `d` comes once below the chain `c` when `d` goes on from `c`, and not at all
      otherwise. */
  lemma {:induction false} KidsTimes(menus: seq<Menu>, c: seq<int>, k: nat, x: nat, d: seq<int>)
    requires ProperIds(menus) && Chain(menus, c) && k <= |menus|
    requires x < |menus| && Chain(menus, d) && d[|d| - 1] == menus[x].id
    ensures Times(Kids(menus, c, k), Bare(menus[x])) == if Continues(menus, c, k, d) then 1 else 0
    decreases |menus| - |c|, k
  {
    hide Chain, Times, ProperIds, Continues;
    ChainEnds(menus, c);
    if k == 0 {
      NoTimes(Bare(menus[x]));
      ContinuesNone(menus, c, d);
    } else {
      var m := menus[k - 1];
      KidsTimes(menus, c, k - 1, x, d);
      if m.parentId == c[|c| - 1] {
        var e := c + [m.id];
        ChainNext(menus, c, k - 1);
        ChainShort(menus, e);
        KidsTimes(menus, e, |menus|, x, d);
        TimesNext(Kids(menus, c, k - 1), m.(children := Kids(menus, e, |menus|)), Bare(menus[x]));
        ContinuesNext(menus, c, k, x, d);
      } else {
        ContinuesNot(menus, c, k, d);
      }
    }
  }

  lemma NoTimes(m: Menu)
    ensures Times([], m) == 0
  {
  }

  lemma ContinuesNone(menus: seq<Menu>, c: seq<int>, d: seq<int>)
    ensures !Continues(menus, c, 0, d)
  {
  }

  /** One more child: either it is the menu, or the chain goes through it, or neither. */
  lemma ContinuesNext(menus: seq<Menu>, c: seq<int>, k: nat, x: nat, d: seq<int>)
    requires ProperIds(menus) && Chain(menus, c) && 0 < k <= |menus| && menus[k - 1].parentId == c[|c| - 1]
    requires x < |menus| && Chain(menus, d) && d[|d| - 1] == menus[x].id
    ensures var e := c + [menus[k - 1].id];
            (if Continues(menus, c, k, d) then 1 else 0) ==
            (if Continues(menus, c, k - 1, d) then 1 else 0)
            + (if Bare(menus[k - 1]) == Bare(menus[x]) then 1 else 0)
            + (if Continues(menus, e, |menus|, d) then 1 else 0)
  {
    hide Chain, IsItem, Continues;
    var m := menus[k - 1];
    var e := c + [m.id];
    ChainNext(menus, c, k - 1);
    ChainEnds(menus, d);
    if Bare(m) == Bare(menus[x]) {
      ChainUnique(menus, e, d);
      ContinuesHere(menus, c, k);
    } else if |c| < |d| && c == d[..|c|] && d[|c|] == m.id {
      hide ProperIds;
      assert e == d[..|e|];
      LongerChain(menus, d, e, k - 1, x);
      GoesOn(menus, d, |e|);
      ContinuesThrough(menus, c, k, d);
    } else {
      ContinuesElsewhere(menus, c, k, d);
    }
  }

  /** The chain does not go to the child at all. */
  lemma ContinuesElsewhere(menus: seq<Menu>, c: seq<int>, k: nat, d: seq<int>)
    requires 0 < k <= |menus| && !(|c| < |d| && c == d[..|c|] && d[|c|] == menus[k - 1].id)
    ensures Continues(menus, c, k, d) <==> Continues(menus, c, k - 1, d)
    ensures !Continues(menus, c + [menus[k - 1].id], |menus|, d)
  {
    var m := menus[k - 1];
    if Continues(menus, c + [m.id], |menus|, d) {
      ContinuesGoes(menus, c, m.id, d);
    }
  }

  lemma ContinuesGoes(menus: seq<Menu>, c: seq<int>, x: int, d: seq<int>)
    requires Continues(menus, c + [x], |menus|, d)
    ensures |c| < |d| && c == d[..|c|] && d[|c|] == x
  {
    var e := c + [x];
    assert d[..|c|] == e[..|c|] == c && d[|c|] == e[|c|];
  }

  /** The chain ends with the child itself. */
  lemma ContinuesHere(menus: seq<Menu>, c: seq<int>, k: nat)
    requires ProperIds(menus) && 0 < k <= |menus|
    ensures var e := c + [menus[k - 1].id];
            Continues(menus, c, k, e) && !Continues(menus, c, k - 1, e) && !Continues(menus, e, |menus|, e)
  {
    var e := c + [menus[k - 1].id];
    assert e[..|c|] == c;
  }

  /** The chain goes through the child. */
  lemma ContinuesThrough(menus: seq<Menu>, c: seq<int>, k: nat, d: seq<int>)
    requires ProperIds(menus) && 0 < k <= |menus| && |c| + 1 < |d| && c + [menus[k - 1].id] == d[..|c| + 1]
    requires exists i :: 0 <= i < |menus| && menus[i].id == d[|c| + 1]
    ensures Continues(menus, c, k, d) && !Continues(menus, c, k - 1, d) && Continues(menus, c + [menus[k - 1].id], |menus|, d)
  {
    var e := c + [menus[k - 1].id];
    assert d[..|c|] == e[..|c|] == c && d[|c|] == e[|c|];
  }

  /** A chain that runs through one menu and ends at another goes on after the first. */
  lemma LongerChain(menus: seq<Menu>, d: seq<int>, e: seq<int>, i: nat, x: nat)
    requires ProperIds(menus) && i < |menus| && x < |menus| && Bare(menus[i]) != Bare(menus[x])
    requires e != [] && |e| <= |d| && e == d[..|e|] && e[|e| - 1] == menus[i].id && d[|d| - 1] == menus[x].id
    ensures |e| < |d|
  {
  }

  /** The next id of a chain is the id of a menu. */
  lemma GoesOn(menus: seq<Menu>, d: seq<int>, n: nat)
    requires Chain(menus, d) && n < |d|
    ensures exists i :: 0 <= i < |menus| && menus[i].id == d[n]
  {
    ChainPrefix(menus, d, n + 1);
  }

  lemma ContinuesNot(menus: seq<Menu>, c: seq<int>, k: nat, d: seq<int>)
    requires ProperIds(menus) && Chain(menus, c) && 0 < k <= |menus| && menus[k - 1].parentId != c[|c| - 1] && Chain(menus, d)
    ensures Continues(menus, c, k, d) <==> Continues(menus, c, k - 1, d)
  {
    if |c| < |d| && c == d[..|c|] && d[|c|] == menus[k - 1].id {
      ChainPrefix(menus, d, |c| + 1);
      var e := d[..|c| + 1];
      assert Above(e) == c[|c| - 1];
      ItemAt(menus, k - 1);
      OneParent(menus, d[|c|], Above(e), menus[k - 1].parentId);
    }
  }

  // ----- menus outside -----

  /** Every node of the forest is a menu of the list, and reaches 0. */
  ghost predicate Known(menus: seq<Menu>, m: Menu) {
    Reaches(menus, m.id) && exists i :: 0 <= i < |menus| && Bare(menus[i]) == m
  }

  lemma {:induction false} KidsKnown(menus: seq<Menu>, c: seq<int>, k: nat, m: Menu)
    requires ProperIds(menus) && Chain(menus, c) && k <= |menus| && !Known(menus, m)
    ensures Times(Kids(menus, c, k), m) == 0
    decreases |menus| - |c|, k
  {
    hide Chain, Times, ProperIds, Known;
    ChainEnds(menus, c);
    if k == 0 {
      NoTimes(m);
    } else {
      var t := menus[k - 1];
      KidsKnown(menus, c, k - 1, m);
      if t.parentId == c[|c| - 1] {
        var e := c + [t.id];
        ChainNext(menus, c, k - 1);
        ChainShort(menus, e);
        KidsKnown(menus, e, |menus|, m);
        TimesNext(Kids(menus, c, k - 1), t.(children := Kids(menus, e, |menus|)), m);
        ChainKnown(menus, e, k - 1);
      }
    }
  }

  lemma ChainKnown(menus: seq<Menu>, e: seq<int>, i: nat)
    requires i < |menus| && Chain(menus, e) && e[|e| - 1] == menus[i].id
    ensures Known(menus, Bare(menus[i]))
  {
    assert ChainOf(menus, e, menus[i].id);
  }

  // ----- the whole forest -----

  lemma {:induction false} ForestPlaced(menus: seq<Menu>, k: nat)
    requires ProperIds(menus) && k <= |menus|
    ensures Placed(Forest(menus, k), 0)
  {
    hide ProperIds;
    if k > 0 {
      ForestPlaced(menus, k - 1);
      if menus[k - 1].parentId == 0 {
        RootChain(menus, k - 1);
        KidsPlaced(menus, [menus[k - 1].id], |menus|);
      }
    }
  }

  lemma {:induction false} ForestTimes(menus: seq<Menu>, k: nat, x: nat, d: seq<int>)
    requires ProperIds(menus) && k <= |menus| && x < |menus| && Chain(menus, d) && d[|d| - 1] == menus[x].id
    ensures Times(Forest(menus, k), Bare(menus[x])) == if exists i :: 0 <= i < k && menus[i].id == d[0] then 1 else 0
  {
    hide Times, Chain;
    if k == 0 {
      NoTimes(Bare(menus[x]));
    } else {
      var m := menus[k - 1];
      ForestTimes(menus, k - 1, x, d);
      ChainEnds(menus, d);
      ChainPrefix(menus, d, 1);
      FirstIsRoot(menus, d[..1]);
      if m.parentId == 0 {
        RootChain(menus, k - 1);
        KidsTimes(menus, [m.id], |menus|, x, d);
        TimesNext(Forest(menus, k - 1), m.(children := Kids(menus, [m.id], |menus|)), Bare(menus[x]));
        RootTimes(menus, k - 1, x, d);
      }
    }
  }

  lemma FirstIsRoot(menus: seq<Menu>, c: seq<int>)
    requires ProperIds(menus) && Chain(menus, c) && |c| == 1
    ensures forall i :: 0 <= i < |menus| && menus[i].id == c[0] ==> menus[i].parentId == 0
  {
  }

  lemma RootTimes(menus: seq<Menu>, r: nat, x: nat, d: seq<int>)
    requires ProperIds(menus) && r < |menus| && menus[r].parentId == 0
    requires x < |menus| && Chain(menus, d) && d[|d| - 1] == menus[x].id
    ensures (if Bare(menus[r]) == Bare(menus[x]) then 1 else 0) + (if Continues(menus, [menus[r].id], |menus|, d) then 1 else 0)
            == if menus[r].id == d[0] then 1 else 0
  {
    hide Chain, IsItem;
    var e := [menus[r].id];
    RootChain(menus, r);
    ChainEnds(menus, d);
    if Bare(menus[r]) == Bare(menus[x]) {
      ChainUnique(menus, e, d);
    } else if menus[r].id == d[0] {
      GoesOn(menus, d, 1);
      assert e == d[..1];
    }
  }

  lemma {:induction false} ForestKnown(menus: seq<Menu>, k: nat, m: Menu)
    requires ProperIds(menus) && k <= |menus| && !Known(menus, m)
    ensures Times(Forest(menus, k), m) == 0
  {
    hide Times, ProperIds, Known, Chain;
    if k == 0 {
      NoTimes(m);
    } else {
      var t := menus[k - 1];
      ForestKnown(menus, k - 1, m);
      if t.parentId == 0 {
        RootChain(menus, k - 1);
        KidsKnown(menus, [t.id], |menus|, m);
        TimesNext(Forest(menus, k - 1), t.(children := Kids(menus, [t.id], |menus|)), m);
        ChainKnown(menus, [t.id], k - 1);
      }
    }
  }

  /** The forest holds every menu whose parent chain reaches 0 exactly once, directly under its parent, and
      nothing else. */
  lemma ForestExact(menus: seq<Menu>, m: Menu)
    requires ProperIds(menus)
    ensures Placed(Forest(menus, |menus|), 0)
    ensures Times(Forest(menus, |menus|), m) ==
            if Reaches(menus, m.id) && exists i :: 0 <= i < |menus| && Bare(menus[i]) == m then 1 else 0
  {
    hide Chain, Times, Forest, Placed, ProperIds;
    ForestPlaced(menus, |menus|);
    if Known(menus, m) {
      hide IsItem;
      var d :| ChainOf(menus, d, m.id);
      var x :| 0 <= x < |menus| && Bare(menus[x]) == m;
      ForestTimes(menus, |menus|, x, d);
      ChainEnds(menus, d);
      GoesOn(menus, d, 0);
    } else {
      ForestKnown(menus, |menus|, m);
    }
  }

  // ----- the order of siblings -----

  ghost predicate Before(menus: seq<Menu>, id: int, other: int) {
    exists i, j :: 0 <= i < j < |menus| && menus[i].id == id && menus[j].id == other
  }

  /** Siblings come in the order of the list, at every depth. */
  ghost predicate InListOrder(menus: seq<Menu>, f: seq<Menu>) {
    && (forall i, j :: 0 <= i < j < |f| ==> Before(menus, f[i].id, f[j].id))
    && forall i :: 0 <= i < |f| ==> InListOrder(menus, f[i].children)
  }

  /** The roots of `f` are among the first `k` menus. */
  ghost predicate Among(menus: seq<Menu>, f: seq<Menu>, k: nat)
    requires k <= |menus|
  {
    forall i :: 0 <= i < |f| ==> IsAmong(menus, f[i].id, k)
  }

  ghost predicate IsAmong(menus: seq<Menu>, id: int, k: nat)
    requires k <= |menus|
  {
    exists h :: 0 <= h < k && menus[h].id == id
  }

  lemma OrderNext(menus: seq<Menu>, f: seq<Menu>, k: nat, t: Menu)
    requires k < |menus| && InListOrder(menus, f) && Among(menus, f, k)
    requires t.id == menus[k].id && InListOrder(menus, t.children)
    ensures InListOrder(menus, f + [t]) && Among(menus, f + [t], k + 1)
  {
    var g := f + [t];
    forall i | 0 <= i < |f| ensures Before(menus, f[i].id, t.id) {
      assert IsAmong(menus, f[i].id, k);
      var h :| 0 <= h < k && menus[h].id == f[i].id;
    }
    forall i | 0 <= i < |g| ensures InListOrder(menus, g[i].children) && IsAmong(menus, g[i].id, k + 1) {
      if i < |f| {
        assert IsAmong(menus, f[i].id, k);
        var h :| 0 <= h < k && menus[h].id == f[i].id;
      }
    }
  }

  lemma AmongMore(menus: seq<Menu>, f: seq<Menu>, k: nat)
    requires k < |menus| && Among(menus, f, k)
    ensures Among(menus, f, k + 1)
  {
    forall i | 0 <= i < |f| ensures IsAmong(menus, f[i].id, k + 1) {
      var h :| 0 <= h < k && menus[h].id == f[i].id;
    }
  }

  lemma NoneInOrder(menus: seq<Menu>)
    ensures InListOrder(menus, []) && Among(menus, [], 0)
  {
  }

  lemma {:induction false} KidsInOrder(menus: seq<Menu>, c: seq<int>, k: nat)
    requires ProperIds(menus) && Chain(menus, c) && k <= |menus|
    ensures InListOrder(menus, Kids(menus, c, k)) && Among(menus, Kids(menus, c, k), k)
    decreases |menus| - |c|, k
  {
    hide ProperIds, Chain, InListOrder, Among;
    ChainEnds(menus, c);
    if k == 0 {
      NoneInOrder(menus);
    } else {
      var m := menus[k - 1];
      KidsInOrder(menus, c, k - 1);
      if m.parentId == c[|c| - 1] {
        var e := c + [m.id];
        ChainNext(menus, c, k - 1);
        ChainShort(menus, e);
        KidsInOrder(menus, e, |menus|);
        OrderNext(menus, Kids(menus, c, k - 1), k - 1, m.(children := Kids(menus, e, |menus|)));
      } else {
        AmongMore(menus, Kids(menus, c, k - 1), k - 1);
      }
    }
  }

  /** In the whole forest siblings come in the order of the list. */
  lemma {:induction false} ForestInOrder(menus: seq<Menu>, k: nat)
    requires ProperIds(menus) && k <= |menus|
    ensures InListOrder(menus, Forest(menus, k)) && Among(menus, Forest(menus, k), k)
  {
    hide ProperIds, InListOrder, Among;
    if k == 0 {
      NoneInOrder(menus);
    } else {
      var m := menus[k - 1];
      ForestInOrder(menus, k - 1);
      if m.parentId == 0 {
        RootChain(menus, k - 1);
        KidsInOrder(menus, [m.id], |menus|);
        OrderNext(menus, Forest(menus, k - 1), k - 1, m.(children := Kids(menus, [m.id], |menus|)));
      } else {
        AmongMore(menus, Forest(menus, k - 1), k - 1);
      }
    }
  }
}
