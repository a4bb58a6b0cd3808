/** ContextLRUCache of cache.v: a doubly linked list and a hash map over the same nodes. */
module LruCache {
  import opened Options
  import opened LruSpec

  class Node<V> {
    var key: string
    var value: V
    var prev: Node?<V>
    var next: Node?<V>
    var createdAt: int
    var lastAccess: int

    constructor (key: string, value: V, now: int)
      ensures this.key == key && this.value == value && lastAccess == now
    {
      this.key, this.value, prev, next, createdAt, lastAccess := key, value, null, null, now, now;
    }
  }

  class ContextLRUCache<V> {
    var capacity: int
    var size: int
    var cache: map<string, Node<V>>
    var head: Node?<V>
    var tail: Node?<V>
    var ttl: int
    var lastCleanup: int
    var cleanupInterval: int
    ghost var list: seq<Node<V>>
    ghost var nodes: set<Node<V>>

    /** The list pointers agree with `l`. */
    ghost predicate Linked(l: seq<Node<V>>)
      reads this`head, this`tail, l
    {
      && NoRepeat(l)
      && (forall i :: 0 <= i < |l| ==> LinkAt(l, i))
      && head == At(l, 0) && tail == At(l, |l| - 1)
    }

    ghost predicate Valid()
      reads this`head, this`tail, this`cache, this`size, this`list, this`nodes, list
    {
      Linked(list) && Maps(cache, list) && size == |list| && forall n :: n in list ==> n in nodes
    }

    /** The cache as LruSpec sees it. */
    ghost function Abs(): Cache<V>
      reads this, list
    {
      Cache(EntriesOf(list), capacity, ttl, lastCleanup, cleanupInterval)
    }

    constructor (capacity: int, ttl: int, now: int)
      ensures Valid() && Abs() == Cache([], capacity, ttl, now, 300)
      ensures nodes == {}
    {
      this.capacity, this.ttl, lastCleanup, cleanupInterval := capacity, ttl, now, 300;
      size, cache, head, tail, list, nodes := 0, map[], null, null, [], {};
    }

    lemma IndexOfKey(k: string) returns (i: nat)
      requires Valid() && k in cache
      ensures i < |list| && list[i] == cache[k] && Has(EntriesOf(list), k) && Index(EntriesOf(list), k) == i
    {
      i :| 0 <= i < |list| && list[i] == cache[k];
      EntriesDistinct();
      assert EntriesOf(list)[i].key == k;
    }

    lemma NoNodeTwice()
      requires Linked(list)
      ensures NoRepeat(list)
    {
    }

    lemma EntriesDistinct()
      requires Valid()
      ensures Distinct(EntriesOf(list)) && |cache| == |list|
      ensures forall k :: Has(EntriesOf(list), k) <==> k in cache
    {
      var e := EntriesOf(list);
      forall i, j | 0 <= i < j < |e| ensures e[i].key != e[j].key {
        assert list[i] in list && list[j] in list;
      }
      forall k | k in cache ensures Has(e, k) {
        var i :| 0 <= i < |list| && list[i] == cache[k];
        assert e[i].key == k;
      }
      KeyCount(e, cache.Keys);
    }

    method RemoveNode(node: Node<V>, ghost i: nat)
      requires Valid() && i < |list| && node == list[i]
      modifies this`cache, this`head, this`tail, this`size, this`list, node`key, nodes`prev, nodes`next
      ensures Valid() && EntriesOf(list) == Drop(old(EntriesOf(list)), i)
      ensures list == if old(node.key) == "" then old(list) else Skip(old(list), i)
      ensures cache.Keys <= old(cache).Keys
    {
      if node.key != "" {
        RemoveNamed(node, i);
      }
    }

    method RemoveNamed(node: Node<V>, ghost i: nat)
      requires Valid() && i < |list| && node == list[i]
      modifies this`cache, this`head, this`tail, this`size, this`list, node`key, nodes`prev, nodes`next
      ensures Valid() && EntriesOf(list) == Without(old(EntriesOf(list)), i) && list == Skip(old(list), i)
      ensures cache.Keys <= old(cache).Keys
    {
      hide Linked, LinkAt, NoRepeat, Skip, EntriesOf, Without, Maps;
      NoNodeTwice();
      SkipMembers(list, i);
      MapsWithout(cache, list, i);
      assert node in list && node in nodes;
      TakeOut(node, i);
      cache := cache - {node.key};
      node.key := "";
      size := size - 1;
    }

    method TakeOut(node: Node<V>, ghost i: nat)
      requires Linked(list) && i < |list| && node == list[i]
      modifies this`head, this`tail, this`list, list`prev, list`next
      ensures Linked(list) && list == Skip(old(list), i)
      ensures EntriesOf(list) == Without(old(EntriesOf(list)), i)
    {
      hide Linked, LinkAt, NoRepeat, EntriesOf, Skip;
      NoNodeTwice();
      ghost var m := Skip(list, i);
      ghost var e := EntriesOf(m);
      EntriesSkipped(list, i);
      Unlink(node, i);
      assert list == m && EntriesOf(m) == e;
    }

    /** The pointer part of remove_node. */
    method Unlink(node: Node<V>, ghost i: nat)
      requires Linked(list) && i < |list| && node == list[i]
      modifies this`head, this`tail, this`list, list`prev, list`next
      ensures Linked(list) && list == Skip(old(list), i)
    {
      hide Linked, NoRepeat, Skip;
      Bypass(node, i);
      ClearLinks(node);
    }

    /** The pointers past the node: it is in the list no more, though it still points into it. */
    method Bypass(node: Node<V>, ghost i: nat)
      requires Linked(list) && i < |list| && node == list[i]
      modifies this`head, this`tail, this`list, list`prev, list`next
      ensures Linked(list) && list == Skip(old(list), i) && node !in list
    {
      ghost var l := list;
      assert LinkAt(l, i);
      LinksSplit(l);
      SkipMembers(l, i);
      Apart(l, i);
      hide Linked, NoRepeat, Skip, Forward, Backward;
      BypassForward(node, i, l);
      BypassBackward(node, i, l);
      list := Skip(l, i);
      LinksJoin(list);
    }

    /** The next pointers agree with `l`. */
    ghost predicate Forward(l: seq<Node<V>>)
      reads this`head, l`next
    {
      head == At(l, 0) && forall i :: 0 <= i < |l| ==> NextIn(l, i)
    }

    ghost predicate Backward(l: seq<Node<V>>)
      reads this`tail, l`prev
    {
      tail == At(l, |l| - 1) && forall i :: 0 <= i < |l| ==> PrevIn(l, i)
    }

    lemma LinksSplit(l: seq<Node<V>>)
      requires Linked(l)
      ensures NoRepeat(l) && Forward(l) && Backward(l)
    {
      forall i | 0 <= i < |l| ensures NextIn(l, i) && PrevIn(l, i) {
        assert LinkAt(l, i);
      }
    }

    lemma LinksJoin(l: seq<Node<V>>)
      requires NoRepeat(l) && Forward(l) && Backward(l)
      ensures Linked(l)
    {
      forall i | 0 <= i < |l| ensures LinkAt(l, i) {
        assert NextIn(l, i) && PrevIn(l, i);
      }
    }

    /** The first half of taking a node out: the pointers that lead forward to it. */
    method BypassForward(node: Node<V>, ghost i: nat, ghost l: seq<Node<V>>)
      requires NoRepeat(l) && Forward(l) && Backward(l) && i < |l| && node == l[i]
      modifies this`head, l`next
      ensures Forward(Skip(l, i)) && Backward(l) && node.next == At(l, i + 1)
    {
      SkipMembers(l, i);
      assert NextIn(l, i) && PrevIn(l, i);
      if node.prev != null {
        node.prev.next := node.next;
      } else {
        head := node.next;
      }
      ghost var s := Skip(l, i);
      forall j | 0 <= j < |s| ensures NextIn(s, j) {
        assert old(NextIn(l, if j < i then j else j + 1));
      }
    }

    method BypassBackward(node: Node<V>, ghost i: nat, ghost l: seq<Node<V>>)
      requires i < |l| && NoRepeat(l) && Backward(l) && node == l[i] && node.next == At(l, i + 1)
      modifies this`tail, l`prev
      ensures Backward(Skip(l, i))
    {
      SkipMembers(l, i);
      assert PrevIn(l, i);
      if node.next != null {
        node.next.prev := node.prev;
      } else {
        tail := node.prev;
      }
      ghost var s := Skip(l, i);
      forall j | 0 <= j < |s| ensures PrevIn(s, j) {
        assert old(PrevIn(l, if j < i then j else j + 1));
      }
    }

    method ClearLinks(node: Node<V>)
      requires Linked(list) && node !in list
      modifies node`prev, node`next
      ensures Linked(list)
    {
      node.prev := null;
      node.next := null;
      forall j | 0 <= j < |list| ensures LinkAt(list, j) {
        assert old(LinkAt(list, j));
      }
    }

    method AddToFront(node: Node<V>)
      requires Linked(list) && node !in list
      modifies this`head, this`tail, this`list, node`prev, node`next, list`prev
      ensures list == [node] + old(list) && Linked(list)
    {
      ghost var l := list;
      node.next := head;
      node.prev := null;
      if head != null {
        head.prev := node;
      }
      head := node;
      if tail == null {
        tail := node;
      }
      list := [node] + list;
      forall i | 0 <= i < |list| ensures LinkAt(list, i) {
        if i > 0 {
          assert list[i] == l[i - 1];
          assert old(LinkAt(l, i - 1));
        }
      }
    }

    method MoveToFront(node: Node<V>, ghost i: nat)
      requires Linked(list) && i < |list| && node == list[i]
      modifies this`head, this`tail, this`list, list`prev, list`next
      ensures list == [node] + Skip(old(list), i) && Linked(list)
    {
      assert LinkAt(list, i);
      if node == head {
        assert LinkAt(list, 0) && i == 0;
        assert list == [node] + Skip(list, i);
        return;
      }
      hide Linked, LinkAt, NoRepeat, Skip;
      Bypass(node, i);
      AddToFront(node);
    }

    method IsExpired(node: Node<V>, now: int) returns (b: bool)
      ensures b <==> ttl > 0 && now - node.lastAccess > ttl
    {
      if ttl <= 0 {
        return false;
      }
      return now - node.lastAccess > ttl;
    }

    method RemoveTail()
      requires Valid()
      modifies this`cache, this`head, this`tail, this`size, this`list, nodes`key, nodes`prev, nodes`next
      ensures Valid()
      ensures EntriesOf(list) == if old(list) == [] then [] else Drop(old(EntriesOf(list)), |old(list)| - 1)
      ensures cache.Keys <= old(cache).Keys
    {
      if tail == null {
        return;
      }
      RemoveNode(tail, |list| - 1);
    }

    /** Keys whose node has expired, then their removal one by one; the order does not matter. */
    method CleanupExpiredEntries(now: int)
      requires Valid()
      modifies this`cache, this`head, this`tail, this`size, this`list, nodes`key, nodes`prev, nodes`next
      ensures Valid()
      ensures EntriesOf(list) == Kept(old(EntriesOf(list)), ttl, now)
    {
      hide Valid, Linked, Maps, Minus, Kept;
      ghost var s := EntriesOf(list);
      if ttl <= 0 {
        KeptIs(s, ttl, now, {});
        MinusAbsent(s, {});
        return;
      }
      var expired := CollectExpired(now);
      RemoveKeys(expired);
      KeptIs(s, ttl, now, NonEmpty(expired));
    }

    method CollectExpired(now: int) returns (expired: seq<string>)
      requires Valid() && ttl > 0
      ensures forall k :: k in expired ==> k in cache
      ensures forall i :: 0 <= i < |list| ==> (EntriesOf(list)[i].key in expired <==> Expired(EntriesOf(list)[i], ttl, now))
    {
      expired := [];
      var rest := cache.Keys;
      while rest != {}
        invariant rest <= cache.Keys
        invariant forall k :: k in expired ==> k in cache && k !in rest
        invariant forall k :: k in cache && k !in rest ==> (k in expired <==> now - cache[k].lastAccess > ttl)
        decreases |rest|
      {
        var key :| key in rest;
        var b := IsExpired(cache[key], now);
        if b {
          expired := expired + [key];
        }
        rest := rest - {key};
      }
      forall i | 0 <= i < |list| ensures EntriesOf(list)[i].key in expired <==> Expired(EntriesOf(list)[i], ttl, now) {
        assert list[i] in list;
      }
    }

    method RemoveKeys(keys: seq<string>)
      requires Valid()
      modifies this`cache, this`head, this`tail, this`size, this`list, nodes`key, nodes`prev, nodes`next
      ensures Valid()
      ensures EntriesOf(list) == Minus(old(EntriesOf(list)), NonEmpty(keys))
    {
      hide Valid, Minus, EntriesOf;
      ghost var s := EntriesOf(list);
      MinusAbsent(s, {});
      NoKeys(keys);
      for i := 0 to |keys|
        invariant Valid()
        invariant EntriesOf(list) == Minus(s, NonEmpty(keys[..i]))
      {
        NonEmptyNext(keys, i);
        MinusTwice(s, NonEmpty(keys[..i]), NonEmpty([keys[i]]));
        RemoveKey(keys[i]);
      }
      assert keys[..|keys|] == keys;
    }

    method RemoveKey(key: string)
      requires Valid()
      modifies this`cache, this`head, this`tail, this`size, this`list, nodes`key, nodes`prev, nodes`next
      ensures Valid()
      ensures EntriesOf(list) == Minus(old(EntriesOf(list)), NonEmpty([key]))
    {
      hide Valid, Minus;
      EntriesDistinct();
      MinusAbsent(EntriesOf(list), {});
      if key in cache {
        ghost var at := IndexOfKey(key);
        InNodes();
        MinusKey(EntriesOf(list), at);
        assert NonEmpty([key]) == if key == "" then {} else {key};
        RemoveNode(cache[key], at);
      } else {
        MinusAbsent(EntriesOf(list), NonEmpty([key]));
      }
    }

    method CleanupExpiredIfNeeded(now: int)
      requires Valid()
      modifies this`cache, this`head, this`tail, this`size, this`list, this`lastCleanup, nodes`key, nodes`prev, nodes`next
      ensures Valid() && Abs() == Tidy(old(Abs()), now)
    {
      hide Valid, Kept, EntriesOf;
      if now - lastCleanup > cleanupInterval {
        CleanupExpiredEntries(now);
        lastCleanup := now;
      }
    }

    method Get(key: string, now: int) returns (r: Option<V>)
      requires Valid()
      modifies this, nodes
      ensures Valid() && (Abs(), r) == LruSpec.Get(old(Abs()), key, now)
      ensures nodes == old(nodes)
    {
      hide Valid, Linked, Maps, NoRepeat, Tidy, Distinct, EntriesOf, Has, Index, Drop, Without, Touch;
      CleanupExpiredIfNeeded(now);
      EntriesDistinct();
      if key !in cache {
        return None;
      }
      var node := cache[key];
      ghost var i := IndexOfKey(key);
      InNodes();
      var b := IsExpired(node, now);
      assert node in list && node in nodes;
      if b {
        RemoveNode(node, i);
        return None;
      }
      Refresh(node, i, node.value, now);
      return Some(node.value);
    }

    /** The touched node gets its value and time, and moves to the front. */
    method Refresh(node: Node<V>, ghost i: nat, value: V, now: int)
      requires Valid() && i < |list| && node == list[i]
      modifies this`head, this`tail, this`list, nodes`prev, nodes`next, node`value, node`lastAccess
      ensures Valid()
      ensures EntriesOf(list) == Touch(old(EntriesOf(list)), i, value, now) && node.value == value
    {
      hide Linked, LinkAt, NoRepeat, Maps, EntriesOf, Skip;
      ghost var e := EntriesOf(list);
      NoNodeTwice();
      SkipMembers(list, i);
      MapsMoved(cache, list, i);
      Restamp(node, i, value, now);
      assert Without(e, i) == Without(EntriesOf(list), i);
      BringForward(node, i);
    }

    method BringForward(node: Node<V>, ghost i: nat)
      requires Linked(list) && i < |list| && node == list[i]
      modifies this`head, this`tail, this`list, list`prev, list`next
      ensures Linked(list) && list == [node] + Skip(old(list), i)
      ensures EntriesOf(list) == [old(EntriesOf(list))[i]] + Without(old(EntriesOf(list)), i)
    {
      hide Linked, LinkAt, NoRepeat, EntriesOf, Skip;
      NoNodeTwice();
      ghost var m := [node] + Skip(list, i);
      ghost var e := EntriesOf(m);
      EntriesMoved(list, i);
      MoveToFront(node, i);
      assert list == m && EntriesOf(m) == e;
    }

    method Restamp(node: Node<V>, ghost i: nat, value: V, now: int)
      requires Linked(list) && i < |list| && node == list[i]
      modifies node`value, node`lastAccess
      ensures Linked(list) && node.value == value
      ensures EntriesOf(list) == old(EntriesOf(list))[i := Entry(node.key, value, now)]
    {
      NoNodeTwice();
      node.value := value;
      node.lastAccess := now;
      forall j | 0 <= j < |list| ensures LinkAt(list, j) {
        assert old(LinkAt(list, j));
      }
    }

    lemma InNodes()
      requires Valid()
      ensures size == |list| && forall n :: n in list ==> n in nodes
    {
    }

    method Put(key: string, value: V, now: int)
      requires Valid()
      modifies this, nodes
      ensures Valid() && Abs() == LruSpec.Put(old(Abs()), key, value, now)
      ensures fresh(nodes - old(nodes))
    {
      hide Valid, Linked, Maps, NoRepeat, Tidy, Distinct, EntriesOf, Has, Index, Drop, Without, Touch;
      CleanupExpiredIfNeeded(now);
      EntriesDistinct();
      InNodes();
      if key in cache {
        ghost var i := IndexOfKey(key);
        assert list[i] in list && cache[key] in nodes;
        Refresh(cache[key], i, value, now);
        return;
      }
      InNodes();
      if size >= capacity {
        RemoveTail();
      }
      AddNew(key, value, now);
    }

    method AddNew(key: string, value: V, now: int)
      requires Valid() && key !in cache
      modifies this`cache, this`head, this`tail, this`size, this`list, this`nodes, nodes`prev
      ensures Valid() && EntriesOf(list) == [Entry(key, value, now)] + old(EntriesOf(list))
      ensures fresh(nodes - old(nodes))
    {
      hide Linked, LinkAt, NoRepeat, Maps, EntriesOf;
      var node := new Node(key, value, now);
      InNodes();
      MapsWith(cache, list, node);
      cache := cache[key := node];
      PushFront(node);
      nodes := nodes + {node};
      size := size + 1;
    }

    method PushFront(node: Node<V>)
      requires Linked(list) && node !in list
      modifies this`head, this`tail, this`list, node`prev, node`next, list`prev
      ensures list == [node] + old(list) && Linked(list)
      ensures EntriesOf(list) == [Entry(node.key, node.value, node.lastAccess)] + old(EntriesOf(list))
    {
      hide Linked, LinkAt, NoRepeat, EntriesOf;
      EntriesPushed(list, node);
      AddToFront(node);
    }

    method ForceCleanupExpired(now: int)
      requires Valid()
      modifies this, nodes
      ensures Valid() && Abs() == ForceCleanup(old(Abs()), now) && nodes == old(nodes)
    {
      hide Valid, Kept, EntriesOf;
      CleanupExpiredEntries(now);
    }

    method Clear(now: int)
      requires Valid()
      modifies this, nodes
      ensures Valid() && Abs() == LruSpec.Clear(old(Abs()), now) && nodes == old(nodes)
    {
      InNodes();
      NoNodeTwice();
      Nexts();
      hide Valid, Linked, LinkAt, EntriesOf;
      var current := head;
      ghost var i := 0;
      while current != null
        invariant i <= |list| && current == At(list, i) && list == old(list) && nodes == old(nodes)
        invariant forall n :: n in list ==> n in nodes
        invariant forall j :: i <= j < |list| ==> NextAt(list, j)
        invariant capacity == old(capacity) && ttl == old(ttl) && cleanupInterval == old(cleanupInterval)
        decreases |list| - i
      {
        assert i < |list| && NextAt(list, i);
        var next := current.next;
        assert forall j :: i < j < |list| ==> list[j] != list[i];
        current.prev := null;
        current.next := null;
        current.key := "";
        current := next;
        i := i + 1;
      }
      cache, head, tail, size, lastCleanup := map[], null, null, 0, now;
      list := [];
      EmptyValid();
    }

    method SetTtl(seconds: int)
      requires Valid()
      modifies this`ttl
      ensures Valid() && Abs() == old(Abs()).(ttl := seconds)
    {
      ttl := seconds;
    }

    method SetCleanupInterval(seconds: int)
      requires Valid()
      modifies this`cleanupInterval
      ensures Valid() && Abs() == old(Abs()).(interval := seconds)
    {
      cleanupInterval := seconds;
    }

    lemma EmptyValid()
      requires list == [] && head == null && tail == null && cache == map[] && size == 0
      ensures Valid() && EntriesOf(list) == []
    {
    }

    lemma Nexts()
      requires Linked(list)
      ensures head == At(list, 0) && forall i :: 0 <= i < |list| ==> NextAt(list, i)
    {
      forall i | 0 <= i < |list| ensures NextAt(list, i) {
        assert LinkAt(list, i);
      }
    }

    /** The cache's own check.  In every valid state it succeeds. */
    lemma Ends()
      requires Linked(list)
      ensures head == At(list, 0) && tail == At(list, |list| - 1)
    {
    }

    lemma Following(i: nat)
      requires Linked(list) && i < |list|
      ensures list[i].next == At(list, i + 1)
    {
      assert LinkAt(list, i);
    }

    /** Walks the whole list. */
    method IsHealthy() returns (b: bool)
      requires Valid()
      ensures b
    {
      EntriesDistinct();
      Ends();
      hide Linked, LinkAt, Maps, EntriesOf, Distinct, Has;
      if size == 0 {
        return head == null && tail == null && |cache| == 0;
      }
      if head == null || tail == null {
        return false;
      }
      if |cache| != size {
        return false;
      }
      var count := 0;
      var current := head;
      while current != null
        invariant count <= |list| && current == At(list, count)
        decreases |list| - count
      {
        Following(count);
        count := count + 1;
        if count > size {
          return false;
        }
        current := current.next;
      }
      return count == size;
    }
  }

  lemma Apart<T>(l: seq<T>, i: nat)
    requires NoRepeat(l) && i < |l|
    ensures NoRepeat(Skip(l, i)) && l[i] !in Skip(l, i)
  {
    hide Skip;
    SkipMembers(l, i);
    var s := Skip(l, i);
    forall j, k | 0 <= j < k < |s| ensures s[j] != s[k] {
    }
  }

  lemma SkipMembers<T>(l: seq<T>, i: nat)
    requires NoRepeat(l) && i < |l|
    ensures |Skip(l, i)| == |l| - 1 && forall j :: 0 <= j < |l| - 1 ==> Skip(l, i)[j] == l[if j < i then j else j + 1]
    ensures forall n :: n in Skip(l, i) <==> n in l && n != l[i]
  {
    var s := Skip(l, i);
    forall n | n in l && n != l[i] ensures n in s {
      var j :| 0 <= j < |l| && l[j] == n;
      assert s[if j < i then j else j - 1] == n;
    }
    forall n | n in s ensures n in l && n != l[i] {
      var j :| 0 <= j < |s| && s[j] == n;
      assert l[if j < i then j else j + 1] == n;
    }
  }

  ghost function EntriesOf<V>(l: seq<Node<V>>): (e: seq<Entry<V>>)
    reads l`key, l`value, l`lastAccess
    ensures |e| == |l| && forall i :: 0 <= i < |l| ==> e[i] == Entry(l[i].key, l[i].value, l[i].lastAccess)
  {
    if l == [] then []
    else
      var n := l[|l| - 1];
      EntriesOf(l[..|l| - 1]) + [Entry(n.key, n.value, n.lastAccess)]
  }

  lemma EntriesMoved<V>(l: seq<Node<V>>, i: nat)
    requires NoRepeat(l) && i < |l|
    ensures EntriesOf([l[i]] + Skip(l, i)) == [EntriesOf(l)[i]] + Without(EntriesOf(l), i)
  {
    hide EntriesOf, Skip, NoRepeat, Without;
    EntriesSkipped(l, i);
    EntriesPushed(Skip(l, i), l[i]);
  }

  lemma EntriesSkipped<V>(l: seq<Node<V>>, i: nat)
    requires NoRepeat(l) && i < |l|
    ensures EntriesOf(Skip(l, i)) == Without(EntriesOf(l), i)
  {
    hide EntriesOf, Skip, NoRepeat;
    SkipMembers(l, i);
    var (a, b) := (EntriesOf(Skip(l, i)), Without(EntriesOf(l), i));
    forall j | 0 <= j < |l| - 1 ensures a[j] == b[j] {
      assert Skip(l, i)[j] == l[if j < i then j else j + 1];
    }
  }

  lemma EntriesPushed<V>(l: seq<Node<V>>, n: Node<V>)
    ensures EntriesOf([n] + l) == [Entry(n.key, n.value, n.lastAccess)] + EntriesOf(l)
  {
    hide EntriesOf;
  }

  lemma {:induction false} KeyCount<V>(e: seq<Entry<V>>, keys: set<string>)
    requires Distinct(e) && forall k :: k in keys <==> Has(e, k)
    ensures |keys| == |e|
  {
    if e == [] {
      assert keys == {};
    } else {
      var f, k := e[..|e| - 1], e[|e| - 1].key;
      forall j | j in keys - {k} ensures Has(f, j) {
        var i :| 0 <= i < |e| && e[i].key == j;
        assert f[i].key == j;
      }
      forall j | Has(f, j) ensures j in keys - {k} {
        var i :| 0 <= i < |f| && f[i].key == j;
        assert e[i].key == j;
      }
      KeyCount(f, keys - {k});
    }
  }

  ghost function NonEmpty(keys: seq<string>): set<string> {
    set k | k in keys && k != ""
  }

  lemma NoKeys(keys: seq<string>)
    ensures NonEmpty(keys[..0]) == {}
  {
  }

  lemma NonEmptyNext(keys: seq<string>, i: nat)
    requires i < |keys|
    ensures NonEmpty(keys[..i + 1]) == NonEmpty(keys[..i]) + NonEmpty([keys[i]])
  {
    assert keys[..i + 1] == keys[..i] + [keys[i]];
  }

  /** The hash map has exactly the nodes of the list, each under its key. */
  ghost predicate Maps<V>(m: map<string, Node<V>>, l: seq<Node<V>>)
    reads l`key
  {
    && (forall n :: n in l ==> n.key in m && m[n.key] == n)
    && (forall k :: k in m ==> m[k] in l && m[k].key == k)
  }

  lemma MapsWithout<V>(m: map<string, Node<V>>, l: seq<Node<V>>, i: nat)
    requires Maps(m, l) && NoRepeat(l) && i < |l|
    ensures Maps(m - {l[i].key}, Skip(l, i))
  {
    SkipMembers(l, i);
    assert l[i] in l;
  }

  lemma MapsWith<V>(m: map<string, Node<V>>, l: seq<Node<V>>, n: Node<V>)
    requires Maps(m, l) && n.key !in m
    ensures Maps(m[n.key := n], [n] + l)
  {
    assert forall k :: k in [n] + l <==> k == n || k in l;
  }

  lemma MapsMoved<V>(m: map<string, Node<V>>, l: seq<Node<V>>, i: nat)
    requires Maps(m, l) && NoRepeat(l) && i < |l|
    ensures Maps(m, [l[i]] + Skip(l, i))
  {
    SkipMembers(l, i);
    assert forall n :: n in [l[i]] + Skip(l, i) <==> n in l;
  }

  ghost function At<V>(l: seq<Node<V>>, i: int): (n: Node?<V>)
    ensures n != null ==> n in l
  {
    if 0 <= i < |l| then l[i] else null
  }

  ghost predicate LinkAt<V>(l: seq<Node<V>>, i: int)
    requires 0 <= i < |l|
    reads l
  {
    l[i].prev == At(l, i - 1) && l[i].next == At(l, i + 1)
  }

  ghost predicate NextAt<V>(l: seq<Node<V>>, i: int)
    requires 0 <= i < |l|
    reads l[i]
  {
    l[i].next == At(l, i + 1)
  }

  // The same links, one field at a time.

  ghost predicate NextIn<V>(l: seq<Node<V>>, i: int)
    requires 0 <= i < |l|
    reads l`next
  {
    l[i].next == At(l, i + 1)
  }

  ghost predicate PrevIn<V>(l: seq<Node<V>>, i: int)
    requires 0 <= i < |l|
    reads l`prev
  {
    l[i].prev == At(l, i - 1)
  }

  ghost predicate NoRepeat<T>(l: seq<T>) {
    forall i, j :: 0 <= i < j < |l| ==> l[i] != l[j]
  }

  ghost function Skip<T>(l: seq<T>, i: nat): seq<T>
    requires i < |l|
  {
    l[..i] + l[i + 1..]
  }
}
