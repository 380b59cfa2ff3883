/** A read-through cache over a key-value store: a hand-linked list in order of use, a map into it, and a byte
    total, all changed in place by every call. */
module LruCache {
  import opened Rows
  import opened ByteOrder

  type Store = map<Bytes, Bytes>

  /** A cached answer: the value, or none for a key known to be absent. */
  datatype Item = Item(key: Bytes, value: Option<Bytes>)

  function SizeOf(x: Item): nat {
    |x.key| + if x.value.Some? then |x.value.value| else 0
  }

  function Lookup(s: Store, k: Bytes): Option<Bytes> {
    if k in s then Some(s[k]) else None
  }

  // ---- what the list means ----------------------------------------------------------------------

  function Total(items: seq<Item>): nat {
    if items == [] then 0 else Total(items[..|items| - 1]) + SizeOf(items[|items| - 1])
  }

  datatype Limits = Limits(entries: nat, bytes: Option<nat>)

  predicate Fits(items: seq<Item>, limits: Limits) {
    |items| <= limits.entries && (limits.bytes.Some? ==> Total(items) <= limits.bytes.value)
  }

  /** Least recently used entries go until the rest fits. */
  function Trimmed(items: seq<Item>, limits: Limits): seq<Item>
    decreases |items|
  {
    if items == [] || Fits(items, limits) then items else Trimmed(items[..|items| - 1], limits)
  }

  /** Trimming keeps the longest run of recent entries within the limits. */
  lemma {:induction false} TrimmedIsLongestFit(items: seq<Item>, limits: Limits, n: nat)
    ensures Trimmed(items, limits) <= items && Fits(Trimmed(items, limits), limits)
    ensures n <= |items| && Fits(items[..n], limits) ==> n <= |Trimmed(items, limits)|
    decreases |items|
  {
    if items != [] && !Fits(items, limits) {
      var rest := items[..|items| - 1];
      TrimmedIsLongestFit(rest, limits, n);
      if n <= |items| {
        if n == |items| {
          assert items[..n] == items;
        } else {
          assert items[..n] == rest[..n];
        }
      }
    }
  }

  lemma {:induction false} TotalJoins(a: seq<Item>, b: seq<Item>)
    ensures Total(a + b) == Total(a) + Total(b)
    decreases |b|
  {
    if b == [] {
      assert a + b == a;
    } else {
      TotalJoins(a, b[..|b| - 1]);
      assert (a + b)[..|a + b| - 1] == a + b[..|b| - 1];
    }
  }

  /** The first place of `k`, or past the end. */
  function PositionOf(items: seq<Item>, k: Bytes): nat {
    if items == [] || items[0].key == k then 0 else 1 + PositionOf(items[1..], k)
  }

  lemma {:induction false} PositionFinds(items: seq<Item>, k: Bytes)
    ensures PositionOf(items, k) <= |items|
    ensures PositionOf(items, k) < |items| ==> items[PositionOf(items, k)].key == k
    ensures PositionOf(items, k) == |items| ==> forall i :: 0 <= i < |items| ==> items[i].key != k
  {
    if items != [] && items[0].key != k {
      PositionFinds(items[1..], k);
      assert forall i :: 1 <= i < |items| ==> items[i] == items[1..][i - 1];
    }
  }

  /** A use of `k`: it becomes the most recent. */
  function Touched(items: seq<Item>, k: Bytes): seq<Item> {
    var i := PositionOf(items, k);
    if i < |items| then [items[i]] + Without(items, i) else items
  }

  /** An answer recorded for `k`: in place of the old one and most recent, or fresh, with the rest trimmed. */
  function Recorded(items: seq<Item>, k: Bytes, v: Option<Bytes>, limits: Limits): seq<Item> {
    var i := PositionOf(items, k);
    if i < |items| then [Item(k, v)] + Without(items, i) else Trimmed([Item(k, v)] + items, limits)
  }

  function Forgotten(items: seq<Item>, k: Bytes): seq<Item> {
    var i := PositionOf(items, k);
    if i < |items| then Without(items, i) else items
  }

  function Without(items: seq<Item>, i: nat): seq<Item>
    requires i < |items|
  {
    items[..i] + items[i + 1..]
  }

  lemma TotalWithout(items: seq<Item>, i: nat)
    requires i < |items|
    ensures Total(items) == Total(Without(items, i)) + SizeOf(items[i])
  {
    TotalMiddle(items[..i], items[i], items[i + 1..]);
    SplitAt(items, i);
  }

  lemma TotalRotated(items: seq<Item>, i: nat)
    requires i < |items|
    ensures Total([items[i]] + Without(items, i)) == Total(items)
  {
    TotalWithout(items, i);
    TotalFront(items[i], Without(items, i));
  }

  lemma RewrittenThenMoved(items: seq<Item>, i: nat, v: Option<Bytes>)
    requires i < |items|
    ensures var x := Item(items[i].key, v); [items[i := x][i]] + Without(items[i := x], i) == [x] + Without(items, i)
  {
  }

  lemma FirstMovesNowhere(items: seq<Item>)
    requires items != []
    ensures [items[0]] + Without(items, 0) == items
  {
  }

  lemma SplitAt(items: seq<Item>, i: nat)
    requires i < |items|
    ensures items[..i] + ([items[i]] + items[i + 1..]) == items
  {
  }

  lemma TotalMiddle(a: seq<Item>, x: Item, b: seq<Item>)
    ensures Total(a + ([x] + b)) == Total(a + b) + SizeOf(x)
  {
    TotalJoins(a, b);
    TotalJoins(a, [x] + b);
    TotalFront(x, b);
  }

  lemma TotalFront(x: Item, items: seq<Item>)
    ensures Total([x] + items) == SizeOf(x) + Total(items)
  {
    TotalJoins([x], items);
    assert [x][..0] == [];
    assert Total([x]) == SizeOf(x);
  }

  // ---- cached answers stay the store's ----------------------------------------------------------

  ghost predicate DistinctKeys(items: seq<Item>) {
    forall i, j :: 0 <= i < j < |items| ==> items[i].key != items[j].key
  }

  /** Every cached answer, for keys outside `stale`, is the store's. */
  ghost predicate Agrees(items: seq<Item>, s: Store, stale: set<Bytes>) {
    forall x :: x in items && x.key !in stale ==> x.value == Lookup(s, x.key)
  }

  /** Recording the store's answer for `k` takes `k` off the stale keys. */
  lemma RecordedAgrees(items: seq<Item>, s: Store, k: Bytes, limits: Limits)
    requires DistinctKeys(items) && Agrees(items, s, {k})
    ensures Agrees(Recorded(items, k, Lookup(s, k), limits), s, {})
  {
    var x, i := Item(k, Lookup(s, k)), PositionOf(items, k);
    PositionFinds(items, k);
    TrimmedIsLongestFit([x] + items, limits, 0);
    var now := Recorded(items, k, Lookup(s, k), limits);
    forall y | y in now ensures y == x || (y in items && y.key != k) {
      if i < |items| {
        OthersDiffer(items, i, y);
      } else {
        assert y in [x] + items;
      }
    }
  }

  /** A used or recorded key becomes the most recent, and the others keep their order. */
  lemma UsedIsMostRecent(items: seq<Item>, k: Bytes, v: Option<Bytes>, limits: Limits)
    requires Fits([Item(k, v)], limits)
    ensures var others := Forgotten(items, k);
            && Recorded(items, k, v, limits) != [] && Recorded(items, k, v, limits)[0] == Item(k, v)
            && Recorded(items, k, v, limits) <= [Item(k, v)] + others
            && (PositionOf(items, k) < |items| ==>
                  Touched(items, k) == [items[PositionOf(items, k)]] + others && Touched(items, k)[0].key == k)
  {
    PositionFinds(items, k);
    var all := [Item(k, v)] + items;
    assert all[..1] == [Item(k, v)];
    TrimmedIsLongestFit(all, limits, 1);
  }

  lemma OthersDiffer(items: seq<Item>, i: nat, y: Item)
    requires DistinctKeys(items) && i < |items|
    ensures y in Without(items, i) ==> y in items && y.key != items[i].key
  {
  }

  lemma ForgottenAgrees(items: seq<Item>, s: Store, k: Bytes, stale: set<Bytes>)
    requires DistinctKeys(items) && Agrees(items, s, stale + {k})
    ensures Agrees(Forgotten(items, k), s, stale)
  {
    var i := PositionOf(items, k);
    PositionFinds(items, k);
    forall y | y in Forgotten(items, k) ensures y in items && y.key != k {
      if i < |items| {
        OthersDiffer(items, i, y);
      }
    }
  }

  lemma TouchedAgrees(items: seq<Item>, s: Store, k: Bytes)
    requires Agrees(items, s, {})
    ensures Agrees(Touched(items, k), s, {}) && |Touched(items, k)| == |items|
  {
  }

  /** Entries never exceed their number, and a fresh entry leaves the bytes within the budget again. */
  lemma RecordedFits(items: seq<Item>, k: Bytes, v: Option<Bytes>, limits: Limits)
    requires |items| <= limits.entries
    ensures |Recorded(items, k, v, limits)| <= limits.entries
    ensures PositionOf(items, k) >= |items| ==> Fits(Recorded(items, k, v, limits), limits)
  {
    TrimmedIsLongestFit([Item(k, v)] + items, limits, 0);
  }

  /** Growing an entry in place evicts nothing: one entry can outgrow the whole budget. */
  lemma GrowthInPlaceCanExceedBudget(k: Bytes, small: Bytes, large: Bytes, budget: nat)
    requires |k| + |small| <= budget < |k| + |large|
    ensures var limits, items := Limits(1, Some(budget)), [Item(k, Some(small))];
            Fits(items, limits) && !Fits(Recorded(items, k, Some(large), limits), limits)
  {
    var items := [Item(k, Some(small))];
    TotalFront(items[0], []);
    assert [items[0]] + [] == items;
    assert PositionOf(items, k) == 0 && Without(items, 0) == [];
    TotalFront(Item(k, Some(large)), []);
    assert [Item(k, Some(large))] + [] == [Item(k, Some(large))];
  }

  /** The cached answer for `k` grows by more bytes than the budget has left. */
  predicate Outgrows(items: seq<Item>, k: Bytes, v: Option<Bytes>, limits: Limits) {
    var i := PositionOf(items, k);
    i < |items| && limits.bytes.Some? && SizeOf(Item(k, v)) > limits.bytes.value - Total(items) + SizeOf(items[i])
  }

  /** Recording an answer keeps the cache within its limits if and only if no cached answer outgrows them. */
  lemma RecordedFitsExactly(items: seq<Item>, k: Bytes, v: Option<Bytes>, limits: Limits)
    requires |items| <= limits.entries
    ensures Fits(Recorded(items, k, v, limits), limits) <==> !Outgrows(items, k, v, limits)
  {
    var i := PositionOf(items, k);
    RecordedFits(items, k, v, limits);
    if i < |items| {
      TotalWithout(items, i);
      TotalFront(Item(k, v), Without(items, i));
    }
  }

  // ---- the linked structure ---------------------------------------------------------------------

  datatype BatchOp = PutOp(key: Bytes, value: Bytes) | DeleteOp(key: Bytes)

  function ApplyOps(s: Store, ops: seq<BatchOp>): Store
    decreases |ops|
  {
    if ops == [] then s
    else ApplyOps(if ops[0].PutOp? then s[ops[0].key := ops[0].value] else s - {ops[0].key}, ops[1..])
  }

  ghost function OpKeys(ops: seq<BatchOp>): set<Bytes> {
    set op | op in ops :: op.key
  }

  lemma OpKeysStep(ops: seq<BatchOp>, i: nat)
    requires i < |ops|
    ensures OpKeys(ops[i..]) == OpKeys(ops[i + 1..]) + {ops[i].key}
  {
    assert ops[i..] == [ops[i]] + ops[i + 1..];
  }

  lemma {:induction false} OpsTouchTheirKeys(s: Store, ops: seq<BatchOp>)
    ensures forall k :: k !in OpKeys(ops) ==> Lookup(ApplyOps(s, ops), k) == Lookup(s, k)
    decreases |ops|
  {
    if ops != [] {
      var next := if ops[0].PutOp? then s[ops[0].key := ops[0].value] else s - {ops[0].key};
      OpsTouchTheirKeys(next, ops[1..]);
      assert ops == [ops[0]] + ops[1..];
      forall k | k !in OpKeys(ops) ensures Lookup(ApplyOps(s, ops), k) == Lookup(s, k) {
        assert k !in OpKeys(ops[1..]) && k != ops[0].key;
      }
    }
  }

  class Node {
    var key: Bytes
    var value: Option<Bytes>
    var size: nat
    var prev: Node?
    var next: Node?

    constructor (k: Bytes, v: Option<Bytes>, s: nat)
      ensures key == k && value == v && size == s && prev == null && next == null
    {
      key, value, size, prev, next := k, v, s, null, null;
    }
  }

  class Cache {
    var store: Store
    const limits: Limits
    const enabled: bool
    var head: Node?
    var tail: Node?
    var index: map<Bytes, Node>
    var totalBytes: int
    /** The linked nodes, most recent first, and what they hold. */
    ghost var list: seq<Node>
    ghost var items: seq<Item>

    ghost function Nodes(): set<Node>
      reads this`list
    {
      Members(list)
    }

    /** The links spell out the list, each node once. */
    ghost predicate Chained()
      reads this`head, this`tail, this`list, Nodes()`prev, Nodes()`next
    {
      && NoRepeats(list)
      && head == Nth(list, 0) && tail == Nth(list, |list| - 1)
      && (forall i :: 0 <= i < |list| ==> Linked(list, i))
    }

    method PrependNode(node: Node)
      requires Chained() && node !in list
      modifies this`head, this`tail, this`list, node`prev, node`next, Nodes()`prev
      ensures list == [node] + old(list) && Chained()
    {
      ghost var was := list;
      assert was != [] ==> Linked(was, 0);
      NoRepeatsFront(node, was);
      node.prev := null;
      node.next := head;
      if head != null {
        head.prev := node;
      }
      head := node;
      if tail == null {
        tail := node;
      }
      list := [node] + list;
      forall i | 0 <= i < |list| ensures Linked(list, i) {
        if i > 0 {
          assert old(Linked(was, i - 1));
        }
      }
    }

    method UnlinkNode(node: Node, ghost i: nat)
      requires Chained() && i < |list| && list[i] == node
      modifies this`head, this`tail, this`list, Nodes()`prev, Nodes()`next
      ensures list == old(list)[..i] + old(list)[i + 1..] && node !in list && Chained()
      ensures Nodes() <= old(Nodes())
    {
      ghost var was := list;
      assert Linked(was, i);
      assert i > 0 ==> node.prev in Nodes();
      assert i + 1 < |was| ==> node.next in Nodes();
      if node.prev != null {
        node.prev.next := node.next;
      } else {
        head := node.next;
      }
      if node.next != null {
        node.next.prev := node.prev;
      } else {
        tail := node.prev;
      }
      node.prev := null;
      node.next := null;
      list := list[..i] + list[i + 1..];
      forall k | 0 <= k < |was| && k != i ensures Relinked(was, i, k) {
        assert old(Linked(was, k));
        assert Differ(was, k, i) && Differ(was, k, i - 1) && Differ(was, k, i + 1);
      }
      ChainedWithout(was, i);
      assert Members(was[..i] + was[i + 1..]) <= Members(was);
    }

    lemma ChainedWithout(was: seq<Node>, i: nat)
      requires i < |was| && list == was[..i] + was[i + 1..] && NoRepeats(was)
      requires head == Nth(was, if i == 0 then 1 else 0) &&
               tail == Nth(was, if i == |was| - 1 then i - 1 else |was| - 1)
      requires forall k :: 0 <= k < |was| && k != i ==> Relinked(was, i, k)
      ensures Chained() && was[i] !in list
    {
      forall j | 0 <= j < |list| ensures Linked(list, j) {
        assert Relinked(was, i, if j < i then j else j + 1);
        NthWithout(was, i, j);
        NthWithout(was, i, j - 1);
        NthWithout(was, i, j + 1);
      }
      NthWithout(was, i, 0);
      NthWithout(was, i, |list| - 1);
      NoRepeatsWithout(was, i);
    }

    /** Each node holds its item. */
    ghost predicate Mirrored()
      reads this`list, this`items, Nodes()`key, Nodes()`value, Nodes()`size
    {
      |items| == |list| && forall i :: 0 <= i < |list| ==> Holds(list, i, items[i])
    }

    /** The map has every listed key, leads to its node, and has no other. */
    ghost predicate Indexed()
      reads this`list, this`items, this`index
    {
      && |items| == |list| == |index|
      && (forall i :: 0 <= i < |items| ==> Leads(index, list, i, items[i].key))
      && (forall k :: k in index ==> Listed(items, k))
    }

    ghost predicate Structured()
      reads this`head, this`tail, this`list, this`items, this`index, this`totalBytes, Nodes()
    {
      Chained() && Mirrored() && Indexed() && totalBytes == Total(items)
    }

    /** The list, map and byte total agree, the entries are within their number, and each cached answer for a key
        outside `stale` is the store's. */
    ghost predicate ValidBut(stale: set<Bytes>)
      reads this, Nodes()
    {
      Structured() && Agrees(items, store, stale) && |items| <= limits.entries && (!enabled ==> items == [])
    }

    ghost predicate Valid()
      reads this, Nodes()
    {
      ValidBut({})
    }

    constructor (s: Store, l: Limits, on: bool)
      ensures Valid() && store == s && limits == l && enabled == on && items == []
    {
      store, limits, enabled, head, tail, index, totalBytes := s, l, on, null, null, map[], 0;
      list, items := [], [];
    }

    /** A key is cached when it is listed, and the map leads to where it stands. */
    lemma CachedIsListed(k: Bytes)
      requires Structured()
      ensures k in index <==> PositionOf(items, k) < |items|
      ensures k in index ==> list[PositionOf(items, k)] == index[k]
    {
      var i := PositionOf(items, k);
      PositionFinds(items, k);
      if i < |items| {
        assert Leads(index, list, i, items[i].key);
      }
      assert k in index ==> Listed(items, k);
    }

    /** A used entry becomes the most recent. */
    method MoveToHead(node: Node, ghost i: nat)
      requires Structured() && i < |list| && list[i] == node
      modifies this`head, this`tail, this`list, this`items, Nodes()`prev, Nodes()`next
      ensures Structured() && Nodes() == old(Nodes())
      ensures items == [old(items)[i]] + Without(old(items), i)
    {
      if head == node {
        assert Differ(list, 0, i);
        FirstMovesNowhere(items);
      } else {
        Promote(node, i);
      }
    }

    method Promote(node: Node, ghost i: nat)
      requires Structured() && i < |list| && list[i] == node
      modifies this`head, this`tail, this`list, this`items, Nodes()`prev, Nodes()`next
      ensures Structured() && Nodes() == old(Nodes())
      ensures items == [old(items)[i]] + Without(old(items), i)
    {
      ghost var was, had := list, items;
      Relocate(node, i);
      items := [had[i]] + Without(had, i);
      assert Mirrored() && Indexed() by {
        Rotated(was, had, i);
      }
      TotalRotated(had, i);
    }

    method Relocate(node: Node, ghost i: nat)
      requires Chained() && i < |list| && list[i] == node
      modifies this`head, this`tail, this`list, Nodes()`prev, Nodes()`next
      ensures Chained() && Nodes() == old(Nodes())
      ensures list == [node] + (old(list)[..i] + old(list)[i + 1..])
    {
      UnlinkNode(node, i);
      PrependNode(node);
      SameMembers(old(list), i);
    }

    /** Drops the entry at `i` from list and map. */
    method Discard(node: Node, ghost i: nat)
      requires Structured() && i < |list| && list[i] == node
      modifies this`head, this`tail, this`list, this`items, this`index, this`totalBytes, Nodes()`prev, Nodes()`next
      ensures Structured() && items == Without(old(items), i) && Nodes() <= old(Nodes())
      ensures index == old(index) - {old(items)[i].key}
    {
      ghost var was, had, led := list, items, index;
      assert Holds(list, i, items[i]);
      UnlinkNode(node, i);
      index := index - {node.key};
      totalBytes := totalBytes - node.size;
      items := Without(had, i);
      assert Chained();
      assert Mirrored() && Indexed() by {
        Shrunk(was, had, led, i);
      }
      assert totalBytes == Total(items) by {
        TotalWithout(had, i);
      }
    }

    lemma Shrunk(was: seq<Node>, had: seq<Item>, led: map<Bytes, Node>, i: nat)
      requires |was| == |had| == |led| && i < |was| && NoRepeats(was) && list == was[..i] + was[i + 1..] &&
               items == Without(had, i)
      requires forall j :: 0 <= j < |was| ==> Holds(was, j, had[j]) && Leads(led, was, j, had[j].key)
      requires forall k :: k in led ==> Listed(had, k)
      requires index == led - {had[i].key}
      ensures Mirrored() && Indexed()
    {
      assert Leads(led, was, i, had[i].key);
      OneFewer(led, had[i].key);
      forall j | 0 <= j < |list| ensures Holds(list, j, items[j]) && Leads(index, list, j, items[j].key) {
        StillLed(was, had, led, i, j);
      }
      forall k | k in index ensures Listed(items, k) {
        StillListed(had, i, k);
      }
    }

    lemma StillLed(was: seq<Node>, had: seq<Item>, led: map<Bytes, Node>, i: nat, j: nat)
      requires |was| == |had| && i < |was| && NoRepeats(was) && j < |was| - 1
      requires list == was[..i] + was[i + 1..] && items == Without(had, i) && index == led - {had[i].key}
      requires forall m :: 0 <= m < |was| ==> Holds(was, m, had[m]) && Leads(led, was, m, had[m].key)
      ensures Holds(list, j, items[j]) && Leads(index, list, j, items[j].key)
    {
      var from := if j < i then j else j + 1;
      assert list[j] == was[from] && items[j] == had[from];
      assert Holds(was, from, had[from]) && Leads(led, was, from, had[from].key) && Leads(led, was, i, had[i].key);
      assert Differ(was, from, i);
    }

    /** Least recently used entries go while there are too many or too large. */
    method Evict()
      requires Structured()
      modifies this`head, this`tail, this`list, this`items, this`index, this`totalBytes, Nodes()`prev, Nodes()`next
      ensures Structured() && items == Trimmed(old(items), limits) && Nodes() <= old(Nodes())
    {
      ghost var all := Nodes();
      while |index| > limits.entries || (limits.bytes.Some? && totalBytes > limits.bytes.value)
        invariant Structured() && Nodes() <= all && Trimmed(items, limits) == Trimmed(old(items), limits)
        decreases |items|
      {
        if tail == null {
          break;
        }
        assert Without(items, |items| - 1) == items[..|items| - 1];
        Discard(tail, |items| - 1);
      }
    }

    /** A new node at the front, for a key not yet cached. */
    method InsertFront(k: Bytes, v: Option<Bytes>)
      requires Structured() && k !in index
      modifies this`head, this`tail, this`list, this`items, this`index, this`totalBytes, Nodes()`prev
      ensures Structured() && items == [Item(k, v)] + old(items) && fresh(Nodes() - old(Nodes()))
    {
      var node := new Node(k, v, SizeOf(Item(k, v)));
      LinkFront(node, Item(k, v));
    }

    method LinkFront(node: Node, x: Item)
      requires Structured() && x.key !in index && node !in list
      requires node.key == x.key && node.value == x.value && node.size == SizeOf(x)
      modifies this`head, this`tail, this`list, this`items, this`index, this`totalBytes, node`prev, node`next
      modifies Nodes()`prev
      ensures Structured() && items == [x] + old(items) && list == [node] + old(list)
    {
      ghost var was, had := list, items;
      PrependNode(node);
      assert forall j :: 0 <= j < |was| ==> Holds(was, j, had[j]);
      RecordFront(node, x, was);
    }

    /** The node linked at the front is entered in the map and counted. */
    method RecordFront(node: Node, x: Item, ghost was: seq<Node>)
      requires Chained() && list == [node] + was && |was| == |items| == |index| && x.key !in index
      requires forall j :: 0 <= j < |was| ==> Holds(was, j, items[j]) && Leads(index, was, j, items[j].key)
      requires forall k :: k in index ==> Listed(items, k)
      requires node.key == x.key && node.value == x.value && node.size == SizeOf(x) && totalBytes == Total(items)
      modifies this`items, this`index, this`totalBytes
      ensures Structured() && items == [x] + old(items)
    {
      ghost var had, led := items, index;
      TotalFront(x, had);
      index := index[x.key := node];
      totalBytes := totalBytes + SizeOf(x);
      items := [x] + had;
      Grown(was, had, led, node, x);
    }

    lemma Grown(was: seq<Node>, had: seq<Item>, led: map<Bytes, Node>, node: Node, x: Item)
      requires |was| == |had| == |led| && list == [node] + was && items == [x] + had
      requires forall j :: 0 <= j < |was| ==> Holds(was, j, had[j]) && Leads(led, was, j, had[j].key)
      requires forall k :: k in led ==> Listed(had, k)
      requires x.key !in led && index == led[x.key := node] && node.key == x.key && node.value == x.value &&
               node.size == SizeOf(x)
      requires Chained() && totalBytes == Total(items)
      ensures Structured()
    {
      forall j | 0 <= j < |list| ensures Holds(list, j, items[j]) && Leads(index, list, j, items[j].key) {
        if j > 0 {
          assert Holds(was, j - 1, had[j - 1]) && Leads(led, was, j - 1, had[j - 1].key);
        }
      }
      forall k | k in index ensures Listed(items, k) {
        if k == x.key {
          assert items[0].key == k;
        } else {
          assert Listed(had, k);
          var j :| 0 <= j < |had| && had[j].key == k;
          assert items[j + 1].key == k;
        }
      }
    }

    /** A cached entry's new answer, in place. */
    method Rewrite(node: Node, v: Option<Bytes>, ghost i: nat)
      requires Structured() && i < |list| && list[i] == node
      modifies this`items, this`totalBytes, node`value, node`size
      ensures Structured() && items == old(items)[i := Item(old(items)[i].key, v)]
    {
      ghost var had := items;
      assert Holds(list, i, items[i]);
      var x := Item(node.key, v);
      totalBytes := totalBytes - node.size;
      node.value := v;
      node.size := SizeOf(x);
      totalBytes := totalBytes + node.size;
      items := had[i := x];
      assert Chained();
      forall j | 0 <= j < |list| ensures Holds(list, j, items[j]) && Leads(index, list, j, items[j].key) {
        assert old(Holds(list, j, items[j])) && Leads(index, list, j, had[j].key) && Differ(list, i, j);
      }
      forall k | k in index ensures Listed(items, k) {
        ListedRewritten(had, i, x, k);
      }
      TotalRewritten(had, i, x);
    }

    /** Records an answer: rewritten and moved up when the key is cached, else inserted and the rest trimmed. */
    method AddEntry(k: Bytes, v: Option<Bytes>)
      requires Structured()
      modifies this`head, this`tail, this`list, this`items, this`index, this`totalBytes, Nodes()
      ensures Structured() && fresh(Nodes() - old(Nodes()))
      ensures items == Recorded(old(items), k, v, limits)
    {
      CachedIsListed(k);
      if k in index {
        UpdateEntry(index[k], k, v);
      } else {
        InsertFront(k, v);
        Evict();
      }
    }

    method UpdateEntry(node: Node, k: Bytes, v: Option<Bytes>)
      requires Structured() && k in index && index[k] == node
      modifies this`head, this`tail, this`list, this`items, this`totalBytes, Nodes()
      ensures Structured() && Nodes() == old(Nodes()) && items == Recorded(old(items), k, v, limits)
    {
      ghost var i := PositionOf(items, k);
      CachedIsListed(k);
      PositionFinds(items, k);
      RewrittenThenMoved(items, i, v);
      Rewrite(node, v, i);
      MoveToHead(node, i);
    }

    method RemoveEntry(k: Bytes)
      requires Structured()
      modifies this`head, this`tail, this`list, this`items, this`index, this`totalBytes, Nodes()`prev, Nodes()`next
      ensures Structured() && Nodes() <= old(Nodes()) && k !in index && items == Forgotten(old(items), k)
    {
      CachedIsListed(k);
      PositionFinds(items, k);
      if k in index {
        Discard(index[k], PositionOf(items, k));
      }
    }

    lemma KeysAreUnique()
      requires Structured()
      ensures DistinctKeys(items)
    {
      forall i, j | 0 <= i < j < |items| ensures items[i].key != items[j].key {
        assert Leads(index, list, i, items[i].key) && Leads(index, list, j, items[j].key) && Differ(list, i, j);
      }
    }

    // ---- the store's interface ------------------------------------------------------------------

    /** The cache answers as the store does, and moves or records what was asked. */
    method Get(k: Bytes) returns (r: Option<Bytes>)
      requires Valid()
      modifies this`head, this`tail, this`list, this`items, this`index, this`totalBytes, Nodes()
      ensures Valid() && r == Lookup(store, k) && fresh(Nodes() - old(Nodes()))
      ensures enabled ==>
                items == if k in old(index) then Touched(old(items), k) else Recorded(old(items), k, r, limits)
    {
      if !enabled {
        return Lookup(store, k);
      }
      if k in index {
        r := Hit(k);
      } else {
        CachedIsListed(k);
        r := Fetch(k);
      }
    }

    method Has(k: Bytes) returns (there: bool)
      requires Valid()
      modifies this`head, this`tail, this`list, this`items, this`index, this`totalBytes, Nodes()
      ensures Valid() && (there <==> k in store) && fresh(Nodes() - old(Nodes()))
    {
      var v := Get(k);
      there := v.Some?;
    }

    /** Writes through, then records the new answer. */
    method Put(k: Bytes, v: Bytes)
      requires Valid()
      modifies this, Nodes()
      ensures Valid() && store == old(store)[k := v] && fresh(Nodes() - old(Nodes()))
      ensures enabled ==> items == Recorded(old(items), k, Some(v), limits)
    {
      WriteStore(k, Some(v));
      Settle(k, Some(v));
    }

    method Delete(k: Bytes)
      requires Valid()
      modifies this, Nodes()
      ensures Valid() && store == old(store) - {k} && fresh(Nodes() - old(Nodes()))
      ensures enabled ==> items == Recorded(old(items), k, None, limits)
    {
      WriteStore(k, None);
      Settle(k, None);
    }

    /** The store takes the write first; until it is recorded, the cached answer for `k` may be out of date. */
    method WriteStore(k: Bytes, v: Option<Bytes>)
      requires Valid()
      modifies this`store
      ensures ValidBut({k}) && Lookup(store, k) == v &&
              store == if v.Some? then old(store)[k := v.value] else old(store) - {k}
    {
      store := if v.Some? then store[k := v.value] else store - {k};
    }

    /** A cache that is switched off has nothing to bring up to date. */
    method Settle(k: Bytes, v: Option<Bytes>)
      requires ValidBut({k}) && v == Lookup(store, k)
      modifies this`head, this`tail, this`list, this`items, this`index, this`totalBytes, Nodes()
      ensures Valid() && fresh(Nodes() - old(Nodes()))
      ensures enabled ==> items == Recorded(old(items), k, v, limits)
    {
      if enabled {
        Record(k, v);
      }
    }

    /** The store's new answer for `k`; the cached one, if any, is out of date. */
    method Record(k: Bytes, v: Option<Bytes>)
      requires ValidBut({k}) && enabled && v == Lookup(store, k)
      modifies this`head, this`tail, this`list, this`items, this`index, this`totalBytes, Nodes()
      ensures Valid() && items == Recorded(old(items), k, v, limits) && fresh(Nodes() - old(Nodes()))
    {
      KeysAreUnique();
      RecordedAgrees(items, store, k, limits);
      RecordedFits(items, k, v, limits);
      AddEntry(k, v);
    }

    /** Serves cached keys from memory and asks the store for the rest in one go. Answers keep their places. */
    method GetMany(keys: seq<Bytes>) returns (out: seq<Option<Bytes>>)
      requires Valid()
      modifies this`head, this`tail, this`list, this`items, this`index, this`totalBytes, Nodes()
      ensures Valid() && fresh(Nodes() - old(Nodes()))
      ensures |out| == |keys| && forall i :: 0 <= i < |keys| ==> out[i] == Lookup(store, keys[i])
    {
      var misses: seq<nat>;
      out, misses := ServeHits(keys);
      out := FetchMisses(keys, misses, out);
    }

    /** Answers what is cached; returns the places of the rest. */
    method ServeHits(keys: seq<Bytes>) returns (out: seq<Option<Bytes>>, misses: seq<nat>)
      requires Valid()
      modifies this`head, this`tail, this`list, this`items, Nodes()`prev, Nodes()`next
      ensures Valid() && Nodes() == old(Nodes()) && |out| == |keys| && Served(store, keys, out, misses)
    {
      out, misses := [], [];
      for i := 0 to |keys|
        invariant Valid() && Nodes() == old(Nodes()) && |out| == i && Served(store, keys, out, misses)
      {
        if keys[i] in index {
          HitAdded(store, keys, out, misses);
          var hit := Hit(keys[i]);
          out := out + [hit];
        } else {
          MissAdded(store, keys, out, misses);
          out, misses := out + [None], misses + [i];
        }
      }
    }

    /** A cached answer, which becomes the most recent. */
    method Hit(k: Bytes) returns (r: Option<Bytes>)
      requires Valid() && k in index
      modifies this`head, this`tail, this`list, this`items, Nodes()`prev, Nodes()`next
      ensures Valid() && Nodes() == old(Nodes()) && r == Lookup(store, k) && items == Touched(old(items), k)
    {
      CachedIsListed(k);
      PositionFinds(items, k);
      TouchedAgrees(items, store, k);
      var node := index[k];
      assert Holds(list, PositionOf(items, k), items[PositionOf(items, k)]);
      r := node.value;
      MoveToHead(node, PositionOf(items, k));
    }

    method FetchMisses(keys: seq<Bytes>, misses: seq<nat>, hits: seq<Option<Bytes>>) returns (out: seq<Option<Bytes>>)
      requires Valid() && |hits| == |keys| && Served(store, keys, hits, misses)
      modifies this`head, this`tail, this`list, this`items, this`index, this`totalBytes, Nodes()
      ensures Valid() && fresh(Nodes() - old(Nodes()))
      ensures |out| == |keys| && forall j :: 0 <= j < |keys| ==> out[j] == Lookup(store, keys[j])
    {
      out := hits;
      for m := 0 to |misses|
        invariant Valid() && fresh(Nodes() - old(Nodes())) && |out| == |keys|
        invariant Served(store, keys, out, misses[m..])
      {
        MissServed(store, keys, out, misses[m..]);
        assert misses[m..][1..] == misses[m + 1..];
        var value := Fetch(keys[misses[m]]);
        out := out[misses[m] := value];
      }
    }

    /** A miss: the store's answer, recorded. The key may have been recorded meanwhile. */
    method Fetch(k: Bytes) returns (v: Option<Bytes>)
      requires Valid()
      modifies this`head, this`tail, this`list, this`items, this`index, this`totalBytes, Nodes()
      ensures Valid() && v == Lookup(store, k) && fresh(Nodes() - old(Nodes()))
      ensures enabled ==> items == Recorded(old(items), k, v, limits)
    {
      v := Lookup(store, k);
      if enabled {
        Record(k, v);
      }
    }

    /** A batch goes to the store whole, then each of its keys is dropped from the cache. */
    method WriteBatch(ops: seq<BatchOp>)
      requires Valid()
      modifies this, Nodes()
      ensures Valid() && store == ApplyOps(old(store), ops) && Nodes() <= old(Nodes())
    {
      OpsTouchTheirKeys(store, ops);
      store := ApplyOps(store, ops);
      InvalidateKeys(ops);
    }

    method InvalidateKeys(ops: seq<BatchOp>)
      requires ValidBut(OpKeys(ops))
      modifies this`head, this`tail, this`list, this`items, this`index, this`totalBytes, Nodes()`prev, Nodes()`next
      ensures Valid() && Nodes() <= old(Nodes())
    {
      assert ops[0..] == ops;
      for i := 0 to |ops|
        invariant ValidBut(OpKeys(ops[i..])) && Nodes() <= old(Nodes())
      {
        OpKeysStep(ops, i);
        Invalidate(ops[i].key, OpKeys(ops[i + 1..]));
      }
      assert OpKeys(ops[|ops|..]) == {};
    }

    method Invalidate(k: Bytes, ghost stale: set<Bytes>)
      requires ValidBut(stale + {k})
      modifies this`head, this`tail, this`list, this`items, this`index, this`totalBytes, Nodes()`prev, Nodes()`next
      ensures ValidBut(stale) && Nodes() <= old(Nodes()) && k !in index
    {
      KeysAreUnique();
      ForgottenAgrees(items, store, k, stale);
      RemoveEntry(k);
    }

    /** Closing drops every entry first, so nothing is answered from memory afterwards. */
    method InvalidateAll()
      modifies this`head, this`tail, this`list, this`items, this`index, this`totalBytes
      ensures Valid() && items == [] && index == map[] && totalBytes == 0
    {
      index, head, tail, totalBytes := map[], null, null, 0;
      list, items := [], [];
      assert Chained();
      assert Mirrored() && Indexed();
    }

    lemma Rotated(was: seq<Node>, had: seq<Item>, i: nat)
      requires |was| == |had| == |index| && i < |was| && list == [was[i]] + (was[..i] + was[i + 1..]) &&
               items == [had[i]] + Without(had, i)
      requires forall j :: 0 <= j < |was| ==> Holds(was, j, had[j]) && Leads(index, was, j, had[j].key)
      requires forall k :: k in index ==> Listed(had, k)
      ensures Mirrored() && Indexed()
    {
      forall j | 0 <= j < |list| ensures Holds(list, j, items[j]) && Leads(index, list, j, items[j].key) {
        var from := Source(i, j);
        assert Holds(was, from, had[from]) && Leads(index, was, from, had[from].key);
      }
      forall k | k in index ensures Listed(items, k) {
        var j :| 0 <= j < |had| && had[j].key == k;
        var to := if j == i then 0 else if j < i then j + 1 else j;
        assert items[to] == had[j];
      }
    }
  }

  lemma ListedRewritten(had: seq<Item>, i: nat, x: Item, k: Bytes)
    requires i < |had| && x.key == had[i].key && Listed(had, k)
    ensures Listed(had[i := x], k)
  {
    var j :| 0 <= j < |had| && had[j].key == k;
    assert had[i := x][j].key == k;
  }

  lemma TotalRewritten(had: seq<Item>, i: nat, x: Item)
    requires i < |had|
    ensures Total(had[i := x]) == Total(had) - SizeOf(had[i]) + SizeOf(x)
  {
    TotalWithout(had, i);
    TotalWithout(had[i := x], i);
    assert Without(had, i) == Without(had[i := x], i);
  }

  lemma OneFewer(led: map<Bytes, Node>, k: Bytes)
    requires k in led
    ensures |led - {k}| == |led| - 1
  {
    assert led.Keys == (led - {k}).Keys + {k};
  }

  lemma StillListed(had: seq<Item>, i: nat, k: Bytes)
    requires i < |had| && Listed(had, k) && k != had[i].key
    ensures Listed(Without(had, i), k)
  {
    var j :| 0 <= j < |had| && had[j].key == k;
    assert Without(had, i)[if j < i then j else j - 1] == had[j];
  }

  ghost function Members(list: seq<Node>): set<Node> {
    set n | n in list
  }

  lemma SameMembers(list: seq<Node>, i: nat)
    requires i < |list|
    ensures Members([list[i]] + (list[..i] + list[i + 1..])) == Members(list)
  {
    var moved := [list[i]] + (list[..i] + list[i + 1..]);
    forall n | n in list ensures n in moved {
      var j :| 0 <= j < |list| && list[j] == n;
      assert moved[if j == i then 0 else if j < i then j + 1 else j] == n;
    }
  }

  /** Where the entry now at `j` stood before position `i` moved to the front. */
  function Source(i: nat, j: nat): nat {
    if j == 0 then i else if j <= i then j - 1 else j
  }

  /** Every place but the missed ones has its answer. */
  ghost predicate Served(s: Store, keys: seq<Bytes>, out: seq<Option<Bytes>>, misses: seq<nat>) {
    && |out| <= |keys| && (forall m :: m in misses ==> m < |out|)
    && (forall j: nat :: j < |out| ==> j in misses || out[j] == Lookup(s, keys[j]))
  }

  lemma HitAdded(s: Store, keys: seq<Bytes>, out: seq<Option<Bytes>>, misses: seq<nat>)
    requires Served(s, keys, out, misses) && |out| < |keys|
    ensures Served(s, keys, out + [Lookup(s, keys[|out|])], misses)
  {
  }

  lemma MissAdded(s: Store, keys: seq<Bytes>, out: seq<Option<Bytes>>, misses: seq<nat>)
    requires Served(s, keys, out, misses) && |out| < |keys|
    ensures Served(s, keys, out + [None], misses + [|out|])
  {
  }

  lemma MissServed(s: Store, keys: seq<Bytes>, out: seq<Option<Bytes>>, misses: seq<nat>)
    requires Served(s, keys, out, misses) && misses != []
    ensures misses[0] < |out| && Served(s, keys, out[misses[0] := Lookup(s, keys[misses[0]])], misses[1..])
  {
    assert misses[0] in misses;
    assert forall j: nat :: j in misses ==> j == misses[0] || j in misses[1..];
    assert forall j: nat :: j in misses[1..] ==> j in misses;
  }

  ghost predicate Holds(list: seq<Node>, i: nat, x: Item)
    requires i < |list|
    reads {list[i]}`key, {list[i]}`value, {list[i]}`size
  {
    list[i].key == x.key && list[i].value == x.value && list[i].size == SizeOf(x)
  }

  ghost predicate Leads(index: map<Bytes, Node>, list: seq<Node>, i: nat, k: Bytes)
    requires i < |list|
  {
    k in index && index[k] == list[i]
  }

  ghost predicate Listed(items: seq<Item>, k: Bytes) {
    exists i :: 0 <= i < |items| && items[i].key == k
  }

  /** A node's links point at its neighbours. */
  ghost predicate Linked(list: seq<Node>, i: nat)
    requires i < |list|
    reads {list[i]}`prev, {list[i]}`next
  {
    list[i].prev == Nth(list, i - 1) && list[i].next == Nth(list, i + 1)
  }

  /** A node's links skip position `i`. */
  ghost predicate Relinked(list: seq<Node>, i: nat, k: nat)
    requires k < |list|
    reads {list[k]}`prev, {list[k]}`next
  {
    && list[k].prev == Nth(list, if k == i + 1 then i - 1 else k - 1)
    && list[k].next == Nth(list, if k + 1 == i then i + 1 else k + 1)
  }

  ghost predicate Differ(list: seq<Node>, i: int, j: int) {
    0 <= i < |list| && 0 <= j < |list| && i != j ==> list[i] != list[j]
  }

  ghost predicate NoRepeats(list: seq<Node>) {
    forall i, j :: Differ(list, i, j)
  }

  lemma NoRepeatsWithout(list: seq<Node>, i: nat)
    requires i < |list| && NoRepeats(list)
    ensures NoRepeats(list[..i] + list[i + 1..]) && list[i] !in list[..i] + list[i + 1..]
  {
    var less := list[..i] + list[i + 1..];
    forall a, b ensures Differ(less, a, b) {
      assert Differ(list, if a < i then a else a + 1, if b < i then b else b + 1);
    }
    forall a | 0 <= a < |less| ensures less[a] != list[i] {
      assert Differ(list, if a < i then a else a + 1, i);
    }
  }

  lemma NoRepeatsFront(node: Node, list: seq<Node>)
    requires node !in list && NoRepeats(list)
    ensures NoRepeats([node] + list)
  {
    forall a, b ensures Differ([node] + list, a, b) {
      assert Differ(list, a - 1, b - 1);
    }
  }

  lemma NthWithout(list: seq<Node>, i: nat, j: int)
    requires i < |list|
    ensures Nth(list[..i] + list[i + 1..], j) == if j < i then Nth(list, j) else Nth(list, j + 1)
  {
  }

  ghost function Nth(list: seq<Node>, i: int): Node? {
    if 0 <= i < |list| then list[i] else null
  }
}
