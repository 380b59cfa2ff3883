/** Reading through an overlay: the primary-key merge, the secondary-index merge and the plain
    enumeration of effective rows all show the same rows. */
module MergeScan {
  import opened Collections
  import opened Rows
  import opened MergedView
  import opened IsolatedTables

  // ---- orders -----------------------------------------------------------------------------------

  type Compare<!T> = (T, T) -> int

  /** A total order up to `cmp(a, b) == 0`. */
  ghost predicate Ordering<T(!new)>(cmp: Compare<T>) {
    && (forall a, b :: Mirrored(cmp, a, b))
    && (forall a, b, c :: Chained(cmp, a, b, c))
  }

  predicate Mirrored<T>(cmp: Compare<T>, a: T, b: T) {
    && (cmp(a, b) < 0 <==> cmp(b, a) > 0)
    && (cmp(b, a) < 0 <==> cmp(a, b) > 0)
  }

  predicate Chained<T>(cmp: Compare<T>, a: T, b: T, c: T) {
    cmp(a, b) <= 0 && cmp(b, c) <= 0 ==> cmp(a, c) <= 0
  }

  /** Strictness carries along a chain. */
  lemma Before<T(!new)>(cmp: Compare<T>, a: T, b: T, c: T)
    requires Ordering(cmp)
    requires (cmp(a, b) < 0 && cmp(b, c) <= 0) || (cmp(a, b) <= 0 && cmp(b, c) < 0)
    ensures cmp(a, c) < 0
  {
    assert Chained(cmp, a, b, c) && Chained(cmp, b, c, a) && Chained(cmp, c, a, b);
    assert Mirrored(cmp, a, b) && Mirrored(cmp, b, c) && Mirrored(cmp, a, c);
  }

  function Reversed<T>(cmp: Compare<T>): Compare<T> {
    (a, b) => -cmp(a, b)
  }

  lemma ReversedOrders<T(!new)>(cmp: Compare<T>)
    requires Ordering(cmp)
    ensures Ordering(Reversed(cmp))
  {
    var rev := Reversed(cmp);
    forall a, b, c ensures Chained(rev, a, b, c) {
      assert Chained(cmp, c, b, a) && Mirrored(cmp, a, b) && Mirrored(cmp, b, c) && Mirrored(cmp, a, c);
    }
    forall a, b ensures Mirrored(rev, a, b) {
      assert Mirrored(cmp, a, b);
    }
  }

  ghost predicate Ascending<T(!new)>(cmp: Compare<T>, s: seq<T>) {
    forall i, j :: 0 <= i < j < |s| ==> cmp(s[i], s[j]) < 0
  }

  ghost predicate Nondescending<T(!new)>(cmp: Compare<T>, s: seq<T>) {
    forall i, j :: 0 <= i < j < |s| ==> cmp(s[i], s[j]) <= 0
  }

  /** The host's array sort, of which only sortedness and content matter. */
  method Sort<T(!new,==)>(s: seq<T>, cmp: Compare<T>) returns (out: seq<T>)
    requires Ordering(cmp)
    ensures Nondescending(cmp, out) && multiset(out) == multiset(s)
  {
    out := [];
    for i := 0 to |s|
      invariant Nondescending(cmp, out) && multiset(out) == multiset(s[..i])
    {
      out := InsertSorted(out, s[i], cmp);
      assert s[..i + 1] == s[..i] + [s[i]];
    }
    assert s[..|s|] == s;
  }

  method InsertSorted<T(!new,==)>(s: seq<T>, x: T, cmp: Compare<T>) returns (out: seq<T>)
    requires Ordering(cmp) && Nondescending(cmp, s)
    ensures Nondescending(cmp, out) && multiset(out) == multiset(s) + multiset{x}
  {
    var at := 0;
    while at < |s| && cmp(s[at], x) <= 0
      invariant 0 <= at <= |s|
      invariant forall j :: 0 <= j < at ==> cmp(s[j], x) <= 0
    {
      at := at + 1;
    }
    out := s[..at] + [x] + s[at..];
    assert s == s[..at] + s[at..];
    InsertedInOrder(s, x, at, cmp);
  }

  lemma InsertedInOrder<T(!new)>(s: seq<T>, x: T, at: nat, cmp: Compare<T>)
    requires Ordering(cmp) && Nondescending(cmp, s) && at <= |s|
    requires forall j :: 0 <= j < at ==> cmp(s[j], x) <= 0
    requires at < |s| ==> cmp(s[at], x) > 0
    ensures Nondescending(cmp, s[..at] + [x] + s[at..])
  {
    var out := s[..at] + [x] + s[at..];
    forall i, j | 0 <= i < j < |out| ensures cmp(out[i], out[j]) <= 0 {
      if i == at {
        assert out[j] == s[j - 1];
        assert Mirrored(cmp, x, s[at]) && Chained(cmp, x, s[at], s[j - 1]);
      } else if j == at {
        assert out[i] == s[i];
      } else {
        assert out[i] == s[if i < at then i else i - 1] && out[j] == s[if j < at then j else j - 1];
      }
    }
  }

  lemma {:induction false} TwiceMeansTwoPlaces<T>(s: seq<T>, x: T)
    requires multiset(s)[x] >= 2
    ensures exists p, q :: 0 <= p < q < |s| && s[p] == x && s[q] == x
  {
    assert s == [s[0]] + s[1..];
    if s[0] == x {
      assert multiset(s[1..])[x] >= 1;
      assert x in s[1..];
      var q :| 0 <= q < |s[1..]| && s[1..][q] == x;
      assert s[0] == x && s[q + 1] == x;
    } else {
      assert multiset(s[1..])[x] >= 2;
      TwiceMeansTwoPlaces(s[1..], x);
      var p, q :| 0 <= p < q < |s[1..]| && s[1..][p] == x && s[1..][q] == x;
      assert s[p + 1] == x && s[q + 1] == x;
    }
  }

  lemma TwoPlacesMeanTwice<T>(s: seq<T>, i: nat, j: nat)
    requires i < j < |s| && s[i] == s[j]
    ensures multiset(s)[s[i]] >= 2
  {
    assert s == s[..j] + s[j..];
    assert s[i] in s[..j] && s[j] == s[j..][0];
    assert s[..j][i] == s[i];
  }

  ghost predicate NoTies<T(!new)>(cmp: Compare<T>, s: seq<T>) {
    forall i, j :: 0 <= i < j < |s| ==> cmp(s[i], s[j]) != 0
  }

  /** Sorting entries no two of which tie puts them in strict order. */
  lemma SortedWithoutTies<T(!new)>(cmp: Compare<T>, s: seq<T>, out: seq<T>)
    requires Ordering(cmp) && NoTies(cmp, s) && Nondescending(cmp, out) && multiset(out) == multiset(s)
    ensures Ascending(cmp, out)
  {
    forall i, j | 0 <= i < j < |out| ensures cmp(out[i], out[j]) < 0 {
      if out[i] == out[j] {
        TwoPlacesMeanTwice(out, i, j);
        TwiceMeansTwoPlaces(s, out[i]);
      } else {
        assert out[i] in multiset(s) && out[j] in multiset(s);
        var p :| 0 <= p < |s| && s[p] == out[i];
        var q :| 0 <= q < |s| && s[q] == out[j];
        assert Mirrored(cmp, s[p], s[q]);
      }
    }
  }

  // ---- the primary-key merge --------------------------------------------------------------------

  /** A walk order on keys: distinct keys never tie. */
  ghost predicate KeyOrder(cmp: Compare<Key>) {
    Ordering(cmp) && forall a, b :: TiesAreEqual(cmp, a, b)
  }

  predicate TiesAreEqual(cmp: Compare<Key>, a: Key, b: Key) {
    cmp(a, b) == 0 <==> a == b
  }

  ghost predicate SlotsAscend(s: Schema, cmp: Compare<Key>, slots: seq<Slot>) {
    forall i, j :: 0 <= i < j < |slots| ==> cmp(KeyOf(s, slots[i].row), KeyOf(s, slots[j].row)) < 0
  }

  ghost predicate RowsAscend(s: Schema, cmp: Compare<Key>, rows: seq<Row>) {
    forall i, j :: 0 <= i < j < |rows| ==> cmp(KeyOf(s, rows[i]), KeyOf(s, rows[j])) < 0
  }

  ghost predicate Names(s: Schema, slots: seq<Slot>, k: Key) {
    exists a :: 0 <= a < |slots| && KeyOf(s, slots[a].row) == k
  }

  /** What the first `i` overlay entries and the first `j` underlying rows contribute. */
  ghost predicate Contributes(s: Schema, slots: seq<Slot>, i: nat, under: seq<Row>, j: nat, r: Row)
    requires i <= |slots| && j <= |under|
  {
    || (exists a :: 0 <= a < i && slots[a] == Live(r))
    || (exists b :: 0 <= b < j && under[b] == r && !Names(s, slots, KeyOf(s, r)))
  }

  /** The state between two steps of the merge. */
  ghost predicate Merging(s: Schema, cmp: Compare<Key>, slots: seq<Slot>, i: nat, under: seq<Row>, j: nat,
                          out: seq<Row>) {
    && i <= |slots| && j <= |under|
    && RowsAscend(s, cmp, out)
    && (forall r :: r in out <==> Contributes(s, slots, i, under, j, r))
    && Behind(s, cmp, out, slots, i, under, j)
    && Crossed(s, cmp, slots, i, under, j)
  }

  /** One pass over two streams in one order; an overlay entry wins over the underlying row at its key. */
  method MergeStreams(s: Schema, slots: seq<Slot>, under: seq<Row>, cmp: Compare<Key>) returns (out: seq<Row>)
    requires KeyOrder(cmp) && SlotsAscend(s, cmp, slots) && RowsAscend(s, cmp, under)
    ensures RowsAscend(s, cmp, out)
    ensures forall r :: r in out <==> Contributes(s, slots, |slots|, under, |under|, r)
  {
    out := [];
    var i, j := 0, 0;
    while i < |slots| || j < |under|
      invariant 0 <= i <= |slots| && 0 <= j <= |under|
      invariant Merging(s, cmp, slots, i, under, j, out)
      decreases |slots| - i + |under| - j
    {
      out, i, j := MergeStep(s, slots, under, cmp, i, j, out);
    }
  }

  /** The lesser head is taken; on equal keys the overlay entry is, and both streams move. */
  method MergeStep(s: Schema, slots: seq<Slot>, under: seq<Row>, cmp: Compare<Key>, i: nat, j: nat, out: seq<Row>)
    returns (more: seq<Row>, i': nat, j': nat)
    requires KeyOrder(cmp) && SlotsAscend(s, cmp, slots) && RowsAscend(s, cmp, under)
    requires (i < |slots| || j < |under|) && Merging(s, cmp, slots, i, under, j, out)
    ensures Merging(s, cmp, slots, i', under, j', more) && i' + j' > i + j
  {
    if j == |under| || (i < |slots| && cmp(KeyOf(s, slots[i].row), KeyOf(s, under[j])) < 0) {
      TakeSlot(s, cmp, slots, i, under, j, out);
      more := EmitSlot(out, slots[i]);
      i', j' := i + 1, j;
    } else if i == |slots| || cmp(KeyOf(s, slots[i].row), KeyOf(s, under[j])) > 0 {
      TakeRow(s, cmp, slots, i, under, j, out);
      more, i', j' := out + [under[j]], i, j + 1;
    } else {
      TakeBoth(s, cmp, slots, i, under, j, out);
      more := EmitSlot(out, slots[i]);
      i', j' := i + 1, j + 1;
    }
  }

  /** A staged row is emitted, a marker is not. */
  method EmitSlot(out: seq<Row>, slot: Slot) returns (more: seq<Row>)
    ensures more == WithSlot(out, slot)
  {
    more := if slot.Live? then out + [slot.row] else out;
  }

  ghost function WithSlot(out: seq<Row>, slot: Slot): seq<Row> {
    if slot.Live? then out + [slot.row] else out
  }

  lemma TakeSlot(s: Schema, cmp: Compare<Key>, slots: seq<Slot>, i: nat, under: seq<Row>, j: nat, out: seq<Row>)
    requires KeyOrder(cmp) && SlotsAscend(s, cmp, slots) && RowsAscend(s, cmp, under) &&
             Merging(s, cmp, slots, i, under, j, out)
    requires i < |slots| && (j == |under| || cmp(KeyOf(s, slots[i].row), KeyOf(s, under[j])) < 0)
    ensures Merging(s, cmp, slots, i + 1, under, j, WithSlot(out, slots[i]))
  {
    assert Crossed(s, cmp, slots, i + 1, under, j) &&
        Behind(s, cmp, WithSlot(out, slots[i]), slots, i + 1, under, j) by {
      SlotSortsFirst(s, cmp, slots, i, under, j);
    }
    assert forall r :: Contributes(s, slots, i + 1, under, j, r) <==>
        Contributes(s, slots, i, under, j, r) || slots[i] == Live(r) by {
      SlotContributes(s, slots, i, under, j);
    }
  }

  lemma TakeRow(s: Schema, cmp: Compare<Key>, slots: seq<Slot>, i: nat, under: seq<Row>, j: nat, out: seq<Row>)
    requires KeyOrder(cmp) && SlotsAscend(s, cmp, slots) && RowsAscend(s, cmp, under) &&
             Merging(s, cmp, slots, i, under, j, out)
    requires j < |under| && (i == |slots| || cmp(KeyOf(s, slots[i].row), KeyOf(s, under[j])) > 0)
    ensures Merging(s, cmp, slots, i, under, j + 1, out + [under[j]])
  {
    RowSortsFirst(s, cmp, slots, i, under, j);
    RowContributes(s, slots, i, under, j);
  }

  lemma TakeBoth(s: Schema, cmp: Compare<Key>, slots: seq<Slot>, i: nat, under: seq<Row>, j: nat, out: seq<Row>)
    requires KeyOrder(cmp) && SlotsAscend(s, cmp, slots) && RowsAscend(s, cmp, under)
    requires Merging(s, cmp, slots, i, under, j, out)
    requires i < |slots| && j < |under| && cmp(KeyOf(s, slots[i].row), KeyOf(s, under[j])) == 0
    ensures Merging(s, cmp, slots, i + 1, under, j + 1, WithSlot(out, slots[i]))
  {
    var more := WithSlot(out, slots[i]);
    assert Crossed(s, cmp, slots, i + 1, under, j + 1) && Behind(s, cmp, more, slots, i + 1, under, j + 1) by {
      KeysMeet(s, cmp, slots, i, under, j);
    }
    assert RowsAscend(s, cmp, more);
    assert forall r :: r in more <==> Contributes(s, slots, i + 1, under, j + 1, r) by {
      KeysMeet(s, cmp, slots, i, under, j);
      BothContribute(s, slots, i, under, j);
    }
  }

  lemma BothContribute(s: Schema, slots: seq<Slot>, i: nat, under: seq<Row>, j: nat)
    requires i < |slots| && j < |under| && Names(s, slots, KeyOf(s, under[j]))
    ensures forall r :: Contributes(s, slots, i + 1, under, j + 1, r) <==>
            Contributes(s, slots, i, under, j, r) || slots[i] == Live(r)
  {
    RowContributes(s, slots, i, under, j);
    SlotContributes(s, slots, i, under, j + 1);
  }

  lemma SlotContributes(s: Schema, slots: seq<Slot>, i: nat, under: seq<Row>, j: nat)
    requires i < |slots| && j <= |under|
    ensures forall r :: Contributes(s, slots, i + 1, under, j, r) <==>
            Contributes(s, slots, i, under, j, r) || slots[i] == Live(r)
  {
  }

  lemma RowContributes(s: Schema, slots: seq<Slot>, i: nat, under: seq<Row>, j: nat)
    requires i <= |slots| && j < |under|
    ensures forall r :: Contributes(s, slots, i, under, j + 1, r)
                   <==> Contributes(s, slots, i, under, j, r) || (r == under[j] && !Names(s, slots, KeyOf(s, r)))
  {
  }

  lemma SlotSortsFirst(s: Schema, cmp: Compare<Key>, slots: seq<Slot>, i: nat, under: seq<Row>, j: nat)
    requires KeyOrder(cmp) && SlotsAscend(s, cmp, slots) && RowsAscend(s, cmp, under) &&
             Crossed(s, cmp, slots, i, under, j)
    requires i < |slots| && j <= |under|
    requires j == |under| || cmp(KeyOf(s, slots[i].row), KeyOf(s, under[j])) < 0
    ensures forall b :: j <= b < |under| ==> cmp(KeyOf(s, slots[i].row), KeyOf(s, under[b])) < 0
    ensures Crossed(s, cmp, slots, i + 1, under, j)
  {
    forall b | j <= b < |under| ensures cmp(KeyOf(s, slots[i].row), KeyOf(s, under[b])) < 0 {
      if b > j { Before(cmp, KeyOf(s, slots[i].row), KeyOf(s, under[j]), KeyOf(s, under[b])); }
    }
  }

  lemma RowSortsFirst(s: Schema, cmp: Compare<Key>, slots: seq<Slot>, i: nat, under: seq<Row>, j: nat)
    requires KeyOrder(cmp) && SlotsAscend(s, cmp, slots) && RowsAscend(s, cmp, under) &&
             Crossed(s, cmp, slots, i, under, j)
    requires i <= |slots| && j < |under|
    requires i == |slots| || cmp(KeyOf(s, slots[i].row), KeyOf(s, under[j])) > 0
    ensures forall b :: i <= b < |slots| ==> cmp(KeyOf(s, under[j]), KeyOf(s, slots[b].row)) < 0
    ensures Crossed(s, cmp, slots, i, under, j + 1)
    ensures !Names(s, slots, KeyOf(s, under[j]))
  {
    forall b | i <= b < |slots| ensures cmp(KeyOf(s, under[j]), KeyOf(s, slots[b].row)) < 0 {
      assert Mirrored(cmp, KeyOf(s, slots[i].row), KeyOf(s, under[j]));
      if b > i { Before(cmp, KeyOf(s, under[j]), KeyOf(s, slots[i].row), KeyOf(s, slots[b].row)); }
    }
    forall a | 0 <= a < |slots| ensures KeyOf(s, slots[a].row) != KeyOf(s, under[j]) {
      assert TiesAreEqual(cmp, KeyOf(s, slots[a].row), KeyOf(s, under[j]));
      assert Mirrored(cmp, KeyOf(s, slots[a].row), KeyOf(s, under[j]));
    }
  }

  lemma KeysMeet(s: Schema, cmp: Compare<Key>, slots: seq<Slot>, i: nat, under: seq<Row>, j: nat)
    requires KeyOrder(cmp) && SlotsAscend(s, cmp, slots) && RowsAscend(s, cmp, under) &&
             Crossed(s, cmp, slots, i, under, j)
    requires i < |slots| && j < |under| && cmp(KeyOf(s, slots[i].row), KeyOf(s, under[j])) == 0
    ensures Crossed(s, cmp, slots, i + 1, under, j + 1)
    ensures Names(s, slots, KeyOf(s, under[j]))
    ensures forall b :: j < b < |under| ==> cmp(KeyOf(s, slots[i].row), KeyOf(s, under[b])) < 0
  {
    assert TiesAreEqual(cmp, KeyOf(s, slots[i].row), KeyOf(s, under[j]));
    assert KeyOf(s, slots[i].row) == KeyOf(s, under[j]);
  }

  /** Everything emitted sorts before everything left. */
  ghost predicate Behind(s: Schema, cmp: Compare<Key>, out: seq<Row>, slots: seq<Slot>, i: nat, under: seq<Row>,
                         j: nat) {
    && (forall a, b :: 0 <= a < |out| && i <= b < |slots| ==> cmp(KeyOf(s, out[a]), KeyOf(s, slots[b].row)) < 0)
    && (forall a, b :: 0 <= a < |out| && j <= b < |under| ==> cmp(KeyOf(s, out[a]), KeyOf(s, under[b])) < 0)
  }

  /** Each stream's consumed part sorts before the other's remainder. */
  ghost predicate Crossed(s: Schema, cmp: Compare<Key>, slots: seq<Slot>, i: nat, under: seq<Row>, j: nat) {
    && (forall a, b :: 0 <= a < i && a < |slots| && j <= b < |under| ==>
       cmp(KeyOf(s, slots[a].row), KeyOf(s, under[b])) < 0)
    && (forall a, b :: 0 <= a < j && a < |under| && i <= b < |slots| ==>
       cmp(KeyOf(s, under[a]), KeyOf(s, slots[b].row)) < 0)
  }

  function BySlotKey(s: Schema, cmp: Compare<Key>): Compare<Slot> {
    (a: Slot, b: Slot) => cmp(KeyOf(s, a.row), KeyOf(s, b.row))
  }

  lemma BySlotKeyOrders(s: Schema, cmp: Compare<Key>)
    requires Ordering(cmp)
    ensures Ordering(BySlotKey(s, cmp))
  {
    var lifted := BySlotKey(s, cmp);
    forall a: Slot, b: Slot ensures Mirrored(lifted, a, b) {
      assert Mirrored(cmp, KeyOf(s, a.row), KeyOf(s, b.row));
    }
    forall a: Slot, b: Slot, c: Slot ensures Chained(lifted, a, b, c) {
      assert Chained(cmp, KeyOf(s, a.row), KeyOf(s, b.row), KeyOf(s, c.row));
    }
  }

  ghost predicate EachOnce(s: Schema, slots: seq<Slot>) {
    forall i, j :: 0 <= i < j < |slots| ==> KeyOf(s, slots[i].row) != KeyOf(s, slots[j].row)
  }

  /** The staging module answers a seek with any superset of the staged rows in the window, in any order, each entry
      once. It owes no marker: a marker's cells outside the key are placeholders. */
  ghost predicate AnswersWindow(s: Schema, ov: Overlay, window: Row -> bool, answer: seq<Slot>) {
    && EachOnce(s, answer)
    && (forall x :: x in answer ==> x in ov.Values)
    && (forall k :: k in ov && ov[k].Live? && window(ov[k].row) ==> ov[k] in answer)
  }

  /** Live entries outside the window are dropped; markers always pass. */
  method WindowedEntries(s: Schema, window: Row -> bool, answer: seq<Slot>) returns (entries: seq<Slot>)
    requires EachOnce(s, answer)
    ensures EachOnce(s, entries)
    ensures forall x :: x in entries <==> x in answer && (x.Live? ==> window(x.row))
  {
    entries := [];
    for i := 0 to |answer|
      invariant EachOnce(s, entries)
      invariant forall x :: x in entries <==> x in answer[..i] && (x.Live? ==> window(x.row))
    {
      assert answer[..i + 1] == answer[..i] + [answer[i]];
      if answer[i].Marker? || window(answer[i].row) {
        forall j | 0 <= j < |entries| ensures KeyOf(s, entries[j].row) != KeyOf(s, answer[i].row) {
          assert entries[j] in entries;
          var h :| 0 <= h < i && answer[h] == entries[j];
        }
        entries := entries + [answer[i]];
      }
    }
    assert answer[..|answer|] == answer;
  }

  /** The entry at `k` hides a committed row of the window and takes no part in the merge itself: a live row that has
      left the window, or a marker the staging module did not return. */
  ghost predicate LeaksAt(base: Table, ov: Overlay, window: Row -> bool, answer: seq<Slot>, k: Key) {
    && k in base && k in ov && window(base[k])
    && (if ov[k].Live? then !window(ov[k].row) else ov[k] !in answer)
  }

  ghost predicate Leaks(base: Table, ov: Overlay, window: Row -> bool, answer: seq<Slot>) {
    exists k :: LeaksAt(base, ov, window, answer, k)
  }

  /** The staged entries of the window, sorted into the walk's order. */
  method SortedEntries(s: Schema, window: Row -> bool, cmp: Compare<Key>, answer: seq<Slot>) returns (sorted: seq<Slot>)
    requires KeyOrder(cmp) && EachOnce(s, answer)
    ensures SlotsAscend(s, cmp, sorted)
    ensures forall x :: x in sorted <==> x in answer && (x.Live? ==> window(x.row))
  {
    var entries := WindowedEntries(s, window, answer);
    BySlotKeyOrders(s, cmp);
    sorted := Sort(entries, BySlotKey(s, cmp));
    forall i, j | 0 <= i < j < |entries| ensures BySlotKey(s, cmp)(entries[i], entries[j]) != 0 {
      assert TiesAreEqual(cmp, KeyOf(s, entries[i].row), KeyOf(s, entries[j].row));
    }
    SortedWithoutTies(BySlotKey(s, cmp), entries, sorted);
    assert forall x :: x in sorted <==> x in entries by {
      assert forall x :: x in sorted <==> x in multiset(sorted);
      assert forall x :: x in entries <==> x in multiset(entries);
    }
    assert SlotsAscend(s, cmp, sorted) by {
      forall i, j | 0 <= i < j < |sorted| ensures cmp(KeyOf(s, sorted[i].row), KeyOf(s, sorted[j].row)) < 0 {
        assert BySlotKey(s, cmp)(sorted[i], sorted[j]) < 0;
      }
    }
  }

  /** A merged scan in primary-key order, each row once: it yields the rows of the merged view in the window, if and
      only if no entry that hides a committed row of the window is missing from the merge. */
  method MergedPrimaryQuery(s: Schema, base: Table, ov: Overlay, window: Row -> bool, cmp: Compare<Key>,
                            answer: seq<Slot>, under: seq<Row>)
    returns (out: seq<Row>)
    requires Keyed(s, base) && Staged(s, ov) && KeyOrder(cmp)
    requires AnswersWindow(s, ov, window, answer)
    requires RowsAscend(s, cmp, under) && forall r :: r in under <==> Matching(base, window, r)
    ensures RowsAscend(s, cmp, out)
    ensures forall r :: Matching(Merged(base, ov), window, r) ==> r in out
    ensures (forall r :: r in out <==> Matching(Merged(base, ov), window, r)) <==> !Leaks(base, ov, window, answer)
  {
    var entries := SortedEntries(s, window, cmp, answer);
    out := MergeStreams(s, entries, under, cmp);
    forall r ensures r in out <==> Matching(Merged(base, ov), window, r) || Leaked(s, base, ov, window, answer, r) {
      PrimaryRow(s, base, ov, window, answer, entries, under, r);
    }
    if k :| LeaksAt(base, ov, window, answer, k) {
      LeakIsNoRow(s, base, ov, window, answer, base[k]);
    }
  }

  /** The row is a committed one whose hiding entry is missing. */
  ghost predicate Leaked(s: Schema, base: Table, ov: Overlay, window: Row -> bool, answer: seq<Slot>, r: Row) {
    LeaksAt(base, ov, window, answer, KeyOf(s, r)) && base[KeyOf(s, r)] == r
  }

  lemma LeakIsNoRow(s: Schema, base: Table, ov: Overlay, window: Row -> bool, answer: seq<Slot>, r: Row)
    requires Keyed(s, base) && Staged(s, ov) && Leaked(s, base, ov, window, answer, r)
    ensures !Matching(Merged(base, ov), window, r)
  {
    MergedIsKeyed(s, base, ov);
  }

  lemma PrimaryRow(s: Schema, base: Table, ov: Overlay, window: Row -> bool, answer: seq<Slot>, entries: seq<Slot>,
                   under: seq<Row>, r: Row)
    requires Keyed(s, base) && Staged(s, ov) && AnswersWindow(s, ov, window, answer)
    requires forall x :: x in entries <==> x in answer && (x.Live? ==> window(x.row))
    requires forall r :: r in under <==> Matching(base, window, r)
    ensures Contributes(s, entries, |entries|, under, |under|, r) <==>
            Matching(Merged(base, ov), window, r) || Leaked(s, base, ov, window, answer, r)
  {
    var m, k := Merged(base, ov), KeyOf(s, r);
    MergedIsKeyed(s, base, ov);
    NamedByOwn(s, ov, window, answer, entries, k);
    if Matching(m, window, r) {
      assert k in m && m[k] == r;
      if k in ov {
        assert Live(r) in entries;
      } else {
        assert Matching(base, window, r) && r in under;
      }
    }
    if Leaked(s, base, ov, window, answer, r) {
      assert Matching(base, window, r) && r in under;
    }
    if exists a :: 0 <= a < |entries| && entries[a] == Live(r) {
      assert Live(r) in entries;
      assert k in m && m[k] == r;
    }
    if r in under && !Names(s, entries, k) {
      assert k in base && base[k] == r && window(r);
      assert k !in ov ==> k in m && m[k] == r;
    }
  }

  /** A key is named by the merge's entries exactly when its own entry is among them. */
  lemma NamedByOwn(s: Schema, ov: Overlay, window: Row -> bool, answer: seq<Slot>, entries: seq<Slot>, k: Key)
    requires Staged(s, ov) && AnswersWindow(s, ov, window, answer)
    requires forall x :: x in entries <==> x in answer && (x.Live? ==> window(x.row))
    ensures Names(s, entries, k) <==> k in ov && ov[k] in entries
  {
    if Names(s, entries, k) {
      var a :| 0 <= a < |entries| && KeyOf(s, entries[a].row) == k;
      assert entries[a] in entries;
      assert entries[a] in ov.Values;
    }
    if k in ov && ov[k] in entries {
      var a :| 0 <= a < |entries| && entries[a] == ov[k];
    }
  }

  function OnKey(s: Schema, window: Key -> bool): Row -> bool {
    row => window(KeyOf(s, row))
  }

  /** A window on the key alone leaks nothing, when the staging module returns its markers in the window too. */
  lemma KeyWindowsNeverLeak(s: Schema, base: Table, ov: Overlay, window: Key -> bool, answer: seq<Slot>)
    requires Keyed(s, base) && Staged(s, ov)
    requires forall k :: k in ov && ov[k].Marker? && window(k) ==> ov[k] in answer
    ensures !Leaks(base, ov, OnKey(s, window), answer)
  {
    forall k ensures !LeaksAt(base, ov, OnKey(s, window), answer, k) {
      if k in base && k in ov {
        assert KeyOf(s, base[k]) == k == KeyOf(s, ov[k].row);
      }
    }
  }

  /** A window on another column can: the staged row has left the window, the committed one it replaces has not, and
      the scan yields a row the connection has overwritten. */
  lemma OverwrittenRowLeaks()
    ensures var s := Schema(2, [Column(0, NeverText, "BINARY")], None, [], (c, v) => v);
            var base: Table, ov: Overlay := map[[Num(1)] := [Num(1), Num(5)]], map[[Num(1)] := Live([Num(1), Num(9)])];
            var window := (row: Row) => Cell(row, 1) == Num(5);
            && Keyed(s, base) && Staged(s, ov) && AnswersWindow(s, ov, window, []) && Leaks(base, ov, window, [])
            && forall r :: !Matching(Merged(base, ov), window, r)
  {
    var s := Schema(2, [Column(0, NeverText, "BINARY")], None, [], (c, v) => v);
    var base: Table, ov: Overlay := map[[Num(1)] := [Num(1), Num(5)]], map[[Num(1)] := Live([Num(1), Num(9)])];
    var window := (row: Row) => Cell(row, 1) == Num(5);
    assert PkOf(s, [Num(1), Num(5)]) == [Num(1)] == PkOf(s, [Num(1), Num(9)]);
    assert KeyOf(s, [Num(1), Num(5)]) == [Num(1)] == KeyOf(s, [Num(1), Num(9)]);
    assert LeaksAt(base, ov, window, [], [Num(1)]);
    assert Merged(base, ov) == map[[Num(1)] := [Num(1), Num(9)]];
  }

  // ---- the secondary-index merge ----------------------------------------------------------------

  /** An index walk order on rows: the key breaks every tie. */
  ghost predicate IndexOrder(s: Schema, cmp: Compare<Row>) {
    Ordering(cmp) && forall a, b :: TiesShareKey(s, cmp, a, b)
  }

  predicate TiesShareKey(s: Schema, cmp: Compare<Row>, a: Row, b: Row) {
    cmp(a, b) == 0 ==> KeyOf(s, a) == KeyOf(s, b)
  }

  ghost predicate Matching(t: Table, matches: Row -> bool, r: Row) {
    exists k :: k in t && t[k] == r && matches(r)
  }

  /** Each staged entry, once, in any order. */
  ghost predicate Scans(s: Schema, ov: Overlay, scan: seq<Slot>) {
    EachOnce(s, scan) && forall x :: x in scan <==> x in ov.Values
  }

  method SplitScan(s: Schema, matches: Row -> bool, scan: seq<Slot>) returns (modified: set<Key>, rows: seq<Row>)
    requires EachOnce(s, scan)
    ensures forall k :: k in modified <==> Names(s, scan, k)
    ensures forall r :: r in rows <==> Live(r) in scan && matches(r)
    ensures forall i, j :: 0 <= i < j < |rows| ==> KeyOf(s, rows[i]) != KeyOf(s, rows[j])
  {
    modified, rows := {}, [];
    for i := 0 to |scan|
      invariant forall k :: k in modified <==> Names(s, scan[..i], k)
      invariant forall r :: r in rows <==> Live(r) in scan[..i] && matches(r)
      invariant forall i, j :: 0 <= i < j < |rows| ==> KeyOf(s, rows[i]) != KeyOf(s, rows[j])
    {
      assert scan[..i + 1] == scan[..i] + [scan[i]];
      NamesOneMore(s, scan[..i], scan[i]);
      modified := modified + {KeyOf(s, scan[i].row)};
      if scan[i].Live? && matches(scan[i].row) {
        forall j | 0 <= j < |rows| ensures KeyOf(s, rows[j]) != KeyOf(s, scan[i].row) {
          assert rows[j] in rows;
          var h :| 0 <= h < i && scan[h] == Live(rows[j]);
        }
        rows := rows + [scan[i].row];
      }
    }
    assert scan[..|scan|] == scan;
  }

  lemma NamesOneMore(s: Schema, slots: seq<Slot>, x: Slot)
    ensures forall k :: Names(s, slots + [x], k) <==> Names(s, slots, k) || k == KeyOf(s, x.row)
  {
    var all := slots + [x];
    forall k | Names(s, slots, k) ensures Names(s, all, k) {
      var a :| 0 <= a < |slots| && KeyOf(s, slots[a].row) == k;
      assert KeyOf(s, all[a].row) == k;
    }
    assert KeyOf(s, all[|slots|].row) == KeyOf(s, x.row);
  }

  ghost predicate Given(s: Schema, rows: seq<Row>, i: nat, under: seq<Row>, j: nat, modified: set<Key>, r: Row)
    requires i <= |rows| && j <= |under|
  {
    || (exists a :: 0 <= a < i && rows[a] == r)
    || (exists b :: 0 <= b < j && under[b] == r && KeyOf(s, r) !in modified)
  }

  /** The state between two steps of the secondary merge. */
  ghost predicate Weaving(s: Schema, cmp: Compare<Row>, rows: seq<Row>, i: nat, under: seq<Row>, j: nat,
                          modified: set<Key>, out: seq<Row>) {
    && i <= |rows| && j <= |under|
    && Ascending(cmp, out)
    && (forall r :: r in out <==> Given(s, rows, i, under, j, modified, r))
    && (forall a, b :: 0 <= a < |out| && i <= b < |rows| ==> cmp(out[a], rows[b]) < 0)
    && (forall a, b :: 0 <= a < |out| && j <= b < |under| && KeyOf(s, under[b]) !in modified ==>
       cmp(out[a], under[b]) < 0)
  }

  lemma WeaveStaged(s: Schema, cmp: Compare<Row>, rows: seq<Row>, i: nat, under: seq<Row>, j: nat, modified: set<Key>,
                    out: seq<Row>)
    requires IndexOrder(s, cmp) && Ascending(cmp, rows) && Ascending(cmp, under) &&
             Weaving(s, cmp, rows, i, under, j, modified, out)
    requires i < |rows| && KeyOf(s, rows[i]) in modified
    requires j < |under| ==> cmp(rows[i], under[j]) <= 0
    ensures Weaving(s, cmp, rows, i + 1, under, j, modified, out + [rows[i]])
  {
    forall b | j <= b < |under| && KeyOf(s, under[b]) !in modified ensures cmp(rows[i], under[b]) < 0 {
      if b == j {
        assert TiesShareKey(s, cmp, rows[i], under[b]);
      } else {
        Before(cmp, rows[i], under[j], under[b]);
      }
    }
    GivenStaged(s, rows, i, under, j, modified);
  }

  lemma GivenStaged(s: Schema, rows: seq<Row>, i: nat, under: seq<Row>, j: nat, modified: set<Key>)
    requires i < |rows| && j <= |under|
    ensures forall r :: Given(s, rows, i + 1, under, j, modified, r) <==>
            Given(s, rows, i, under, j, modified, r) || r == rows[i]
  {
    assert Given(s, rows, i + 1, under, j, modified, rows[i]) by { assert 0 <= i < i + 1 && rows[i] == rows[i]; }
  }

  lemma GivenUnder(s: Schema, rows: seq<Row>, i: nat, under: seq<Row>, j: nat, modified: set<Key>)
    requires i <= |rows| && j < |under|
    ensures forall r :: Given(s, rows, i, under, j + 1, modified, r)
                   <==> Given(s, rows, i, under, j, modified, r) || (r == under[j] && KeyOf(s, r) !in modified)
  {
  }

  lemma WeaveUnder(s: Schema, cmp: Compare<Row>, rows: seq<Row>, i: nat, under: seq<Row>, j: nat, modified: set<Key>,
                   out: seq<Row>)
    requires IndexOrder(s, cmp) && Ascending(cmp, rows) && Ascending(cmp, under) &&
             Weaving(s, cmp, rows, i, under, j, modified, out)
    requires j < |under| && KeyOf(s, under[j]) !in modified
    requires i < |rows| ==> cmp(rows[i], under[j]) > 0
    ensures Weaving(s, cmp, rows, i, under, j + 1, modified, out + [under[j]])
  {
    forall b | i <= b < |rows| ensures cmp(under[j], rows[b]) < 0 {
      assert Mirrored(cmp, rows[i], under[j]);
      if b > i { Before(cmp, under[j], rows[i], rows[b]); }
    }
    GivenUnder(s, rows, i, under, j, modified);
  }

  /** A merged scan in an index's order, for any window on rows: the overlay is read whole, committed rows
      whose key it names are passed over, and its own matching rows are woven in by sort key. */
  method MergedSecondaryIndexQuery(s: Schema, base: Table, ov: Overlay, matches: Row -> bool, cmp: Compare<Row>,
                                   scan: seq<Slot>, under: seq<Row>)
    returns (out: seq<Row>)
    requires Keyed(s, base) && Staged(s, ov) && IndexOrder(s, cmp) && Scans(s, ov, scan)
    requires Ascending(cmp, under) && forall r :: r in under <==> Matching(base, matches, r)
    ensures Ascending(cmp, out)
    ensures forall r :: r in out <==> Matching(Merged(base, ov), matches, r)
  {
    var modified, collected := SplitScan(s, matches, scan);
    var rows := SortByIndex(s, cmp, collected);
    assert forall a :: 0 <= a < |rows| ==> KeyOf(s, rows[a]) in modified by {
      forall a | 0 <= a < |rows| ensures KeyOf(s, rows[a]) in modified {
        assert rows[a] in rows;
        var h :| 0 <= h < |scan| && scan[h] == Live(rows[a]);
      }
    }
    out := WeaveRows(s, cmp, rows, under, modified);
    forall r ensures Given(s, rows, |rows|, under, |under|, modified, r) <==> Matching(Merged(base, ov), matches, r) {
      SecondaryRow(s, base, ov, matches, scan, modified, rows, under, r);
    }
  }

  /** Step 3: the index walk with touched keys left out, the sorted staged rows put in where they belong. */
  method WeaveRows(s: Schema, cmp: Compare<Row>, rows: seq<Row>, under: seq<Row>, modified: set<Key>)
                   returns (out: seq<Row>)
    requires IndexOrder(s, cmp) && Ascending(cmp, rows) && Ascending(cmp, under)
    requires forall a :: 0 <= a < |rows| ==> KeyOf(s, rows[a]) in modified
    ensures Ascending(cmp, out)
    ensures forall r :: r in out <==> Given(s, rows, |rows|, under, |under|, modified, r)
  {
    out := [];
    var oi := 0;
    for j := 0 to |under|
      invariant oi <= |rows| && Weaving(s, cmp, rows, oi, under, j, modified, out)
    {
      if KeyOf(s, under[j]) in modified {
        GivenUnder(s, rows, oi, under, j, modified);
      } else {
        while oi < |rows| && cmp(rows[oi], under[j]) <= 0
          invariant oi <= |rows| && Weaving(s, cmp, rows, oi, under, j, modified, out)
        {
          WeaveStaged(s, cmp, rows, oi, under, j, modified, out);
          out, oi := out + [rows[oi]], oi + 1;
        }
        WeaveUnder(s, cmp, rows, oi, under, j, modified, out);
        out := out + [under[j]];
      }
    }
    while oi < |rows|
      invariant oi <= |rows| && Weaving(s, cmp, rows, oi, under, |under|, modified, out)
    {
      WeaveStaged(s, cmp, rows, oi, under, |under|, modified, out);
      out, oi := out + [rows[oi]], oi + 1;
    }
  }

  method SortByIndex(s: Schema, cmp: Compare<Row>, rows: seq<Row>) returns (out: seq<Row>)
    requires IndexOrder(s, cmp)
    requires forall i, j :: 0 <= i < j < |rows| ==> KeyOf(s, rows[i]) != KeyOf(s, rows[j])
    ensures Ascending(cmp, out) && forall r :: r in out <==> r in rows
  {
    out := Sort(rows, cmp);
    forall i, j | 0 <= i < j < |rows| ensures cmp(rows[i], rows[j]) != 0 {
      assert TiesShareKey(s, cmp, rows[i], rows[j]);
    }
    SortedWithoutTies(cmp, rows, out);
    assert forall x :: x in out <==> x in multiset(out);
    assert forall x :: x in rows <==> x in multiset(rows);
  }

  lemma SecondaryRow(s: Schema, base: Table, ov: Overlay, matches: Row -> bool, scan: seq<Slot>, modified: set<Key>,
                     rows: seq<Row>, under: seq<Row>, r: Row)
    requires Keyed(s, base) && Staged(s, ov) && Scans(s, ov, scan)
    requires forall k :: k in modified <==> Names(s, scan, k)
    requires forall r :: r in rows <==> Live(r) in scan && matches(r)
    requires forall r :: r in under <==> Matching(base, matches, r)
    ensures Given(s, rows, |rows|, under, |under|, modified, r) <==> Matching(Merged(base, ov), matches, r)
  {
    var m, k := Merged(base, ov), KeyOf(s, r);
    MergedIsKeyed(s, base, ov);
    ModifiedIsStaged(s, ov, scan, modified, k);
    if Matching(m, matches, r) {
      assert k in m && m[k] == r;
      if k in ov {
        assert r in rows;
      } else {
        assert Matching(base, matches, r);
        assert r in under;
      }
    }
    if r in rows {
      assert k in m && m[k] == r;
    }
    if r in under && k !in modified {
      assert Matching(base, matches, r);
      assert k in m && m[k] == r;
    }
  }

  lemma ModifiedIsStaged(s: Schema, ov: Overlay, scan: seq<Slot>, modified: set<Key>, k: Key)
    requires Staged(s, ov) && Scans(s, ov, scan)
    requires forall k :: k in modified <==> Names(s, scan, k)
    ensures k in modified <==> k in ov
  {
    if k in ov {
      assert ov[k] in scan;
      var a :| 0 <= a < |scan| && scan[a] == ov[k];
    }
    if k in modified {
      var a :| 0 <= a < |scan| && KeyOf(s, scan[a].row) == k;
      assert scan[a] in scan;
    }
  }

  // ---- the plain enumeration --------------------------------------------------------------------

  /** Committed rows whose key is not among the staged ones. */
  method Unshadowed(s: Schema, rows: seq<Row>, staged: set<Key>) returns (out: seq<Row>)
    requires RowsOnce(s, rows)
    ensures RowsOnce(s, out) && forall r :: r in out <==> r in rows && KeyOf(s, r) !in staged
  {
    out := [];
    for i := 0 to |rows|
      invariant RowsOnce(s, out)
      invariant forall r :: r in out <==> r in rows[..i] && KeyOf(s, r) !in staged
    {
      assert rows[..i + 1] == rows[..i] + [rows[i]];
      if KeyOf(s, rows[i]) !in staged {
        forall j | 0 <= j < |out| ensures KeyOf(s, out[j]) != KeyOf(s, rows[i]) {
          assert out[j] in out;
          var h :| 0 <= h < i && rows[h] == out[j];
        }
        out := out + [rows[i]];
      }
    }
    assert rows[..|rows|] == rows;
  }

  /** The staged live rows put after rows that share no key with any entry. */
  method WithLive(s: Schema, rows: seq<Row>, entries: seq<Slot>) returns (out: seq<Row>)
    requires RowsOnce(s, rows) && EachOnce(s, entries)
    requires forall r, x :: r in rows && x in entries ==> KeyOf(s, r) != KeyOf(s, x.row)
    ensures RowsOnce(s, out) && forall r :: r in out <==> r in rows || Live(r) in entries
  {
    out := rows;
    for i := 0 to |entries|
      invariant RowsOnce(s, out)
      invariant forall r :: r in out <==> r in rows || Live(r) in entries[..i]
    {
      assert entries[..i + 1] == entries[..i] + [entries[i]];
      if entries[i].Live? {
        forall j | 0 <= j < |out| ensures KeyOf(s, out[j]) != KeyOf(s, entries[i].row) {
          assert out[j] in out && entries[i] in entries;
          if Live(out[j]) in entries[..i] {
            var h :| 0 <= h < i && entries[h] == Live(out[j]);
          }
        }
        out := out + [entries[i].row];
      }
    }
    assert entries[..|entries|] == entries;
  }

  /** The rows a row-validating statement judges: committed rows no staged entry names, then the staged
      live rows, each once, in no particular order. */
  method IterateEffectiveRows(s: Schema, base: Table, ov: Overlay, entries: seq<Slot>, rows: seq<Row>)
                              returns (out: seq<Row>)
    requires Keyed(s, base) && Staged(s, ov) && Scans(s, ov, entries)
    requires RowsOnce(s, rows) && forall r :: r in rows <==> r in base.Values
    ensures RowsOnce(s, out)
    ensures forall r :: r in out <==> Matching(Merged(base, ov), row => true, r)
  {
    var staged := set i | 0 <= i < |entries| :: KeyOf(s, entries[i].row);
    StagedKeys(s, ov, entries, staged);
    out := Unshadowed(s, rows, staged);
    out := WithLive(s, out, entries);
    forall r ensures r in out <==> Matching(Merged(base, ov), row => true, r) {
      EffectiveRow(s, base, ov, r);
    }
  }

  lemma StagedKeys(s: Schema, ov: Overlay, entries: seq<Slot>, staged: set<Key>)
    requires Staged(s, ov) && Scans(s, ov, entries)
    requires staged == set i | 0 <= i < |entries| :: KeyOf(s, entries[i].row)
    ensures staged == ov.Keys
  {
    forall k | k in ov ensures k in staged {
      assert ov[k] in ov.Values;
      var i :| 0 <= i < |entries| && entries[i] == ov[k];
    }
    forall k | k in staged ensures k in ov {
      var i :| 0 <= i < |entries| && KeyOf(s, entries[i].row) == k;
      assert entries[i] in entries;
    }
  }

  lemma EffectiveRow(s: Schema, base: Table, ov: Overlay, r: Row)
    requires Keyed(s, base) && Staged(s, ov)
    ensures Matching(Merged(base, ov), row => true, r)
       <==> (r in base.Values && KeyOf(s, r) !in ov) || Live(r) in ov.Values
  {
    var m, k := Merged(base, ov), KeyOf(s, r);
    MergedIsKeyed(s, base, ov);
    if Matching(m, row => true, r) {
      assert k in m && m[k] == r;
    }
    if r in base.Values && k !in ov {
      assert k in m && m[k] == r;
    }
    if Live(r) in ov.Values {
      assert k in m && m[k] == r;
    }
  }

  // ---- one answer, whichever way it is read -----------------------------------------------------

  lemma EmptyHasNoMember<T(!new)>(s: seq<T>)
    ensures s == [] <==> forall x :: x !in s
  {
    if s != [] {
      assert s[0] in s;
    }
  }

  /** Two strictly ordered scans of the same rows are the same scan. */
  lemma {:induction false} OrderedScanIsUnique<T(!new)>(cmp: Compare<T>, a: seq<T>, b: seq<T>)
    requires Ordering(cmp) && Ascending(cmp, a) && Ascending(cmp, b)
    requires forall x :: x in a <==> x in b
    ensures a == b
    decreases |a|
  {
    if a == [] || b == [] {
      EmptyHasNoMember(a);
      EmptyHasNoMember(b);
    } else {
      assert a[0] in a && a[0] in b;
      assert b[0] in b && b[0] in a;
      var i :| 0 <= i < |b| && b[i] == a[0];
      var j :| 0 <= j < |a| && a[j] == b[0];
      assert Mirrored(cmp, a[0], b[0]);
      assert a[0] == b[0];
      TailsAgree(cmp, a, b);
      OrderedScanIsUnique(cmp, a[1..], b[1..]);
      assert a == [a[0]] + a[1..] && b == [b[0]] + b[1..];
    }
  }

  lemma TailsAgree<T(!new)>(cmp: Compare<T>, a: seq<T>, b: seq<T>)
    requires Ordering(cmp) && Ascending(cmp, a) && Ascending(cmp, b)
    requires a != [] && b != [] && a[0] == b[0] && forall x :: x in a <==> x in b
    ensures forall x :: x in a[1..] <==> x in b[1..]
  {
    forall x ensures x in a[1..] <==> x in b[1..] {
      if x in a[1..] {
        var i :| 1 <= i < |a| && a[i] == x;
        assert x in a;
        var j :| 0 <= j < |b| && b[j] == x;
        assert Mirrored(cmp, x, x);
      }
      if x in b[1..] {
        var i :| 1 <= i < |b| && b[i] == x;
        assert x in b;
        var j :| 0 <= j < |a| && a[j] == x;
        assert Mirrored(cmp, x, x);
      }
    }
  }

  /** A reversed scan gives the forward scan's rows back to front. */
  lemma ReversedScanIsBackward<T(!new)>(cmp: Compare<T>, forward: seq<T>, reversed: seq<T>)
    requires Ordering(cmp) && Ascending(cmp, forward) && Ascending(Reversed(cmp), reversed)
    requires forall x :: x in forward <==> x in reversed
    ensures reversed == Backward(forward)
  {
    var back := Backward(forward);
    ReversedOrders(cmp);
    forall i, j | 0 <= i < j < |back| ensures Reversed(cmp)(back[i], back[j]) < 0 {
      assert Mirrored(cmp, back[j], back[i]);
    }
    forall x ensures x in back <==> x in forward {
      if x in forward {
        var i :| 0 <= i < |forward| && forward[i] == x;
        assert back[|forward| - 1 - i] == x;
      }
    }
    OrderedScanIsUnique(Reversed(cmp), reversed, back);
  }
}
