/** Privileged writes to a derived table: point writes, prefix deletes and whole replacements, each reporting the
    changes it really made. Rows are compared byte for byte, keys under their collation. */
module BackingHost {
  import opened Rows

  datatype Change = Inserted(row: Row) | Updated(was: Row, row: Row) | Deleted(row: Row)

  datatype Op = DeleteKey(pk: Pk) | Upsert(row: Row) | DeleteByPrefix(prefix: seq<Value>) | ReplaceAll(rows: seq<Row>)

  // ---- what reported changes mean ---------------------------------------------------------------

  function Replayed(s: Schema, t: Table, c: Change): Table {
    if c.Deleted? then t - {KeyOf(s, c.row)} else t[KeyOf(s, c.row) := c.row]
  }

  function Replay(s: Schema, t: Table, changes: seq<Change>): Table {
    if changes == [] then t else Replayed(s, Replay(s, t, changes[..|changes| - 1]), changes[|changes| - 1])
  }

  /** The change says what was there and makes a difference. */
  predicate Effective(s: Schema, t: Table, c: Change) {
    var k := KeyOf(s, c.row);
    match c
    case Inserted(row) => k !in t
    case Updated(was, row) => k in t && t[k] == was && was != row
    case Deleted(row) => k in t && t[k] == row
  }

  predicate AllEffective(s: Schema, t: Table, changes: seq<Change>) {
    changes == [] || (AllEffective(s, t, changes[..|changes| - 1])
                      && Effective(s, Replay(s, t, changes[..|changes| - 1]), changes[|changes| - 1]))
  }

  function NetOf(c: Change): int {
    match c case Inserted(_) => 1 case Updated(_, _) => 0 case Deleted(_) => -1
  }

  /** The row-count delta the changes carry. */
  function Net(changes: seq<Change>): int {
    if changes == [] then 0 else Net(changes[..|changes| - 1]) + NetOf(changes[|changes| - 1])
  }

  lemma OneChangeCounts(s: Schema, t: Table, c: Change)
    requires Effective(s, t, c)
    ensures |Replayed(s, t, c)| == |t| + NetOf(c)
  {
    var k := KeyOf(s, c.row);
    if c.Deleted? {
      assert t.Keys == (t - {k}).Keys + {k};
    } else if c.Updated? {
      assert t[k := c.row].Keys == t.Keys;
    }
  }

  /** Deltas of effective changes sum to the change in size. */
  lemma {:induction false} NetIsSizeDifference(s: Schema, t: Table, changes: seq<Change>)
    requires AllEffective(s, t, changes)
    ensures |Replay(s, t, changes)| == |t| + Net(changes)
  {
    if changes != [] {
      var before := changes[..|changes| - 1];
      NetIsSizeDifference(s, t, before);
      OneChangeCounts(s, Replay(s, t, before), changes[|changes| - 1]);
    }
  }

  /** Progress of a write: what has been reported so far takes the old contents to the present ones; while
      `exact`, each report also made a difference. */
  ghost predicate Accounts(s: Schema, was: Table, changes: seq<Change>, now: Table, delta: int, exact: bool) {
    Replay(s, was, changes) == now && delta == Net(changes) && (exact ==> AllEffective(s, was, changes))
  }

  lemma OneMore(s: Schema, was: Table, changes: seq<Change>, now: Table, delta: int, exact: bool, c: Change)
    requires Accounts(s, was, changes, now, delta, exact) && (exact ==> Effective(s, now, c))
    ensures Accounts(s, was, changes + [c], Replayed(s, now, c), delta + NetOf(c), exact)
  {
    assert (changes + [c])[..|changes|] == changes;
  }

  // ---- whole contents ---------------------------------------------------------------------------

  function TableOf(s: Schema, rows: seq<Row>): Table {
    if rows == [] then map[] else TableOf(s, rows[..|rows| - 1])[KeyOf(s, rows[|rows| - 1]) := rows[|rows| - 1]]
  }

  ghost predicate Named(s: Schema, rows: seq<Row>, k: Key) {
    exists i :: 0 <= i < |rows| && KeyOf(s, rows[i]) == k
  }

  lemma {:induction false} TableOfKey(s: Schema, rows: seq<Row>, k: Key)
    ensures k in TableOf(s, rows) <==> Named(s, rows, k)
  {
    if rows != [] {
      var rest := rows[..|rows| - 1];
      TableOfKey(s, rest, k);
      if Named(s, rest, k) {
        var i :| 0 <= i < |rest| && KeyOf(s, rest[i]) == k;
        assert rows[i] == rest[i];
      }
      if Named(s, rows, k) && KeyOf(s, rows[|rows| - 1]) != k {
        var i :| 0 <= i < |rows| && KeyOf(s, rows[i]) == k;
        assert rest[i] == rows[i];
      }
    }
  }

  lemma DistinctPrefix(s: Schema, rows: seq<Row>, n: nat)
    requires RowsOnce(s, rows) && n <= |rows|
    ensures RowsOnce(s, rows[..n])
  {
  }

  lemma LastIsNew(s: Schema, rows: seq<Row>)
    requires RowsOnce(s, rows) && rows != []
    ensures KeyOf(s, rows[|rows| - 1]) !in TableOf(s, rows[..|rows| - 1])
  {
    TableOfKey(s, rows[..|rows| - 1], KeyOf(s, rows[|rows| - 1]));
  }

  lemma {:induction false} TableOfRow(s: Schema, rows: seq<Row>, i: nat)
    requires RowsOnce(s, rows) && i < |rows|
    ensures KeyOf(s, rows[i]) in TableOf(s, rows) && TableOf(s, rows)[KeyOf(s, rows[i])] == rows[i]
    decreases |rows|
  {
    if i < |rows| - 1 {
      DistinctPrefix(s, rows, |rows| - 1);
      TableOfRow(s, rows[..|rows| - 1], i);
      LastIsNew(s, rows);
    }
  }

  /** Key-distinct rows make a table of as many rows. */
  lemma {:induction false} TableOfSize(s: Schema, rows: seq<Row>)
    requires RowsOnce(s, rows)
    ensures |TableOf(s, rows)| == |rows|
  {
    if rows != [] {
      DistinctPrefix(s, rows, |rows| - 1);
      TableOfSize(s, rows[..|rows| - 1]);
      LastIsNew(s, rows);
    }
  }

  /** A leading part of a key, folded as the key is. */
  function FoldedPrefix(s: Schema, prefix: seq<Value>): Key
    requires |prefix| <= |s.pk|
  {
    seq(|prefix|, i requires 0 <= i < |prefix| => Fold(s.folds, s.pk[i], prefix[i]))
  }

  function Matching(s: Schema, t: Table, prefix: Key): set<Key> {
    set k | k in t && prefix <= k
  }

  /** A row is under a prefix exactly when each of its leading key cells equals the given one, under that column's
      declared comparison. */
  lemma MatchesExactly(s: Schema, t: Table, prefix: seq<Value>, k: Key)
    requires |prefix| <= |s.pk| && Keyed(s, t) && k in t
    ensures k in Matching(s, t, FoldedPrefix(s, prefix)) <==>
            forall i :: 0 <= i < |prefix| ==>
              var c := s.pk[i];
              var a, b := prefix[i], Cell(t[k], c.index);
              if c.kind.NeverText? then a == b else s.folds(c.collation, a) == s.folds(c.collation, b)
  {
    var folded := FoldedPrefix(s, prefix);
    assert forall i :: 0 <= i < |s.pk| ==> KeyOf(s, t[k])[i] == Fold(s.folds, s.pk[i], Cell(t[k], s.pk[i].index));
    assert forall i :: 0 <= i < |prefix| ==> folded[i] == Fold(s.folds, s.pk[i], prefix[i]);
    assert folded <= k <==> forall i :: 0 <= i < |prefix| ==> folded[i] == k[i];
  }

  /** What one operation makes of the contents. */
  function AfterOp(s: Schema, t: Table, op: Op): Table {
    match op
    case DeleteKey(pk) => t - {Identity(s, pk)}
    case Upsert(row) => t[KeyOf(s, row) := row]
    case DeleteByPrefix(prefix) =>
      if |prefix| <= |s.pk| then t - Matching(s, t, FoldedPrefix(s, prefix)) else t
    case ReplaceAll(rows) => Replaced(s, t, rows)
  }

  function AfterOps(s: Schema, t: Table, ops: seq<Op>): Table {
    if ops == [] then t else AfterOp(s, AfterOps(s, t, ops[..|ops| - 1]), ops[|ops| - 1])
  }

  // ---- the host ---------------------------------------------------------------------------------

  class Host {
    const schema: Schema
    var rows: Table
    var delta: int
    var changes: seq<Change>

    constructor (s: Schema, t: Table)
      requires Keyed(s, t)
      ensures schema == s && rows == t && delta == 0 && changes == []
    {
      schema, rows, delta, changes := s, t, 0, [];
    }

    ghost predicate Accounted(was: Table, exact: bool)
      reads this
    {
      Keyed(schema, rows) && Accounts(schema, was, changes, rows, delta, exact)
    }

    /** One change made and reported. */
    method Report(c: Change, ghost was: Table, ghost exact: bool)
      requires Accounted(was, exact) && (exact ==> Effective(schema, rows, c))
      modifies this
      ensures Accounted(was, exact)
      ensures rows == Replayed(schema, old(rows), c) && delta == old(delta) + NetOf(c) && changes == old(changes) + [c]
    {
      OneMore(schema, was, changes, rows, delta, exact, c);
      var k := KeyOf(schema, c.row);
      match c {
        case Inserted(row) => rows, delta := rows[k := row], delta + 1;
        case Updated(_, row) => rows := rows[k := row];
        case Deleted(row) => rows, delta := rows - {k}, delta - 1;
      }
      changes := changes + [c];
    }

    /** Every operation in order. The reported changes replay the old contents into the new ones. While no
        replacement repeats a key, each change also made a difference and the counted delta is the change in size. */
    method ApplyMaintenance(ops: seq<Op>, ghost was: Table, ghost exact: bool)
      requires Accounted(was, exact)
      requires forall i :: 0 <= i < |ops| ==> (ops[i].DeleteByPrefix? ==> |ops[i].prefix| <= |schema.pk|)
      requires exact ==> forall i :: 0 <= i < |ops| ==> (ops[i].ReplaceAll? ==> RowsOnce(schema, ops[i].rows))
      modifies this
      ensures Accounted(was, exact) && (exact ==> |rows| == |was| + delta)
      ensures rows == AfterOps(schema, old(rows), ops)
    {
      for i := 0 to |ops|
        invariant Accounted(was, exact) && rows == AfterOps(schema, old(rows), ops[..i])
      {
        assert ops[..i + 1][..i] == ops[..i];
        ApplyOne(ops[i], was, exact);
      }
      assert ops[..|ops|] == ops;
      if exact {
        NetIsSizeDifference(schema, was, changes);
      }
    }

    method ApplyOne(op: Op, ghost was: Table, ghost exact: bool)
      requires Accounted(was, exact) && (op.DeleteByPrefix? ==> |op.prefix| <= |schema.pk|)
      requires exact && op.ReplaceAll? ==> RowsOnce(schema, op.rows)
      modifies this
      ensures Accounted(was, exact) && rows == AfterOp(schema, old(rows), op)
    {
      match op
      case DeleteKey(pk) => ApplyDelete(pk, was, exact);
      case Upsert(row) => ApplyUpsert(row, was, exact);
      case DeleteByPrefix(prefix) => ApplyDeleteByPrefix(prefix, was, exact);
      case ReplaceAll(all) => ApplyReplaceAll(all, was, exact);
    }

    method ApplyDelete(pk: Pk, ghost was: Table, ghost exact: bool)
      requires Accounted(was, exact)
      modifies this
      ensures Accounted(was, exact) && rows == old(rows) - {Identity(schema, pk)}
      ensures changes == old(changes) <==> rows == old(rows)
    {
      var k := Identity(schema, pk);
      if k in rows {
        Report(Deleted(rows[k]), was, exact);
      }
    }

    /** A row written over itself, byte for byte, is no change and is not reported. */
    method ApplyUpsert(row: Row, ghost was: Table, ghost exact: bool)
      requires Accounted(was, exact)
      modifies this
      ensures Accounted(was, exact) && rows == old(rows)[KeyOf(schema, row) := row]
      ensures changes == old(changes) <==> rows == old(rows)
    {
      var k := KeyOf(schema, row);
      if k in rows && rows[k] == row {
        return;
      }
      Report(if k in rows then Updated(rows[k], row) else Inserted(row), was, exact);
    }

    method ApplyDeleteByPrefix(prefix: seq<Value>, ghost was: Table, ghost exact: bool)
      requires Accounted(was, exact) && |prefix| <= |schema.pk|
      modifies this
      ensures Accounted(was, exact) && rows == old(rows) - Matching(schema, old(rows), FoldedPrefix(schema, prefix))
    {
      DeleteKeys(Matching(schema, rows, FoldedPrefix(schema, prefix)), was, exact);
    }

    /** Deletes rows known to be there. */
    method DeleteKeys(keys: set<Key>, ghost was: Table, ghost exact: bool)
      requires Accounted(was, exact) && keys <= rows.Keys
      modifies this
      ensures Accounted(was, exact) && rows == old(rows) - keys && delta == old(delta) - |keys|
      ensures keys == {} ==> changes == old(changes)
    {
      var left := keys;
      while left != {}
        invariant left <= keys && rows == old(rows) - (keys - left) && delta == old(delta) - |keys| + |left|
        invariant Accounted(was, exact) && (keys == {} ==> changes == old(changes))
        decreases |left|
      {
        var k :| k in left;
        Report(Deleted(rows[k]), was, exact);
        left := left - {k};
      }
      assert keys - {} == keys;
    }

    /** The keyed difference to the given rows, judged against the contents before. Key-distinct rows end as
        exactly the contents, and rows already the contents report nothing. The delta counted is the change in size
        if and only if no two rows share a key the contents lacked. */
    method ApplyReplaceAll(all: seq<Row>, ghost was: Table, ghost exact: bool)
      requires Accounted(was, exact) && (exact ==> RowsOnce(schema, all))
      modifies this
      ensures Accounted(was, exact) && rows == Replaced(schema, old(rows), all)
      ensures RowsOnce(schema, all) ==> rows == TableOf(schema, all)
      ensures old(rows) == TableOf(schema, all) && RowsOnce(schema, all) ==> changes == old(changes)
      ensures delta - old(delta) == |rows| - |old(rows)| <==> !Overcounts(schema, old(rows), all)
    {
      var before := rows;
      var newKeys := PutAll(all, was, exact);
      PutEachKeys(schema, before, all);
      PutEachSize(schema, before, all);
      DistinctPuts(schema, before, all);
      SizeWithout(rows, before.Keys - newKeys);
      DeleteKeys(before.Keys - newKeys, was, exact);
    }

    method PutAll(all: seq<Row>, ghost was: Table, ghost exact: bool) returns (newKeys: set<Key>)
      requires Accounted(was, exact) && (exact ==> RowsOnce(schema, all))
      modifies this
      ensures Accounted(was, exact) && newKeys == TableOf(schema, all).Keys
      ensures rows == PutEach(schema, old(rows), all) && delta == old(delta) + NewCount(schema, old(rows), all)
      ensures old(rows) == TableOf(schema, all) && RowsOnce(schema, all) ==> changes == old(changes)
    {
      var before := rows;
      newKeys := {};
      assert all[..0] == [];
      for i := 0 to |all|
        invariant Accounted(was, exact) && newKeys == TableOf(schema, all[..i]).Keys
        invariant rows == PutEach(schema, before, all[..i]) && delta == old(delta) + NewCount(schema, before, all[..i])
        invariant before == TableOf(schema, all) && RowsOnce(schema, all) ==> changes == old(changes)
      {
        assert all[..i + 1][..i] == all[..i];
        if RowsOnce(schema, all) {
          PrefixOfTable(schema, all, i);
          PutElsewhere(schema, before, all[..i], KeyOf(schema, all[i]));
        }
        ReplaceOne(before, all[i], was, exact);
        newKeys := newKeys + {KeyOf(schema, all[i])};
      }
      assert all[..|all|] == all;
    }

    /** One row of a replacement, judged against the contents before it. */
    method ReplaceOne(before: Table, row: Row, ghost was: Table, ghost exact: bool)
      requires Accounted(was, exact)
      requires exact ==>
                 var k := KeyOf(schema, row);
                 (k in rows <==> k in before) && (k in before ==> rows[k] == before[k])
      modifies this
      ensures Accounted(was, exact) && rows == PutOne(schema, before, old(rows), row)
      ensures delta == old(delta) + if KeyOf(schema, row) in before then 0 else 1
      ensures KeyOf(schema, row) in before && before[KeyOf(schema, row)] == row ==> changes == old(changes)
    {
      var k := KeyOf(schema, row);
      if k !in before {
        Report(Inserted(row), was, exact);
      } else if before[k] != row {
        Report(Updated(before[k], row), was, exact);
      }
    }

    /** Replaces the committed contents. A repeated key is refused before anything is written. Both branches leave
        exactly the given rows; the replicating one reports the difference, and nothing for rows already there. */
    method ReplaceContents(all: seq<Row>, replicates: bool) returns (ok: bool, deltas: seq<Change>)
      requires Keyed(schema, rows)
      modifies this`rows
      ensures ok <==> RowsOnce(schema, all)
      ensures !ok ==> rows == old(rows) && deltas == []
      ensures ok ==> rows == TableOf(schema, all) && |rows| == |all| && Keyed(schema, rows)
      ensures ok && replicates ==> AllEffective(schema, old(rows), deltas) && Replay(schema, old(rows), deltas) == rows
      ensures !replicates || rows == old(rows) ==> deltas == []
    {
      var entries: Table;
      ok, entries := CollectEntries(all);
      deltas := [];
      if !ok {
        return;
      }
      TableOfSize(schema, all);
      if replicates {
        var diff := new Host(schema, rows);
        diff.ApplyReplaceAll(all, rows, true);
        rows, deltas := diff.rows, diff.changes;
      } else {
        rows := SwapContents(rows, entries);
      }
    }

    /** The rows by key, or a refusal at the first repeated key. */
    method CollectEntries(all: seq<Row>) returns (ok: bool, entries: Table)
      ensures ok <==> RowsOnce(schema, all)
      ensures ok ==> entries == TableOf(schema, all) && Keyed(schema, entries)
    {
      entries := map[];
      assert all[..0] == [];
      for i := 0 to |all|
        invariant entries == TableOf(schema, all[..i]) && RowsOnce(schema, all[..i]) && Keyed(schema, entries)
      {
        var k := KeyOf(schema, all[i]);
        TableOfKey(schema, all[..i], k);
        if k in entries {
          var j :| 0 <= j < i && KeyOf(schema, all[..i][j]) == k;
          assert all[j] == all[..i][j];
          return false, entries;
        }
        assert all[..i + 1][..i] == all[..i];
        DistinctMore(schema, all, i);
        entries := entries[k := all[i]];
      }
      assert all[..|all|] == all;
      ok := true;
    }

    /** The streaming branch: one batch that deletes every key not rewritten and puts every entry. */
    method SwapContents(committed: Table, entries: Table) returns (next: Table)
      ensures next == entries
    {
      next := DropOthers(committed, entries);
      var puts := entries.Keys;
      while puts != {}
        invariant puts <= entries.Keys && forall k :: k in next ==> k in entries
        invariant forall k :: k in entries && k !in puts ==> k in next && next[k] == entries[k]
        decreases |puts|
      {
        var k :| k in puts;
        next, puts := next[k := entries[k]], puts - {k};
      }
      SameTable(next, entries);
    }

    method DropOthers(committed: Table, entries: Table) returns (next: Table)
      ensures forall k :: k in next ==> k in entries
    {
      next := committed;
      var left := committed.Keys;
      while left != {}
        invariant forall k :: k in next ==> k in left || k in entries
        decreases |left|
      {
        var k :| k in left;
        left := left - {k};
        if k !in entries {
          next := next - {k};
        }
      }
    }
  }

  lemma SameTable(a: Table, b: Table)
    requires forall k :: k in a ==> k in b
    requires forall k :: k in b ==> k in a && a[k] == b[k]
    ensures a == b
  {
  }

  lemma DistinctMore(s: Schema, rows: seq<Row>, i: nat)
    requires i < |rows| && RowsOnce(s, rows[..i]) && KeyOf(s, rows[i]) !in TableOf(s, rows[..i])
    ensures RowsOnce(s, rows[..i + 1])
  {
    TableOfKey(s, rows[..i], KeyOf(s, rows[i]));
    var less, more := rows[..i], rows[..i + 1];
    forall a, b | 0 <= a < b < |more| ensures KeyOf(s, more[a]) != KeyOf(s, more[b]) {
      assert less[a] == more[a];
      if b < i {
        assert less[b] == more[b];
      }
    }
  }

  // ---- a replacement, row by row ----------------------------------------------------------------

  function PutOne(s: Schema, before: Table, t: Table, row: Row): Table {
    var k := KeyOf(s, row);
    if k in before && before[k] == row then t else t[k := row]
  }

  /** Each row put unless the contents before already held it. */
  function PutEach(s: Schema, before: Table, rows: seq<Row>): Table {
    if rows == [] then before else PutOne(s, before, PutEach(s, before, rows[..|rows| - 1]), rows[|rows| - 1])
  }

  function NewCount(s: Schema, before: Table, rows: seq<Row>): nat {
    if rows == [] then 0
    else NewCount(s, before, rows[..|rows| - 1]) + if KeyOf(s, rows[|rows| - 1]) in before then 0 else 1
  }

  function Replaced(s: Schema, before: Table, rows: seq<Row>): Table {
    PutEach(s, before, rows) - (before.Keys - TableOf(s, rows).Keys)
  }

  /** Two rows share a key the contents lacked. */
  ghost predicate Overcounts(s: Schema, before: Table, rows: seq<Row>) {
    exists i, j :: 0 <= i < j < |rows| && KeyOf(s, rows[i]) == KeyOf(s, rows[j]) && KeyOf(s, rows[i]) !in before
  }

  lemma {:induction false} PutEachKeys(s: Schema, before: Table, rows: seq<Row>)
    ensures PutEach(s, before, rows).Keys == before.Keys + TableOf(s, rows).Keys
  {
    if rows != [] {
      PutEachKeys(s, before, rows[..|rows| - 1]);
    }
  }

  lemma {:induction false} PutElsewhere(s: Schema, before: Table, rows: seq<Row>, k: Key)
    requires k !in TableOf(s, rows)
    ensures (k in PutEach(s, before, rows) <==> k in before) &&
            (k in before ==> PutEach(s, before, rows)[k] == before[k])
  {
    if rows != [] {
      PutElsewhere(s, before, rows[..|rows| - 1], k);
    }
  }

  lemma PutOneSize(s: Schema, before: Table, t: Table, row: Row)
    requires before.Keys <= t.Keys
    ensures |PutOne(s, before, t, row)| == |t| + if KeyOf(s, row) in t then 0 else 1
  {
    var k := KeyOf(s, row);
    if k in t {
      assert t[k := row].Keys == t.Keys;
    } else {
      assert t[k := row].Keys == t.Keys + {k};
    }
  }

  /** Counting each row with a new key counts the growth, unless a new key is repeated. */
  lemma {:induction false} PutEachSize(s: Schema, before: Table, rows: seq<Row>)
    ensures |PutEach(s, before, rows)| <= |before| + NewCount(s, before, rows)
    ensures |PutEach(s, before, rows)| == |before| + NewCount(s, before, rows) <==> !Overcounts(s, before, rows)
  {
    if rows != [] {
      var rest, last := rows[..|rows| - 1], rows[|rows| - 1];
      PutEachSize(s, before, rest);
      PutEachKeys(s, before, rest);
      PutOneSize(s, before, PutEach(s, before, rest), last);
      TableOfKey(s, rest, KeyOf(s, last));
      OvercountsLast(s, before, rows);
    }
  }

  /** A replacement that names one new key twice: an empty table gains one row, and two are counted. */
  lemma RepeatedNewKeyIsCountedTwice()
    ensures var s := Schema(2, [Column(0, NeverText, "BINARY")], None, [], (c, v) => v);
            var rows := [[Num(1), Num(1)], [Num(1), Num(2)]];
            && Overcounts(s, map[], rows) && NewCount(s, map[], rows) == 2
            && Replaced(s, map[], rows) == map[[Num(1)] := [Num(1), Num(2)]] && |Replaced(s, map[], rows)| == 1
  {
    var s := Schema(2, [Column(0, NeverText, "BINARY")], None, [], (c, v) => v);
    var a, b := [Num(1), Num(1)], [Num(1), Num(2)];
    assert PkOf(s, a) == [Num(1)] == PkOf(s, b);
    assert KeyOf(s, a) == [Num(1)] == KeyOf(s, b);
    assert [a, b][..1] == [a] && [a][..0] == [];
    assert [a, b][0] == a && [a, b][1] == b;
    assert PutEach(s, map[], [a]) == map[[Num(1)] := a];
    assert PutEach(s, map[], [a, b]) == map[[Num(1)] := b];
  }

  lemma OvercountsLast(s: Schema, before: Table, rows: seq<Row>)
    requires rows != []
    ensures var rest, k := rows[..|rows| - 1], KeyOf(s, rows[|rows| - 1]);
            Overcounts(s, before, rows) <==> Overcounts(s, before, rest) || (k !in before && Named(s, rest, k))
  {
    var rest, k := rows[..|rows| - 1], KeyOf(s, rows[|rows| - 1]);
    if Overcounts(s, before, rest) {
      var i, j :| 0 <= i < j < |rest| && KeyOf(s, rest[i]) == KeyOf(s, rest[j]) && KeyOf(s, rest[i]) !in before;
      assert rows[i] == rest[i] && rows[j] == rest[j];
    }
    if k !in before && Named(s, rest, k) {
      var i :| 0 <= i < |rest| && KeyOf(s, rest[i]) == k;
      assert rows[i] == rest[i];
    }
    if Overcounts(s, before, rows) {
      var i, j :| 0 <= i < j < |rows| && KeyOf(s, rows[i]) == KeyOf(s, rows[j]) && KeyOf(s, rows[i]) !in before;
      assert rows[i] == rest[i];
      if j < |rest| {
        assert rows[j] == rest[j];
      }
    }
  }

  /** Key-distinct rows replace the contents by exactly themselves. */
  lemma DistinctPuts(s: Schema, before: Table, rows: seq<Row>)
    ensures RowsOnce(s, rows) ==> Replaced(s, before, rows) == TableOf(s, rows)
  {
    if RowsOnce(s, rows) {
      PutEachIsMerge(s, before, rows);
      OnlyNewLeft(before, TableOf(s, rows));
    }
  }

  lemma {:induction false} PutEachIsMerge(s: Schema, before: Table, rows: seq<Row>)
    requires RowsOnce(s, rows)
    ensures PutEach(s, before, rows) == before + TableOf(s, rows)
  {
    if rows != [] {
      var rest := rows[..|rows| - 1];
      DistinctPrefix(s, rows, |rows| - 1);
      PutEachIsMerge(s, before, rest);
      LastIsNew(s, rows);
      MergedStep(before, TableOf(s, rest), KeyOf(s, rows[|rows| - 1]), rows[|rows| - 1]);
    }
  }

  lemma SizeWithout(t: Table, gone: set<Key>)
    requires gone <= t.Keys
    ensures |t - gone| == |t| - |gone|
  {
    assert t.Keys == (t - gone).Keys + gone;
  }

  /** One more row of a key-distinct list. */
  lemma PrefixOfTable(s: Schema, rows: seq<Row>, i: nat)
    requires RowsOnce(s, rows) && i < |rows|
    ensures var k := KeyOf(s, rows[i]);
            && TableOf(s, rows[..i + 1]) == TableOf(s, rows[..i])[k := rows[i]] && k !in TableOf(s, rows[..i])
            && k in TableOf(s, rows) && TableOf(s, rows)[k] == rows[i]
  {
    assert rows[..i + 1][..i] == rows[..i];
    DistinctPrefix(s, rows, i + 1);
    LastIsNew(s, rows[..i + 1]);
    TableOfRow(s, rows, i);
  }

  lemma MergedStep(before: Table, some: Table, k: Key, row: Row)
    ensures before + some[k := row] == (before + some)[k := row]
    ensures k in before && before[k] == row && k !in some ==> before + some[k := row] == before + some
  {
  }

  lemma OnlyNewLeft(before: Table, after: Table)
    ensures (before + after) - (before.Keys - after.Keys) == after
  {
  }
}
