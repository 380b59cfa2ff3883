/** Applying an overlay to the table beneath it, without committing. */
module Flush {
  import opened Rows
  import opened MergedView
  import opened MergeScan

  // ---- what a flush amounts to ------------------------------------------------------------------

  /** One staged entry written through: a marker deletes, a live row inserts or updates. */
  function WriteThrough(s: Schema, t: Table, slot: Slot): Table {
    var k := KeyOf(s, slot.row);
    if slot.Marker? then t - {k} else t[k := slot.row]
  }

  function WriteAll(s: Schema, t: Table, slots: seq<Slot>): Table {
    if slots == [] then t else WriteThrough(s, WriteAll(s, t, slots[..|slots| - 1]), slots[|slots| - 1])
  }

  function AsOverlay(s: Schema, slots: seq<Slot>): Overlay {
    if slots == [] then map[]
    else AsOverlay(s, slots[..|slots| - 1])[KeyOf(s, slots[|slots| - 1].row) := slots[|slots| - 1]]
  }

  lemma {:induction false} WriteAllIsMerged(s: Schema, t: Table, slots: seq<Slot>)
    ensures WriteAll(s, t, slots) == Merged(t, AsOverlay(s, slots))
  {
    if slots != [] {
      var rest, last := slots[..|slots| - 1], slots[|slots| - 1];
      WriteAllIsMerged(s, t, rest);
      if last.Marker? {
        MarkerHides(t, AsOverlay(s, rest), KeyOf(s, last.row), last.row);
      } else {
        LiveShows(t, AsOverlay(s, rest), KeyOf(s, last.row), last.row);
      }
    } else {
      assert Merged(t, map[]) == t;
    }
  }

  lemma {:induction false} AsOverlayNames(s: Schema, slots: seq<Slot>)
    ensures forall k :: k in AsOverlay(s, slots) <==> Names(s, slots, k)
    ensures EachOnce(s, slots) ==>
              forall i :: 0 <= i < |slots| ==>
                            var k := KeyOf(s, slots[i].row);
                            k in AsOverlay(s, slots) && AsOverlay(s, slots)[k] == slots[i]
  {
    if slots != [] {
      var rest, last := slots[..|slots| - 1], slots[|slots| - 1];
      AsOverlayNames(s, rest);
      assert slots == rest + [last];
      NamesOneMore(s, rest, last);
      assert EachOnce(s, slots) ==> EachOnce(s, rest);
      assert forall i :: 0 <= i < |slots| ==> Names(s, slots, KeyOf(s, slots[i].row));
      if EachOnce(s, slots) {
        forall i | 0 <= i < |slots| ensures AsOverlay(s, slots)[KeyOf(s, slots[i].row)] == slots[i] {
          if i < |rest| {
            assert rest[i] == slots[i] && KeyOf(s, slots[i].row) != KeyOf(s, last.row);
          }
        }
      }
    }
  }

  /** Any enumeration of an overlay rebuilds it. */
  lemma ScanRebuildsOverlay(s: Schema, ov: Overlay, slots: seq<Slot>)
    requires Staged(s, ov) && Scans(s, ov, slots)
    ensures AsOverlay(s, slots) == ov
  {
    AsOverlayNames(s, slots);
    forall k ensures k in AsOverlay(s, slots) <==> k in ov {
      ModifiedIsStaged(s, ov, slots, AsOverlay(s, slots).Keys, k);
    }
    forall k | k in ov ensures AsOverlay(s, slots)[k] == ov[k] {
      assert ov[k] in slots;
      var i :| 0 <= i < |slots| && slots[i] == ov[k];
    }
  }

  /** Whatever order the entries are written in, the table ends as the merged view. */
  lemma FlushOrderIsImmaterial(s: Schema, t: Table, ov: Overlay, a: seq<Slot>, b: seq<Slot>)
    requires Staged(s, ov) && Scans(s, ov, a) && Scans(s, ov, b)
    ensures WriteAll(s, t, a) == WriteAll(s, t, b) == Merged(t, ov)
  {
    ScanRebuildsOverlay(s, ov, a);
    ScanRebuildsOverlay(s, ov, b);
    WriteAllIsMerged(s, t, a);
    WriteAllIsMerged(s, t, b);
  }

  /** Asking "is this key there?" before the first write gives the answer each write would have seen. */
  lemma EarlyProbesAgree(s: Schema, t: Table, slots: seq<Slot>, i: nat)
    requires EachOnce(s, slots) && i < |slots|
    ensures KeyOf(s, slots[i].row) in WriteAll(s, t, slots[..i]) <==> KeyOf(s, slots[i].row) in t
  {
    WriteAllIsMerged(s, t, slots[..i]);
    AsOverlayNames(s, slots[..i]);
    assert forall a :: 0 <= a < i ==> slots[..i][a] == slots[a];
  }

  // ---- the table beneath ------------------------------------------------------------------------

  datatype InsertAnswer = Done | KeyTaken | StorageFailed

  /** A transactional keyed table. `writesLeft` is how many more writes it can take before storage
      fails; none means it never does. */
  class UnderlyingTable {
    const schema: Schema
    var committed: Table
    var pending: Option<Table>
    var writesLeft: Option<nat>

    ghost predicate Valid()
      reads this
    {
      Keyed(schema, committed) && (pending.Some? ==> Keyed(schema, pending.value))
    }

    constructor (s: Schema, rows: Table)
      requires Keyed(s, rows)
      ensures Valid() && schema == s && committed == rows && pending == None && writesLeft == None
    {
      schema, committed, pending, writesLeft := s, rows, None, None;
    }

    method Begin()
      modifies this`pending
      ensures pending == if old(pending).Some? then old(pending) else Some(committed)
    {
      if pending.None? {
        pending := Some(committed);
      }
    }

    method Commit()
      modifies this`committed, this`pending
      ensures committed == if old(pending).Some? then old(pending).value else old(committed)
      ensures pending == None
    {
      if pending.Some? {
        committed := pending.value;
      }
      pending := None;
    }

    method Rollback()
      modifies this`pending
      ensures pending == None
    {
      pending := None;
    }

    method CanWrite() returns (ok: bool)
      modifies this`writesLeft
      ensures ok <==> old(writesLeft) != Some(0)
      ensures writesLeft.None? <==> old(writesLeft).None?
    {
      ok := writesLeft != Some(0);
      if writesLeft.Some? && ok {
        writesLeft := Some(writesLeft.value - 1);
      }
    }

    method InsertRow(row: Row) returns (answer: InsertAnswer)
      requires Valid() && pending.Some?
      modifies this`pending, this`writesLeft
      ensures Valid() && pending.Some? && (old(writesLeft).None? ==> writesLeft.None? && !answer.StorageFailed?)
      ensures answer.Done? ==> pending.value == old(pending).value[KeyOf(schema, row) := row]
      ensures !answer.Done? ==> pending == old(pending)
      ensures answer.KeyTaken? ==> KeyOf(schema, row) in old(pending).value
    {
      var can := CanWrite();
      if !can {
        return StorageFailed;
      }
      if KeyOf(schema, row) in pending.value {
        return KeyTaken;
      }
      pending := Some(pending.value[KeyOf(schema, row) := row]);
      answer := Done;
    }

    /** Nothing is written when the key is not there. */
    method UpdateRow(pk: Pk, row: Row) returns (ok: bool)
      requires Valid() && pending.Some? && KeyOf(schema, row) == Identity(schema, pk)
      modifies this`pending, this`writesLeft
      ensures Valid() && pending.Some? && (old(writesLeft).None? ==> writesLeft.None? && ok)
      ensures ok && Identity(schema, pk) in old(pending).value ==>
              pending.value == old(pending).value[Identity(schema, pk) := row]
      ensures !(ok && Identity(schema, pk) in old(pending).value) ==> pending == old(pending)
    {
      ok := CanWrite();
      if ok && Identity(schema, pk) in pending.value {
        pending := Some(pending.value[Identity(schema, pk) := row]);
      }
    }

    method DeleteRow(pk: Pk) returns (ok: bool)
      requires Valid() && pending.Some?
      modifies this`pending, this`writesLeft
      ensures Valid() && pending.Some? && (old(writesLeft).None? ==> writesLeft.None? && ok)
      ensures pending.value == if ok then old(pending).value - {Identity(schema, pk)} else old(pending).value
    {
      ok := CanWrite();
      if ok {
        pending := Some(pending.value - {Identity(schema, pk)});
      }
    }

    /** Whether the effective rows hold `pk`; each returned row's key is checked. */
    method RowExists(pk: Pk) returns (there: bool)
      requires Valid() && pending.Some?
      ensures there <==> Identity(schema, pk) in pending.value
    {
      var left := pending.value;
      while left != map[]
        invariant left.Keys <= pending.value.Keys && forall k :: k in left ==> left[k] == pending.value[k]
        invariant Identity(schema, pk) in pending.value ==> Identity(schema, pk) in left
        decreases |left|
      {
        var k :| k in left;
        assert left.Keys == (left - {k}).Keys + {k};
        if KeyOf(schema, left[k]) == Identity(schema, pk) {
          return true;
        }
        left := left - {k};
      }
      there := false;
    }
  }

  // ---- the flush --------------------------------------------------------------------------------

  /** Every staged entry, once. */
  method CollectOverlayEntries(s: Schema, ov: Overlay) returns (entries: seq<Slot>)
    requires Staged(s, ov)
    ensures Scans(s, ov, entries)
  {
    entries := [];
    var left := ov;
    while left != map[]
      invariant left.Keys <= ov.Keys && forall k :: k in left ==> left[k] == ov[k]
      invariant EachOnce(s, entries)
      invariant forall x :: x in entries <==> exists k :: k in ov && k !in left && ov[k] == x
      decreases |left|
    {
      var k :| k in left;
      assert left.Keys == (left - {k}).Keys + {k};
      forall i | 0 <= i < |entries| ensures KeyOf(s, entries[i].row) != k {
        assert entries[i] in entries;
      }
      entries, left := entries + [left[k]], left - {k};
    }
  }

  /** Deletions ahead of writes, each group in its given order. */
  method DeletesFirst(s: Schema, entries: seq<Slot>) returns (ordered: seq<Slot>)
    requires EachOnce(s, entries)
    ensures EachOnce(s, ordered) && forall x :: x in ordered <==> x in entries
    ensures forall i, j :: 0 <= i < j < |ordered| && ordered[j].Marker? ==> ordered[i].Marker?
  {
    var markers, live := [], [];
    for i := 0 to |entries|
      invariant EachOnce(s, markers) && EachOnce(s, live)
      invariant forall x :: x in markers <==> x in entries[..i] && x.Marker?
      invariant forall x :: x in live <==> x in entries[..i] && x.Live?
    {
      assert entries[..i + 1] == entries[..i] + [entries[i]];
      NotSeenBefore(s, entries, i, markers);
      NotSeenBefore(s, entries, i, live);
      if entries[i].Marker? {
        markers := markers + [entries[i]];
      } else {
        live := live + [entries[i]];
      }
    }
    assert entries[..|entries|] == entries;
    ordered := markers + live;
    forall i, j | 0 <= i < j < |ordered| ensures KeyOf(s, ordered[i].row) != KeyOf(s, ordered[j].row) {
      if i < |markers| <= j {
        assert markers[i] in markers && live[j - |markers|] in live;
        var a :| 0 <= a < |entries| && entries[a] == markers[i];
        var b :| 0 <= b < |entries| && entries[b] == live[j - |markers|];
      }
    }
    forall i, j | 0 <= i < j < |ordered| && ordered[j].Marker? ensures ordered[i].Marker? {
      assert ordered[j] in markers + live;
      if i >= |markers| { assert live[j - |markers|] in live; }
      else { assert markers[i] in markers; }
    }
  }

  lemma NotSeenBefore(s: Schema, entries: seq<Slot>, i: nat, some: seq<Slot>)
    requires EachOnce(s, entries) && i < |entries|
    requires forall x :: x in some ==> x in entries[..i]
    ensures forall j :: 0 <= j < |some| ==> KeyOf(s, some[j].row) != KeyOf(s, entries[i].row)
  {
    forall j | 0 <= j < |some| ensures KeyOf(s, some[j].row) != KeyOf(s, entries[i].row) {
      assert some[j] in some;
      var a :| 0 <= a < i && entries[..i][a] == some[j];
      assert entries[a] == some[j];
    }
  }

  /** Applies a whole overlay and leaves the table's transaction open. Existence is asked for every live
      entry before the first write. No write meets a taken key, so the only failure is storage's, and then
      nothing is committed. */
  method ApplyOverlayToUnderlying(under: UnderlyingTable, ov: Overlay) returns (ok: bool)
    requires under.Valid() && under.pending.None? && Staged(under.schema, ov)
    modifies under`pending, under`writesLeft
    ensures under.Valid() && under.pending.Some?
    ensures ok ==> under.pending.value == Merged(under.committed, ov)
    ensures old(under.writesLeft).None? ==> ok && under.writesLeft.None?
  {
    ghost var s := under.schema;
    var entries := CollectOverlayEntries(under.schema, ov);
    under.Begin();
    var ordered := DeletesFirst(under.schema, entries);
    var there := ProbeAll(under, ordered);
    for i := 0 to |ordered|
      invariant under.Valid() && under.pending.Some? && (old(under.writesLeft).None? ==> under.writesLeft.None?)
      invariant under.pending.value == WriteAll(s, under.committed, ordered[..i])
    {
      assert ordered[..i + 1][..i] == ordered[..i];
      EarlyProbesAgree(s, under.committed, ordered, i);
      var written := WriteEntry(under, ordered[i], there[i]);
      if !written {
        return false;
      }
    }
    assert ordered[..|ordered|] == ordered;
    FlushOrderIsImmaterial(s, under.committed, ov, entries, ordered);
    ok := true;
  }

  /** For each live entry, whether its key is there now. */
  method ProbeAll(under: UnderlyingTable, ordered: seq<Slot>) returns (there: seq<bool>)
    requires under.Valid() && under.pending.Some?
    ensures |there| == |ordered|
    ensures forall i :: 0 <= i < |ordered| && ordered[i].Live? ==>
            (there[i] <==> KeyOf(under.schema, ordered[i].row) in under.pending.value)
  {
    there := [];
    for i := 0 to |ordered|
      invariant |there| == i
      invariant forall j :: 0 <= j < i && ordered[j].Live? ==>
                (there[j] <==> KeyOf(under.schema, ordered[j].row) in under.pending.value)
    {
      var found := false;
      if ordered[i].Live? {
        found := under.RowExists(PkOf(under.schema, ordered[i].row));
      }
      there := there + [found];
    }
  }

  /** One entry, by the answer its probe gave. */
  method WriteEntry(under: UnderlyingTable, entry: Slot, there: bool) returns (ok: bool)
    requires under.Valid() && under.pending.Some?
    requires entry.Live? ==> (there <==> KeyOf(under.schema, entry.row) in under.pending.value)
    modifies under`pending, under`writesLeft
    ensures under.Valid() && under.pending.Some?
    ensures under.pending.value ==
            if ok then WriteThrough(under.schema, old(under.pending).value, entry) else old(under.pending).value
    ensures old(under.writesLeft).None? ==> ok && under.writesLeft.None?
  {
    if entry.Marker? {
      ok := under.DeleteRow(PkOf(under.schema, entry.row));
    } else if there {
      ok := under.UpdateRow(PkOf(under.schema, entry.row), entry.row);
    } else {
      var answer := under.InsertRow(entry.row);
      assert !answer.KeyTaken?;
      ok := answer.Done?;
    }
  }
}
