/** One connection's handle on one table: the committed rows it reads, the overlay it stages into, and
    the write path between them. */
module IsolatedTables {
  import opened Rows
  import opened MergedView
  import opened WriteRules
  import WriteTheorems

  /** The values of a table in an order of the storage module's choosing. */
  method Enumerate<T(==)>(m: map<Key, T>) returns (out: seq<T>)
    ensures forall x :: x in out <==> x in m.Values
  {
    out := [];
    var left := m;
    while left != map[]
      invariant left.Keys <= m.Keys && forall k :: k in left ==> left[k] == m[k]
      invariant forall x :: x in out ==> x in m.Values
      invariant forall k :: k in m && k !in left ==> m[k] in out
      decreases |left|
    {
      var k :| k in left;
      assert left.Keys == (left - {k}).Keys + {k};
      out, left := out + [left[k]], left - {k};
    }
  }

  class IsolatedTable {
    const schema: Schema
    var base: Table
    var overlay: Overlay

    ghost predicate Valid()
      reads this
    {
      WellFormed(schema) && Keyed(schema, base) && Staged(schema, overlay)
    }

    ghost function View(): Table
      reads this
    {
      Merged(base, overlay)
    }

    constructor (s: Schema, committed: Table)
      requires WellFormed(s) && Keyed(s, committed)
      ensures Valid() && schema == s && base == committed && overlay == map[]
      ensures View() == committed
    {
      schema, base, overlay := s, committed, map[];
    }

    // ---- reading the staging table --------------------------------------------------------------

    /** A key seek is a request: the staging module may answer with any superset of the rows. */
    method AnswerOverlaySeek(pk: Pk) returns (slots: seq<Slot>)
      ensures forall x :: x in slots ==> x in overlay.Values
      ensures Identity(schema, pk) in overlay ==> overlay[Identity(schema, pk)] in slots
    {
      slots := Enumerate(overlay);
    }

    /** The staged entry at `pk`, every returned row checked against the key before it is believed. */
    method GetOverlayRow(pk: Pk) returns (found: Option<Slot>)
      requires Valid()
      ensures found == if Identity(schema, pk) in overlay then Some(overlay[Identity(schema, pk)]) else None
    {
      var slots := AnswerOverlaySeek(pk);
      for i := 0 to |slots|
        invariant forall j :: 0 <= j < i ==> KeyOf(schema, slots[j].row) != Identity(schema, pk)
      {
        assert slots[i] in slots;
        if KeyOf(schema, slots[i].row) == Identity(schema, pk) {
          return Some(slots[i]);
        }
      }
      found := None;
    }

    method AnswerUnderlyingSeek(pk: Pk) returns (rows: seq<Row>)
      ensures forall x :: x in rows ==> x in base.Values
      ensures Identity(schema, pk) in base ==> base[Identity(schema, pk)] in rows
    {
      rows := Enumerate(base);
    }

    method GetUnderlyingRow(pk: Pk) returns (found: Option<Row>)
      requires Valid()
      ensures found == if Identity(schema, pk) in base then Some(base[Identity(schema, pk)]) else None
    {
      var rows := AnswerUnderlyingSeek(pk);
      for i := 0 to |rows|
        invariant forall j :: 0 <= j < i ==> KeyOf(schema, rows[j]) != Identity(schema, pk)
      {
        assert rows[i] in rows;
        if KeyOf(schema, rows[i]) == Identity(schema, pk) {
          return Some(rows[i]);
        }
      }
      found := None;
    }

    // ---- the two-phase UNIQUE search ------------------------------------------------------------

    predicate IsSelf(selfPks: seq<Pk>, row: Row) {
      exists i :: 0 <= i < |selfPks| && Identity(schema, selfPks[i]) == KeyOf(schema, row)
    }

    function SelfSet(selfPks: seq<Pk>): set<Key> {
      set i | 0 <= i < |selfPks| :: Identity(schema, selfPks[i])
    }

    lemma SelfSetMeans(selfPks: seq<Pk>, row: Row)
      ensures IsSelf(selfPks, row) <==> KeyOf(schema, row) in SelfSet(selfPks)
    {
    }

    /** Phase 1: the staged rows. Markers and the writer's own keys are passed over. */
    method FindOverlayUniqueConflict(uc: Unique, row: Row, selfPks: seq<Pk>) returns (hit: Option<Row>)
      requires Valid() && Applies(uc, row)
      ensures hit.Some? ==> var k := KeyOf(schema, hit.value);
                            k in overlay && overlay[k] == Live(hit.value) && !IsSelf(selfPks, hit.value) &&
                                Clash(schema, uc, row, hit.value)
      ensures hit.None? ==> forall k :: k in overlay && overlay[k].Live? && !IsSelf(selfPks, overlay[k].row) ==>
                                          !Clash(schema, uc, row, overlay[k].row)
    {
      var slots := Enumerate(overlay);
      for i := 0 to |slots|
        invariant forall j :: 0 <= j < i && slots[j].Live? && !IsSelf(selfPks, slots[j].row) ==>
                  !Clash(schema, uc, row, slots[j].row)
      {
        var slot := slots[i];
        assert slot in slots;
        if slot.Live? && !IsSelf(selfPks, slot.row) && SameOn(schema.folds, uc.columns, row, slot.row) &&
            uc.scope(slot.row) {
          return Some(slot.row);
        }
      }
      hit := None;
      forall k | k in overlay && overlay[k].Live? && !IsSelf(selfPks, overlay[k].row)
        ensures !Clash(schema, uc, row, overlay[k].row)
      {
        assert overlay[k] in slots;
      }
    }

    /** An index seek may return any superset of the rows under the sought key, up to the whole table. */
    method AnswerIndexSeek(uc: Unique, row: Row) returns (rows: seq<Row>)
      ensures forall x :: x in rows ==> x in base.Values
      ensures forall k :: k in base && SameIndexKey(schema.folds, uc.columns, row, base[k]) ==> base[k] in rows
    {
      rows := Enumerate(base);
    }

    /** Phase 2: committed rows no staged entry names, by an index seek where one is sound. */
    method FindUnderlyingUniqueConflict(uc: Unique, row: Row, selfPks: seq<Pk>) returns (hit: Option<Row>)
      requires Valid() && Applies(uc, row)
      ensures hit.Some? ==> var k := KeyOf(schema, hit.value);
                            k in base && k !in overlay && base[k] == hit.value && !IsSelf(selfPks, hit.value) &&
                                Clash(schema, uc, row, hit.value)
      ensures hit.None? ==> forall k :: k in base && k !in overlay && !IsSelf(selfPks, base[k]) ==>
              !Clash(schema, uc, row, base[k])
    {
      var rows;
      if CanSeek(uc) {
        rows := AnswerIndexSeek(uc, row);
      } else {
        rows := Enumerate(base);
      }
      assert forall k :: k in base && SameOn(schema.folds, uc.columns, row, base[k]) ==> base[k] in rows by {
        forall k | k in base && SameOn(schema.folds, uc.columns, row, base[k]) ensures base[k] in rows {
          if CanSeek(uc) { SeekCoversClashes(schema, uc, row, base[k]); }
        }
      }
      for i := 0 to |rows|
        invariant forall j :: 0 <= j < i && !IsSelf(selfPks, rows[j]) && KeyOf(schema, rows[j]) !in overlay ==>
                  !Clash(schema, uc, row, rows[j])
      {
        assert rows[i] in rows;
        if !IsSelf(selfPks, rows[i]) {
          var staged := GetOverlayRow(PkOf(schema, rows[i]));
          if staged.None? && SameOn(schema.folds, uc.columns, row, rows[i]) && uc.scope(rows[i]) {
            return Some(rows[i]);
          }
        }
      }
      hit := None;
      forall k | k in base && k !in overlay && !IsSelf(selfPks, base[k]) ensures !Clash(schema, uc, row, base[k]) {
        if SameOn(schema.folds, uc.columns, row, base[k]) { assert base[k] in rows; }
      }
    }

    /** The two phases together report a conflict exactly when some row of the merged view, outside the
        writer's own keys, clashes; and they report such a row. */
    method FindMergedUniqueConflict(uc: Unique, row: Row, selfPks: seq<Pk>) returns (hit: Option<Row>)
      requires Valid() && Applies(uc, row)
      ensures hit.Some? <==> Conflicting(schema, uc, View(), row, SelfSet(selfPks)) != {}
      ensures hit.Some? ==> var k := KeyOf(schema, hit.value);
                            k in Conflicting(schema, uc, View(), row, SelfSet(selfPks)) && View()[k] == hit.value
    {
      hit := FindOverlayUniqueConflict(uc, row, selfPks);
      if hit.None? {
        hit := FindUnderlyingUniqueConflict(uc, row, selfPks);
      }
      MergedIsKeyed(schema, base, overlay);
      if hit.Some? {
        SelfSetMeans(selfPks, hit.value);
        assert KeyOf(schema, hit.value) in Conflicting(schema, uc, View(), row, SelfSet(selfPks));
      } else {
        forall k | k in View() && k !in SelfSet(selfPks) ensures !Clash(schema, uc, row, View()[k]) {
          SelfSetMeans(selfPks, View()[k]);
        }
        assert Conflicting(schema, uc, View(), row, SelfSet(selfPks)) == {};
      }
    }

    // ---- writing the staging table --------------------------------------------------------------

    /** The staging table's insert: it resolves a collision at its own key, marker or not, by `a`. */
    method InsertRow(row: Row, a: Action) returns (denied: Option<Result>)
      modifies this`overlay
      ensures (overlay, denied) == InsertStaged(old(overlay), KeyOf(schema, row), row, a)
    {
      var k := KeyOf(schema, row);
      if k in overlay && !a.Replace? {
        return Some(Denial(a, overlay[k].row));
      }
      overlay := overlay[k := Live(row)];
      denied := None;
    }

    /** The staging table's same-key update: nothing happens when no entry is there. */
    method ReplaceRow(pk: Pk, slot: Slot)
      requires KeyOf(schema, slot.row) == Identity(schema, pk)
      modifies this`overlay
      ensures overlay == if Identity(schema,
              pk) in old(overlay) then old(overlay)[Identity(schema, pk) := slot] else old(overlay)
    {
      if Identity(schema, pk) in overlay {
        overlay := overlay[Identity(schema, pk) := slot];
      }
    }

    method DeleteRow(pk: Pk)
      modifies this`overlay
      ensures overlay == old(overlay) - {Identity(schema, pk)}
    {
      overlay := overlay - {Identity(schema, pk)};
    }

    method InsertTombstoneForPK(pk: Pk)
      requires Valid()
      modifies this`overlay
      ensures Valid() && overlay == old(overlay)[Identity(schema, pk) := Marker(MarkerRow(schema, pk))]
    {
      MarkerRowKeepsKey(schema, pk);
      var tombstone := Marker(MarkerRow(schema, pk));
      var existing := GetOverlayRow(pk);
      if existing.Some? {
        ReplaceRow(pk, tombstone);
      } else {
        overlay := overlay[Identity(schema, pk) := tombstone];
      }
    }

    /** A moved row reuses a marker at its new key; anything else there is left to the staging table. */
    method WriteRelocatedRow(row: Row, a: Action) returns (denied: Option<Result>)
      requires Valid()
      modifies this`overlay
      ensures var k := KeyOf(schema, row);
              if k in old(overlay) && old(overlay)[k].Marker? then overlay == old(overlay)[k := Live(row)] &&
                  denied == None
              else (overlay, denied) == InsertStaged(old(overlay), k, row, a)
    {
      var existing := GetOverlayRow(PkOf(schema, row));
      if existing.Some? && existing.value.Marker? {
        ReplaceRow(PkOf(schema, row), Live(row));
        denied := None;
      } else {
        denied := InsertRow(row, a);
      }
    }

    // ---- conflict checks against the merged view ------------------------------------------------

    /** A committed row at `pk` that no staged entry names: reported back under REPLACE, else the answer
        that ends the write. */
    method CheckMergedPKConflict(pk: Pk, or: Option<Action>) returns (ending: Option<Result>, replaced: Option<Row>)
      requires Valid()
      ensures var there := CommittedAt(base, overlay, Identity(schema, pk));
              if there.Some? && !PkAction(schema, or).Replace? then ending ==
                  Some(Denial(PkAction(schema, or), there.value))
              else ending == None && replaced == there
    {
      ending, replaced := None, None;
      var staged := GetOverlayRow(pk);
      if staged.None? {
        var row := GetUnderlyingRow(pk);
        if row.Some? {
          var a := PkAction(schema, or);
          if a.Replace? {
            replaced := row;
          } else {
            ending := Some(Denial(a, row.value));
          }
        }
      }
    }

    /** One UNIQUE constraint: `evicted` is the row it displaced, `ending` the answer that stops the write. */
    method CheckOneUnique(i: nat, row: Row, selfPks: seq<Pk>, or: Option<Action>)
                          returns (evicted: seq<Row>, ending: Option<Result>)
      requires Valid() && Satisfies(schema, View()) && i < |schema.uniques|
      modifies this`overlay
      ensures Valid() && Satisfies(schema, View())
      ensures overlay == EvictAll(schema, old(overlay), evicted) && |evicted| <= 1
      ensures Judge(schema, i, old(View()), row, SelfSet(selfPks), or)
              == if ending.Some? then Stop(evicted, ending.value)
                 else Prefixed(evicted, Judge(schema, i + 1, View(), row, SelfSet(selfPks), or))
    {
      evicted, ending := [], None;
      var uc := schema.uniques[i];
      if !Applies(uc, row) {
        assert Conflicting(schema, uc, View(), row, SelfSet(selfPks)) == {};
        return;
      }
      var hit := FindMergedUniqueConflict(uc, row, selfPks);
      if hit.Some? {
        ConflictIsTheOne(i, row, selfPks, or, hit.value);
        var a := Effective(or, uc.onConflict);
        if a.Replace? {
          EvictHitKeeps(hit.value);
          InsertTombstoneForPK(PkOf(schema, hit.value));
          evicted := [hit.value];
          EvictAllAppended(schema, old(overlay), [], hit.value);
        } else {
          ending := Some(Denial(a, hit.value));
        }
      }
    }

    /** Every UNIQUE constraint in turn, evicting under REPLACE and stopping under anything else. */
    method CheckMergedUniqueConstraints(row: Row, selfPks: seq<Pk>, or: Option<Action>) returns (verdict: Verdict)
      requires Valid() && Satisfies(schema, View())
      modifies this`overlay
      ensures Valid()
      ensures verdict == Judge(schema, 0, old(View()), row, SelfSet(selfPks), or)
      ensures overlay == EvictAll(schema, old(overlay), verdict.evicted)
    {
      var evicted: seq<Row> := [];
      ghost var whole := Judge(schema, 0, View(), row, SelfSet(selfPks), or);
      for i := 0 to |schema.uniques|
        invariant Checking(i, row, selfPks, or, old(overlay), evicted, whole)
      {
        var ending: Option<Result>;
        evicted, ending := CheckNext(i, row, selfPks, or, old(overlay), evicted, whole);
        if ending.Some? {
          return Stop(evicted, ending.value);
        }
      }
      verdict := Clear(evicted);
    }

    /** The constraints before `i` are settled: what they evicted is staged, and the rest of the verdict is the verdict
        of the constraints from `i` on the present view. */
    ghost predicate Checking(i: nat, row: Row, selfPks: seq<Pk>, or: Option<Action>, was: Overlay, evicted: seq<Row>,
                             whole: Verdict)
      reads this
    {
      && Valid() && Satisfies(schema, View()) && overlay == EvictAll(schema, was, evicted)
      && i <= |schema.uniques| && whole == Prefixed(evicted, Judge(schema, i, View(), row, SelfSet(selfPks), or))
    }

    method CheckNext(i: nat, row: Row, selfPks: seq<Pk>, or: Option<Action>, ghost was: Overlay, evicted: seq<Row>,
                     ghost whole: Verdict)
      returns (all: seq<Row>, ending: Option<Result>)
      requires i < |schema.uniques| && Checking(i, row, selfPks, or, was, evicted, whole)
      modifies this`overlay
      ensures ending.None? ==> Checking(i + 1, row, selfPks, or, was, all, whole)
      ensures ending.Some? ==> Valid() && overlay == EvictAll(schema, was, all) && whole == Stop(all, ending.value)
    {
      var more: seq<Row>;
      more, ending := CheckOneUnique(i, row, selfPks, or);
      EvictMore(schema, was, evicted, more);
      all := evicted + more;
      PrefixedTwice(evicted, more, Judge(schema, i + 1, View(), row, SelfSet(selfPks), or));
    }

    static lemma EvictMore(s: Schema, ov: Overlay, rows: seq<Row>, more: seq<Row>)
      requires |more| <= 1
      ensures EvictAll(s, ov, rows + more) == EvictAll(s, EvictAll(s, ov, rows), more)
    {
      if more == [] {
        assert rows + more == rows;
      } else {
        assert more == [more[0]];
        EvictAllAppended(s, ov, rows, more[0]);
        EvictAllAppended(s, EvictAll(s, ov, rows), [], more[0]);
        assert [] + [more[0]] == [more[0]];
      }
    }

    static lemma PrefixedTwice(a: seq<Row>, b: seq<Row>, v: Verdict)
      ensures Prefixed(a, Prefixed(b, v)) == Prefixed(a + b, v)
    {
      assert a + (b + v.evicted) == (a + b) + v.evicted;
    }

    /** The found row is the one the verdict names, there being only one. */
    lemma ConflictIsTheOne(i: nat, row: Row, selfPks: seq<Pk>, or: Option<Action>, hit: Row)
      requires Valid() && Satisfies(schema, View()) && i < |schema.uniques|
      requires KeyOf(schema, hit) in Conflicting(schema, schema.uniques[i], View(), row, SelfSet(selfPks))
      requires View()[KeyOf(schema, hit)] == hit
      ensures var a := Effective(or, schema.uniques[i].onConflict);
              Judge(schema, i, View(), row, SelfSet(selfPks), or)
              == if a.Replace? then Prefixed([hit],
                  Judge(schema, i + 1, View() - {KeyOf(schema, hit)}, row, SelfSet(selfPks), or))
                 else Stop([], Denial(a, hit))
    {
      forall k | k in Conflicting(schema, schema.uniques[i], View(), row, SelfSet(selfPks)) ensures k ==
          KeyOf(schema, hit) {
        AtMostOneConflict(schema, i, View(), row, SelfSet(selfPks), k, KeyOf(schema, hit));
      }
    }

    lemma EvictHitKeeps(hit: Row)
      requires Valid() && Satisfies(schema, View())
      ensures var next := Evict(schema, overlay, hit);
              && Staged(schema, next) && Merged(base, next) == View() - {KeyOf(schema, hit)}
              && Satisfies(schema, Merged(base, next))
    {
      WriteTheorems.EvictHides(schema, base, overlay, hit);
      WriteTheorems.SubtableSatisfies(schema, View(), {KeyOf(schema, hit)});
    }

    static lemma {:induction false} EvictAllAppended(s: Schema, ov: Overlay, rows: seq<Row>, row: Row)
      ensures EvictAll(s, ov, rows + [row]) == Evict(s, EvictAll(s, ov, rows), row)
      decreases |rows|
    {
      if rows == [] {
        assert rows + [row] == [row];
        assert EvictAll(s, Evict(s, ov, row), []) == Evict(s, ov, row);
      } else {
        assert (rows + [row])[1..] == rows[1..] + [row];
        EvictAllAppended(s, Evict(s, ov, rows[0]), rows[1..], row);
      }
    }

    // ---- the write path -------------------------------------------------------------------------

    method UpdateInsert(row: Row, or: Option<Action>) returns (result: Result)
      requires Valid() && Satisfies(schema, View())
      modifies this`overlay
      ensures (overlay, result) == StageInsert(schema, base, old(overlay), row, or)
    {
      var pk := PkOf(schema, row);
      var a := PkAction(schema, or);
      var existing := GetOverlayRow(pk);
      var replaced := None;
      if existing.Some? && existing.value.Live? {
        if a.Abort? || a.Fail? || a.Rollback? {
          return Refused(a, existing.value.row);
        }
        replaced := Some(existing.value.row);
      } else if existing.None? {
        var ending;
        ending, replaced := CheckMergedPKConflict(pk, or);
        if ending.Some? {
          return ending.value;
        }
      }
      var evicted: seq<Row> := [];
      SelfSetOne(pk);
      if !(existing.Some? && existing.value.Live? && a.Ignore?) {
        ghost var before := overlay;
        var verdict := CheckMergedUniqueConstraints(row, [pk], or);
        if verdict.Stop? {
          return verdict.answer;
        }
        evicted := verdict.evicted;
        OwnEntryStays(before, row, {KeyOf(schema, row)}, or, KeyOf(schema, row));
      }
      if existing.Some? && existing.value.Marker? {
        ReplaceRow(pk, Live(row));
        return Written(evicted, None);
      }
      var denied := InsertRow(row, a);
      result := if denied.Some? then denied.value else Written(evicted, replaced);
    }

    /** Same key: the row replaces the staged entry, or becomes one. The UNIQUE check is skipped when the
        staged row is live and nothing a constraint reads has changed. */
    method UpdateInPlace(target: Pk, row: Row, or: Option<Action>) returns (result: Result)
      requires Valid() && Satisfies(schema, View()) && Identity(schema, target) == KeyOf(schema, row)
      modifies this`overlay
      ensures (overlay, result) == StageInPlace(schema, base, old(overlay), target, row, or)
    {
      var existing := GetOverlayRow(target);
      var evicted: seq<Row> := [];
      SelfSetOne(target);
      if existing.None? || existing.value.Marker? || UniqueColumnsChanged(schema, existing.value.row, row) {
        ghost var before := overlay;
        var verdict := CheckMergedUniqueConstraints(row, [target], or);
        if verdict.Stop? {
          return verdict.answer;
        }
        evicted := verdict.evicted;
        OwnEntryStays(before, row, {KeyOf(schema, row)}, or, KeyOf(schema, row));
      }
      if existing.Some? {
        ReplaceRow(target, Live(row));
      } else {
        var denied := InsertRow(row, PkAction(schema, or));
        assert denied.None?;
      }
      result := Written(evicted, None);
    }

    /** New key: the old slot becomes a marker before the row lands at its new key. */
    method UpdateMove(target: Pk, row: Row, or: Option<Action>) returns (result: Result)
      requires Valid() && Satisfies(schema, View()) && Identity(schema, target) != KeyOf(schema, row)
      modifies this`overlay
      ensures (overlay, result) == StageMove(schema, base, old(overlay), target, row, or)
    {
      var pk := PkOf(schema, row);
      var existing := GetOverlayRow(target);
      var ending, replaced := CheckMergedPKConflict(pk, or);
      if ending.Some? {
        return ending.value;
      }
      SelfSetTwo(target, pk);
      ghost var before := overlay;
      var verdict := CheckMergedUniqueConstraints(row, [target, pk], or);
      if verdict.Stop? {
        return verdict.answer;
      }
      OwnEntryStays(before, row, {Identity(schema, target), KeyOf(schema, row)}, or, KeyOf(schema, row));
      MarkOld(target, existing.Some?);
      result := Relocate(row, or, verdict.evicted, replaced);
    }

    /** The old slot, if there is one, is taken away before a marker takes its place. */
    method MarkOld(target: Pk, staged: bool)
      requires Valid()
      modifies this`overlay
      ensures Valid() && overlay == old(overlay)[Identity(schema, target) := Marker(MarkerRow(schema, target))]
    {
      ghost var before := overlay;
      if staged {
        DeleteRow(target);
      }
      InsertTombstoneForPK(target);
      assert overlay == before[Identity(schema, target) := Marker(MarkerRow(schema, target))];
    }

    /** The old slot is a marker by now; the row lands at its new key, over a staged row there only under REPLACE. */
    method Relocate(row: Row, or: Option<Action>, evicted: seq<Row>, there: Option<Row>) returns (result: Result)
      requires Valid()
      modifies this`overlay
      ensures var n, a := KeyOf(schema, row), PkAction(schema, or);
              (overlay, result) ==
              if n in old(overlay) && old(overlay)[n].Marker? then (old(overlay)[n := Live(row)],
                  Written(evicted, there))
              else
                var (placed, denied) := InsertStaged(old(overlay), n, row, a);
                if denied.Some? then (placed, denied.value)
                else (placed, Written(evicted, if n in old(overlay) then Some(old(overlay)[n].row) else there))
    {
      var replaced := there;
      if KeyOf(schema, row) in overlay && overlay[KeyOf(schema, row)].Live? {
        replaced := Some(overlay[KeyOf(schema, row)].row);
      }
      var denied := WriteRelocatedRow(row, PkAction(schema, or));
      result := if denied.Some? then denied.value else Written(evicted, replaced);
    }

    method UpdateDelete(target: Pk) returns (result: Result)
      requires Valid()
      modifies this`overlay
      ensures (overlay, result) == StageDelete(schema, old(overlay), target)
    {
      var existing := GetOverlayRow(target);
      if existing.Some? {
        if existing.value.Marker? {
          assert overlay == overlay[Identity(schema, target) := existing.value];
          return Removed;
        }
        ReplaceRow(target, Marker(existing.value.row));
      } else {
        overlay := overlay[Identity(schema, target) := Marker(MarkerRow(schema, target))];
      }
      result := Removed;
    }

    lemma SelfSetOne(pk: Pk)
      ensures SelfSet([pk]) == {Identity(schema, pk)}
    {
      assert [pk][0] == pk;
    }

    lemma SelfSetTwo(p: Pk, q: Pk)
      ensures SelfSet([p, q]) == {Identity(schema, p), Identity(schema, q)}
    {
      assert [p, q][0] == p && [p, q][1] == q;
    }

    /** No eviction touches the writer's own key. */
    lemma OwnEntryStays(before: Overlay, row: Row, self: set<Key>, or: Option<Action>, k: Key)
      requires WellFormed(schema) && Keyed(schema, base) && Staged(schema, before) && k in self
      ensures var evicted := Judge(schema, 0, Merged(base, before), row, self, or).evicted;
              var after := EvictAll(schema, before, evicted);
              (k in after <==> k in before) && (k in before ==> after[k] == before[k])
    {
      var m := Merged(base, before);
      var evicted := Judge(schema, 0, m, row, self, or).evicted;
      MergedIsKeyed(schema, base, before);
      WriteTheorems.JudgeEvicts(schema, 0, m, row, self, or);
      WriteTheorems.EvictAllElsewhere(schema, before, evicted, k);
    }

    /** INSERT, UPDATE and DELETE, staged. */
    method Update(op: Op, or: Option<Action>) returns (result: Result)
      requires Valid() && Satisfies(schema, View())
      modifies this`overlay
      ensures (overlay, result) == Stage(schema, base, old(overlay), op, or)
      ensures Valid() && Satisfies(schema, View())
      ensures View() == Plain(schema, old(View()), op, or).0 <==>
              !WriteTheorems.Diverges(schema, base, old(overlay), op, or)
    {
      WriteTheorems.StageMeansPlainExactly(schema, base, overlay, op, or);
      WriteTheorems.StageKeepsUniques(schema, base, overlay, op, or);
      match op {
        case Insert(row) => result := UpdateInsert(row, or);
        case Update(target, row) =>
          if Identity(schema, target) == KeyOf(schema, row) {
            result := UpdateInPlace(target, row, or);
          } else {
            result := UpdateMove(target, row, or);
          }
        case Delete(target) => result := UpdateDelete(target);
      }
    }
  }
}
