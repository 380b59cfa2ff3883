/** Carrying an overlay across a change that re-keys its table: a new collation on a primary-key column, or
    a NOT NULL backfill of one. Staged entries that fall onto one new key collapse. */
module PkRekey {
  import opened Rows
  import opened MergedView
  import opened MergeScan
  import opened Flush

  /** How a change carries staged entries and rows: `key` is the key an entry will have after it, `fill` the row
      a live row becomes and `mark` the image a marker keeps. A committed row is carried as a live one. */
  datatype Rekey = Rekey(key: Slot -> Key, fill: Row -> Row, mark: Row -> Row)

  predicate Distinct(t: Table, rk: Rekey) {
    forall j, k :: j in t && k in t && j != k ==> rk.key(Live(t[j])) != rk.key(Live(t[k]))
  }

  ghost predicate DistinctSlots(ov: Overlay, rk: Rekey) {
    forall j, k :: j in ov && k in ov && j != k ==> rk.key(ov[j]) != rk.key(ov[k])
  }

  /** The row at `k` lands on `q`. */
  ghost predicate Lands(t: Table, rk: Rekey, k: Key, q: Key) {
    k in t && rk.key(Live(t[k])) == q
  }

  ghost predicate SlotLands(ov: Overlay, rk: Rekey, k: Key, q: Key) {
    k in ov && rk.key(ov[k]) == q
  }

  ghost function NewKeys(t: Table, rk: Rekey): set<Key> {
    set k | k in t :: rk.key(Live(t[k]))
  }

  ghost function NewSlotKeys(ov: Overlay, rk: Rekey): set<Key> {
    set k | k in ov :: rk.key(ov[k])
  }

  /** Every row at its new key. */
  ghost function Rekeyed(t: Table, rk: Rekey): Table {
    map q | q in NewKeys(t, rk) :: rk.fill(t[var k :| Lands(t, rk, k, q); k])
  }

  ghost function RekeyedSlots(ov: Overlay, rk: Rekey): Overlay {
    map q | q in NewSlotKeys(ov, rk) :: Filled(rk, ov[var k :| SlotLands(ov, rk, k, q); k])
  }

  function Filled(rk: Rekey, slot: Slot): Slot {
    if slot.Live? then Live(rk.fill(slot.row)) else Marker(rk.mark(slot.row))
  }

  lemma RekeyedAt(t: Table, rk: Rekey, k: Key)
    requires Distinct(t, rk) && k in t
    ensures rk.key(Live(t[k])) in Rekeyed(t, rk) && Rekeyed(t, rk)[rk.key(Live(t[k]))] == rk.fill(t[k])
  {
    assert Lands(t, rk, k, rk.key(Live(t[k])));
  }

  lemma RekeyedSlotAt(ov: Overlay, rk: Rekey, k: Key)
    requires DistinctSlots(ov, rk) && k in ov
    ensures rk.key(ov[k]) in RekeyedSlots(ov, rk) && RekeyedSlots(ov, rk)[rk.key(ov[k])] == Filled(rk, ov[k])
  {
    assert SlotLands(ov, rk, k, rk.key(ov[k]));
  }

  // ---- the drop plan ----------------------------------------------------------------------------

  /** The markers to discard: each shares its new key with an entry that stays, and no marker that stays
      shares its new key with anything. */
  ghost predicate DropPlan(ov: Overlay, rk: Rekey, drops: set<Key>) {
    && (forall k :: k in drops ==> k in ov && ov[k].Marker?)
    && (forall k :: k in drops ==> exists j :: j in ov && j !in drops && rk.key(ov[j]) == rk.key(ov[k]))
    && (forall j, k :: j in ov && k in ov && j != k && j !in drops && k !in drops && ov[k].Marker? ==>
                         rk.key(ov[j]) != rk.key(ov[k]))
  }

  /** No two staged live rows land on one new key. */
  predicate NoLiveCollision(ov: Overlay, rk: Rekey) {
    forall j, k :: j in ov && k in ov && j != k && ov[j].Live? && ov[k].Live? ==> rk.key(ov[j]) != rk.key(ov[k])
  }

  lemma PlanLeavesDistinct(ov: Overlay, rk: Rekey, drops: set<Key>)
    requires DropPlan(ov, rk, drops) && NoLiveCollision(ov, rk)
    ensures DistinctSlots(ov - drops, rk)
  {
    var kept := ov - drops;
    forall j, k | j in kept && k in kept && j != k ensures rk.key(kept[j]) != rk.key(kept[k]) {
      if kept[j].Marker? {
        assert rk.key(ov[k]) != rk.key(ov[j]);
      }
    }
  }

  /** Planning again after the drops finds nothing to drop. */
  lemma ReplanFindsNothing(ov: Overlay, rk: Rekey, drops: set<Key>, again: set<Key>)
    requires DropPlan(ov, rk, drops) && NoLiveCollision(ov, rk) && DropPlan(ov - drops, rk, again)
    ensures again == {}
  {
    PlanLeavesDistinct(ov, rk, drops);
    assert forall k :: k !in again;
  }

  // ---- when the re-key shows the connection the same rows ---------------------------------------

  /** A marker lands on a committed row it does not delete. */
  ghost predicate Overshadows(base: Table, ov: Overlay, rk: Rekey) {
    exists j, k :: j in ov && ov[j].Marker? && k in base && k !in ov && rk.key(ov[j]) == rk.key(Live(base[k]))
  }

  /** A committed row some entry hides, with no entry at its new key any more. */
  ghost predicate Resurfaces(base: Table, ov: Overlay, rk: Rekey) {
    exists k :: k in base && k in ov && Uncovered(base, ov, rk, k)
  }

  ghost predicate Uncovered(base: Table, ov: Overlay, rk: Rekey, k: Key)
    requires k in base
  {
    forall j :: j in ov ==> rk.key(ov[j]) != rk.key(Live(base[k]))
  }

  ghost function Seen(base: Table, ov: Overlay, rk: Rekey, drops: set<Key>): Table {
    Merged(Rekeyed(base, rk), RekeyedSlots(ov - drops, rk))
  }

  ghost predicate Ready(base: Table, ov: Overlay, rk: Rekey, drops: set<Key>) {
    Distinct(base, rk) && Distinct(Merged(base, ov), rk) && DropPlan(ov, rk, drops)
  }

  lemma LiveRowsStayApart(base: Table, ov: Overlay, rk: Rekey)
    requires Distinct(Merged(base, ov), rk)
    ensures NoLiveCollision(ov, rk)
  {
    var m := Merged(base, ov);
    forall j, k | j in ov && k in ov && j != k && ov[j].Live? && ov[k].Live? ensures rk.key(ov[j]) != rk.key(ov[k]) {
      assert j in m && k in m;
    }
  }

  /** What the re-keyed overlay holds at `q`. */
  lemma SlotAfter(base: Table, ov: Overlay, rk: Rekey, drops: set<Key>, q: Key)
    requires Ready(base, ov, rk, drops)
    ensures q in RekeyedSlots(ov - drops, rk) <==> exists j :: SlotLands(ov, rk, j, q)
    ensures forall j :: SlotLands(ov, rk, j, q) && ov[j].Live? ==>
            j !in drops && RekeyedSlots(ov - drops, rk)[q] == Live(rk.fill(ov[j].row))
    ensures (forall j :: SlotLands(ov, rk, j, q) ==> ov[j].Marker?) && q in RekeyedSlots(ov - drops, rk) ==>
              RekeyedSlots(ov - drops, rk)[q].Marker?
  {
    LiveRowsStayApart(base, ov, rk);
    PlanLeavesDistinct(ov, rk, drops);
    var kept := ov - drops;
    forall j | SlotLands(ov, rk, j, q) ensures exists h :: SlotLands(kept, rk, h, q) {
      if j in drops {
        var h :| h in ov && h !in drops && rk.key(ov[h]) == rk.key(ov[j]);
        assert SlotLands(kept, rk, h, q);
      } else {
        assert SlotLands(kept, rk, j, q);
      }
    }
    forall j | SlotLands(kept, rk, j, q) ensures SlotLands(ov, rk, j, q) && q in RekeyedSlots(kept, rk) &&
        RekeyedSlots(kept, rk)[q] == Filled(rk, ov[j]) {
      RekeyedSlotAt(kept, rk, j);
    }
    forall j | SlotLands(ov, rk, j, q) && ov[j].Live? ensures SlotLands(kept, rk, j, q) {
    }
    if q in RekeyedSlots(kept, rk) {
      assert exists j :: SlotLands(kept, rk, j, q);
    }
  }

  lemma RowAfter(t: Table, rk: Rekey, q: Key)
    requires Distinct(t, rk)
    ensures q in Rekeyed(t, rk) <==> exists k :: Lands(t, rk, k, q)
    ensures forall k :: Lands(t, rk, k, q) ==> Rekeyed(t, rk)[q] == rk.fill(t[k])
  {
    forall k | Lands(t, rk, k, q) ensures q in Rekeyed(t, rk) && Rekeyed(t, rk)[q] == rk.fill(t[k]) {
      RekeyedAt(t, rk, k);
    }
  }

  ghost predicate SameAt(a: Table, b: Table, q: Key) {
    (q in a <==> q in b) && (q in a && q in b ==> a[q] == b[q])
  }

  /** One key of the two views, side by side. */
  lemma RekeyAgreesAt(base: Table, ov: Overlay, rk: Rekey, drops: set<Key>, q: Key)
    requires Ready(base, ov, rk, drops)
    requires !Overshadows(base, ov, rk) && !Resurfaces(base, ov, rk)
    ensures SameAt(Seen(base, ov, rk, drops), Rekeyed(Merged(base, ov), rk), q)
  {
    var m := Merged(base, ov);
    SlotAfter(base, ov, rk, drops, q);
    RowAfter(base, rk, q);
    RowAfter(m, rk, q);
    if j :| SlotLands(ov, rk, j, q) && ov[j].Live? {
      assert Lands(m, rk, j, q);
    } else if j :| SlotLands(ov, rk, j, q) {
      assert forall k :: k in base && k !in ov ==> rk.key(ov[j]) != rk.key(Live(base[k]));
      assert forall k :: !Lands(m, rk, k, q);
    } else {
      forall k | Lands(base, rk, k, q) ensures Lands(m, rk, k, q) {
        assert forall j :: j in ov ==> !SlotLands(ov, rk, j, q);
        assert Uncovered(base, ov, rk, k);
      }
      forall k | Lands(m, rk, k, q) ensures Lands(base, rk, k, q) && m[k] == base[k] {
        assert !SlotLands(ov, rk, k, q);
      }
    }
  }

  lemma OvershadowingHides(base: Table, ov: Overlay, rk: Rekey, drops: set<Key>)
    requires Ready(base, ov, rk, drops) && Overshadows(base, ov, rk)
    ensures Seen(base, ov, rk, drops) != Rekeyed(Merged(base, ov), rk)
  {
    var m := Merged(base, ov);
    var j, k :| j in ov && ov[j].Marker? && k in base && k !in ov && rk.key(ov[j]) == rk.key(Live(base[k]));
    var q := rk.key(Live(base[k]));
    SlotAfter(base, ov, rk, drops, q);
    assert SlotLands(ov, rk, j, q);
    assert forall h :: SlotLands(ov, rk, h, q) && h in m ==> h == k;
    assert forall h :: SlotLands(ov, rk, h, q) ==> ov[h].Marker?;
    assert q !in Seen(base, ov, rk, drops);
    RekeyedAt(m, rk, k);
  }

  lemma ResurfacingShows(base: Table, ov: Overlay, rk: Rekey, drops: set<Key>)
    requires Ready(base, ov, rk, drops) && Resurfaces(base, ov, rk)
    ensures Seen(base, ov, rk, drops) != Rekeyed(Merged(base, ov), rk)
  {
    var m := Merged(base, ov);
    var k :| k in base && k in ov && Uncovered(base, ov, rk, k);
    var q := rk.key(Live(base[k]));
    SlotAfter(base, ov, rk, drops, q);
    RekeyedAt(base, rk, k);
    assert q in Seen(base, ov, rk, drops);
    RowAfter(m, rk, q);
    assert forall h :: h in ov ==> rk.key(ov[h]) != q;
    assert forall h :: h in base && h != k ==> rk.key(Live(base[h])) != q;
    assert forall h :: !Lands(m, rk, h, q);
  }

  /** After the collapsed markers are dropped, the issuer sees its old view carried through the new key, if
      and only if no marker lands on a committed row it does not delete and no hidden committed row loses
      the entry that hid it. */
  lemma RekeyIsExact(base: Table, ov: Overlay, rk: Rekey, drops: set<Key>)
    requires Ready(base, ov, rk, drops)
    ensures Seen(base, ov, rk, drops) == Rekeyed(Merged(base, ov), rk)
       <==> !Overshadows(base, ov, rk) && !Resurfaces(base, ov, rk)
  {
    if Overshadows(base, ov, rk) {
      OvershadowingHides(base, ov, rk, drops);
    } else if Resurfaces(base, ov, rk) {
      ResurfacingShows(base, ov, rk, drops);
    } else {
      forall q ensures SameAt(Seen(base, ov, rk, drops), Rekeyed(Merged(base, ov), rk), q) {
        RekeyAgreesAt(base, ov, rk, drops, q);
      }
      TablesMatch(Seen(base, ov, rk, drops), Rekeyed(Merged(base, ov), rk));
    }
  }

  lemma TablesMatch(a: Table, b: Table)
    requires forall q :: SameAt(a, b, q)
    ensures a == b
  {
    forall q ensures q in a <==> q in b {
      assert SameAt(a, b, q);
    }
    forall q | q in a ensures a[q] == b[q] {
      assert SameAt(a, b, q);
    }
  }

  /** The new key never separates entries the old key holds together. */
  ghost predicate Coarsens(s: Schema, rk: Rekey) {
    forall a: Slot, b: Slot :: KeyOf(s, a.row) == KeyOf(s, b.row) ==> rk.key(a) == rk.key(b)
  }

  /** With a coarser key, and every marker naming a committed row, the re-key is exact. */
  lemma CoarserRekeyIsExact(s: Schema, base: Table, ov: Overlay, rk: Rekey, drops: set<Key>)
    requires Keyed(s, base) && Staged(s, ov) && Coarsens(s, rk) && Ready(base, ov, rk, drops)
    requires forall k :: k in ov && ov[k].Marker? ==> k in base
    ensures Seen(base, ov, rk, drops) == Rekeyed(Merged(base, ov), rk)
  {
    forall k | k in base && k in ov ensures !Uncovered(base, ov, rk, k) {
      assert KeyOf(s, ov[k].row) == KeyOf(s, Live(base[k]).row);
      assert rk.key(ov[k]) == rk.key(Live(base[k]));
    }
    forall j, k | j in ov && ov[j].Marker? && k in base && k !in ov ensures rk.key(ov[j]) != rk.key(Live(base[k])) {
      assert KeyOf(s, ov[j].row) == KeyOf(s, Live(base[j]).row);
      assert rk.key(ov[j]) == rk.key(Live(base[j])) && j != k;
    }
    RekeyIsExact(base, ov, rk, drops);
  }

  // ---- the changes themselves -------------------------------------------------------------------

  function Image(fill: Row -> Row, mark: Row -> Row, x: Slot): Slot {
    if x.Live? then Live(fill(x.row)) else Marker(mark(x.row))
  }

  /** A change carried row by row: an entry's new key is the one its image has under the new schema. */
  function Carrying(after: Schema, fill: Row -> Row, mark: Row -> Row): Rekey {
    Rekey(x => KeyOf(after, Image(fill, mark, x).row), fill, mark)
  }

  /** Every image sits at its planned key under `after`. */
  ghost predicate Fits(after: Schema, rk: Rekey) {
    forall x :: KeyOf(after, Filled(rk, x).row) == rk.key(x)
  }

  lemma CarryingFits(after: Schema, fill: Row -> Row, mark: Row -> Row)
    ensures Fits(after, Carrying(after, fill, mark))
  {
    var rk := Carrying(after, fill, mark);
    forall x ensures KeyOf(after, Filled(rk, x).row) == rk.key(x) {
      assert Filled(rk, x) == Image(fill, mark, x);
    }
  }

  /** `set collate` on a key column: the rows stay, the key comparison changes. */
  function Recollated(after: Schema): Rekey {
    Carrying(after, row => row, row => row)
  }

  /** The row with the NULL at `column` filled. */
  function FillCell(column: nat, fill: Value, row: Row): Row {
    if Cell(row, column) != Null then row
    else if column < |row| then row[column := fill]
    else row + seq(column - |row|, i => Null) + [fill]
  }

  /** The key the plan computes for a key tuple: NULL at `pos` replaced by the default. */
  function FilledKey(s: Schema, pos: nat, fill: Value, row: Row): Key {
    Identity(s, FillCell(pos, fill, PkOf(s, row)))
  }

  /** `set not null` with a default on the key column at `pos`: NULL there becomes `fill`, in rows and
      markers alike. */
  function Backfilled(s: Schema, pos: nat, fill: Value): Rekey
    requires pos < |s.pk|
  {
    var column := s.pk[pos].index;
    Carrying(s, row => FillCell(column, fill, row), row => FillCell(column, fill, row))
  }

  /** NULL is equal to nothing but itself under every comparison. */
  ghost predicate NullStandsAlone(s: Schema) {
    forall c, v :: s.folds(c, v) == Null <==> v == Null
  }

  /** The filled row is keyed, in the unchanged key definition, at the key the plan computed for its tuple. */
  lemma BackfillKeysAgree(s: Schema, pos: nat, fill: Value, x: Slot)
    requires WellFormed(s) && pos < |s.pk|
    ensures Backfilled(s, pos, fill).key(x) == FilledKey(s, pos, fill, x.row)
  {
    var filled := FillCell(s.pk[pos].index, fill, x.row);
    forall i | 0 <= i < |s.pk| ensures PkOf(s, filled)[i] == FillCell(pos, fill, PkOf(s, x.row))[i] {
      if i != pos {
        assert s.pk[i].index != s.pk[pos].index;
      }
    }
    assert PkOf(s, filled) == FillCell(pos, fill, PkOf(s, x.row));
  }

  /** Filling keeps rows together that the key held together: a backfill is always a coarser key. */
  lemma BackfillCoarsens(s: Schema, pos: nat, fill: Value)
    requires WellFormed(s) && pos < |s.pk| && NullStandsAlone(s)
    ensures Coarsens(s, Backfilled(s, pos, fill))
  {
    var rk := Backfilled(s, pos, fill);
    forall a: Slot, b: Slot | KeyOf(s, a.row) == KeyOf(s, b.row) ensures rk.key(a) == rk.key(b) {
      BackfillKeysAgree(s, pos, fill, a);
      BackfillKeysAgree(s, pos, fill, b);
      FilledKeysMatch(s, pos, fill, a.row, b.row);
    }
  }

  lemma FilledKeysMatch(s: Schema, pos: nat, fill: Value, a: Row, b: Row)
    requires pos < |s.pk| && NullStandsAlone(s) && KeyOf(s, a) == KeyOf(s, b)
    ensures FilledKey(s, pos, fill, a) == FilledKey(s, pos, fill, b)
  {
    forall i | 0 <= i < |s.pk| ensures FilledKey(s, pos, fill, a)[i] == FilledKey(s, pos, fill, b)[i] {
      assert KeyOf(s, a)[i] == KeyOf(s, b)[i];
    }
  }

  /** Re-keyed entries sit at their own keys under the new definition. */
  lemma RekeyedIsStaged(after: Schema, ov: Overlay, rk: Rekey)
    requires Fits(after, rk)
    ensures Staged(after, RekeyedSlots(ov, rk))
  {
    forall q | q in RekeyedSlots(ov, rk) ensures KeyOf(after, RekeyedSlots(ov, rk)[q].row) == q {
      var k :| k in ov && SlotLands(ov, rk, k, q);
    }
  }

  /** So do the committed rows beneath. */
  lemma RekeyedIsKeyed(after: Schema, t: Table, rk: Rekey)
    requires Fits(after, rk)
    ensures Keyed(after, Rekeyed(t, rk))
  {
    forall q | q in Rekeyed(t, rk) ensures KeyOf(after, Rekeyed(t, rk)[q]) == q {
      var k :| k in t && Lands(t, rk, k, q);
      assert forall row :: KeyOf(after, Filled(rk, Live(row)).row) == rk.key(Live(row));
    }
  }

  // ---- a finer collation ------------------------------------------------------------------------

  function LowerA(c: string, v: Value): Value {
    if c == "NOCASE" && v == Text("A") then Text("a") else v
  }

  function OneText(collation: string): Schema {
    Schema(1, [Column(0, Aware, collation)], None, [], LowerA)
  }

  lemma OneTextKey(collation: string, v: Value)
    ensures KeyOf(OneText(collation), [v]) == [LowerA(collation, v)]
  {
    assert PkOf(OneText(collation), [v]) == [v];
  }

  /** One committed row, hidden by one staged row that the new key moves away from it: both show. */
  lemma SplitPairResurfaces(rk: Rekey, k: Key, committed: Row, staged: Row)
    requires rk.key(Live(committed)) != rk.key(Live(staged))
    ensures var base: Table, ov: Overlay := map[k := committed], map[k := Live(staged)];
            Ready(base, ov, rk, {}) && Seen(base, ov, rk, {}) != Rekeyed(Merged(base, ov), rk)
  {
    var base: Table, ov: Overlay := map[k := committed], map[k := Live(staged)];
    assert k in base && k in ov && Uncovered(base, ov, rk, k);
    assert Merged(base, ov) == map[k := staged];
    RekeyIsExact(base, ov, rk, {});
  }

  lemma RekeyedOne(k: Key, row: Row, rk: Rekey)
    ensures Rekeyed(map[k := row], rk) == map[rk.key(Live(row)) := rk.fill(row)]
  {
    var one: Table := map[k := row];
    assert Lands(one, rk, k, rk.key(Live(row)));
  }

  lemma RekeyedOneSlot(k: Key, x: Slot, rk: Rekey)
    ensures RekeyedSlots(map[k := x], rk) == map[rk.key(x) := Filled(rk, x)]
  {
    var one: Overlay := map[k := x];
    assert SlotLands(one, rk, k, rk.key(x));
  }

  /** One entry has nothing to collapse onto. */
  lemma OneSlotDropsNothing(j: Key, x: Slot, rk: Rekey)
    ensures DropPlan(map[j := x], rk, {})
  {
  }

  lemma BesideMarker(j: Key, k: Key, committed: Row, image: Row)
    requires j != k
    ensures Merged(map[k := committed], map[j := Marker(image)]) == map[k := committed]
  {
  }

  lemma UnderMarker(q: Key, row: Row, image: Row)
    ensures Merged(map[q := row], map[q := Marker(image)]) == map[]
  {
  }

  /** A marker moved onto the new key of a committed row it did not name deletes that row. */
  lemma OrphanMarkerCovers(rk: Rekey, j: Key, k: Key, committed: Row, image: Row)
    requires j != k && rk.key(Marker(image)) == rk.key(Live(committed))
    ensures Ready(map[k := committed], map[j := Marker(image)], rk, {})
    ensures Merged(map[k := committed], map[j := Marker(image)]) == map[k := committed]
    ensures Seen(map[k := committed], map[j := Marker(image)], rk, {}) == map[]
  {
    var base: Table, ov: Overlay := map[k := committed], map[j := Marker(image)];
    BesideMarker(j, k, committed, image);
    OneSlotDropsNothing(j, Marker(image), rk);
    assert ov - {} == ov;
    RekeyedOne(k, committed, rk);
    RekeyedOneSlot(j, Marker(image), rk);
    UnderMarker(rk.key(Live(committed)), rk.fill(committed), rk.mark(image));
  }

  /** A row 'A' staged and deleted under BINARY leaves a marker that names no committed row. Once the column
      compares as NOCASE the marker falls on the committed 'a' and deletes it. */
  lemma OrphanMarkerHidesRow()
    ensures var base: Table, ov: Overlay := map[[Text("a")] := [Text("a")]], map[[Text("A")] := Marker([Text("A")])];
            var rk := Recollated(OneText("NOCASE"));
            && Keyed(OneText("BINARY"), base) && Staged(OneText("BINARY"), ov) && Ready(base, ov, rk, {})
            && Merged(base, ov) == base && Seen(base, ov, rk, {}) == map[]
  {
    OneTextKey("BINARY", Text("a"));
    OneTextKey("BINARY", Text("A"));
    OneTextKey("NOCASE", Text("a"));
    OneTextKey("NOCASE", Text("A"));
    assert [Text("A")][0].s[0] != [Text("a")][0].s[0];
    OrphanMarkerCovers(Recollated(OneText("NOCASE")), [Text("A")], [Text("a")], [Text("a")], [Text("A")]);
  }

  /** A backfill of a key column is exact for every overlay whose markers name committed rows. */
  lemma BackfillIsExact(s: Schema, pos: nat, fill: Value, base: Table, ov: Overlay, drops: set<Key>)
    requires WellFormed(s) && pos < |s.pk| && NullStandsAlone(s) && Keyed(s, base) && Staged(s, ov)
    requires Ready(base, ov, Backfilled(s, pos, fill), drops)
    requires forall k :: k in ov && ov[k].Marker? ==> k in base
    ensures Seen(base, ov, Backfilled(s, pos, fill), drops) == Rekeyed(Merged(base, ov), Backfilled(s, pos, fill))
  {
    BackfillCoarsens(s, pos, fill);
    CoarserRekeyIsExact(s, base, ov, Backfilled(s, pos, fill), drops);
  }

  /** A finer collation breaks the shadow: under NOCASE a staged 'A' hides the committed 'a'; once the
      column compares as BINARY both are seen. */
  lemma FinerCollationResurfacesRows()
    ensures var base: Table, ov: Overlay := map[[Text("a")] := [Text("a")]], map[[Text("a")] := Live([Text("A")])];
            var rk := Recollated(OneText("BINARY"));
            && Keyed(OneText("NOCASE"), base) && Staged(OneText("NOCASE"), ov) && Ready(base, ov, rk, {})
            && Seen(base, ov, rk, {}) != Rekeyed(Merged(base, ov), rk)
  {
    OneTextKey("NOCASE", Text("a"));
    OneTextKey("NOCASE", Text("A"));
    OneTextKey("BINARY", Text("a"));
    OneTextKey("BINARY", Text("A"));
    var rk := Recollated(OneText("BINARY"));
    assert Text("a").s[0] != Text("A").s[0];
    assert rk.key(Live([Text("a")]))[0] != rk.key(Live([Text("A")]))[0];
    SplitPairResurfaces(rk, [Text("a")], [Text("a")], [Text("A")]);
  }

  // ---- grouping and planning --------------------------------------------------------------------

  /** The staged entries on one new key: the live rows' old tuples, and the markers' whole rows. */
  datatype Group = Group(livePks: seq<Pk>, markerRows: seq<Row>)

  function GroupAt(s: Schema, rk: Rekey, scan: seq<Slot>, q: Key): Group {
    if scan == [] then Group([], [])
    else
      var g, x := GroupAt(s, rk, scan[..|scan| - 1], q), scan[|scan| - 1];
      if rk.key(x) != q then g
      else if x.Live? then g.(livePks := g.livePks + [PkOf(s, x.row)])
      else g.(markerRows := g.markerRows + [x.row])
  }

  /** The group is the entries of `scan` that land on `q`: its markers each once, and fewer than two live rows exactly
      when no two differ. */
  ghost predicate GroupOf(rk: Rekey, scan: seq<Slot>, q: Key, g: Group) {
    && (forall r :: r in g.markerRows <==> Marker(r) in scan && rk.key(Marker(r)) == q)
    && (forall i, j :: 0 <= i < j < |g.markerRows| ==> g.markerRows[i] != g.markerRows[j])
    && (g.livePks != [] <==> exists r :: Live(r) in scan && rk.key(Live(r)) == q)
    && (|g.livePks| < 2 <==>
        forall a, b :: Live(a) in scan && Live(b) in scan && rk.key(Live(a)) == q && rk.key(Live(b)) == q ==> a == b)
  }

  lemma {:induction false} GroupHolds(s: Schema, rk: Rekey, scan: seq<Slot>, q: Key)
    requires EachOnce(s, scan)
    ensures GroupOf(rk, scan, q, GroupAt(s, rk, scan, q))
  {
    if scan != [] {
      var rest, x := scan[..|scan| - 1], scan[|scan| - 1];
      assert scan == rest + [x];
      assert EachOnce(s, rest);
      GroupHolds(s, rk, rest, q);
      assert x !in rest by {
        forall i | 0 <= i < |rest| ensures rest[i] != x { assert rest[i] == scan[i]; }
      }
      GroupGrows(s, rk, rest, x, q);
    }
  }

  lemma GroupGrows(s: Schema, rk: Rekey, rest: seq<Slot>, x: Slot, q: Key)
    requires x !in rest
    requires GroupOf(rk, rest, q, GroupAt(s, rk, rest, q))
    ensures GroupOf(rk, rest + [x], q, GroupAt(s, rk, rest + [x], q))
  {
    assert (rest + [x])[..|rest + [x]| - 1] == rest;
    var g := GroupAt(s, rk, rest, q);
    if rk.key(x) == q && x.Live? {
      if g.livePks != [] {
        var r :| Live(r) in rest && rk.key(Live(r)) == q;
        assert Live(r) in rest + [x] && Live(x.row) in rest + [x] && r != x.row;
      }
    }
  }

  method CollectPkRekeyGroups(s: Schema, rk: Rekey, scan: seq<Slot>) returns (groups: map<Key, Group>)
    ensures forall q :: q in groups <==> exists x :: x in scan && rk.key(x) == q
    ensures forall q :: q in groups ==> groups[q] == GroupAt(s, rk, scan, q)
  {
    groups := map[];
    for i := 0 to |scan|
      invariant forall q :: q in groups <==> exists x :: x in scan[..i] && rk.key(x) == q
      invariant forall q :: GroupAt(s, rk, scan[..i], q) == if q in groups then groups[q] else Group([], [])
    {
      var row, key := scan[i].row, rk.key(scan[i]);
      var group := if key in groups then groups[key] else Group([], []);
      if scan[i].Marker? {
        group := group.(markerRows := group.markerRows + [row]);
      } else {
        group := group.(livePks := group.livePks + [PkOf(s, row)]);
      }
      assert scan[..i + 1][..i] == scan[..i] && scan[..i + 1] == scan[..i] + [scan[i]];
      groups := groups[key := group];
    }
    assert scan[..|scan|] == scan;
  }

  /** The dry run: refuses exactly when two staged live rows land on one new key. */
  method ValidateRekey(s: Schema, rk: Rekey, scan: seq<Slot>) returns (ok: bool)
    requires EachOnce(s, scan)
    ensures ok <==> forall a, b :: Live(a) in scan && Live(b) in scan && rk.key(Live(a)) == rk.key(Live(b)) ==> a == b
  {
    var groups := CollectPkRekeyGroups(s, rk, scan);
    var left := groups.Keys;
    while left != {}
      invariant left <= groups.Keys
      invariant forall q :: q in groups && q !in left ==> |groups[q].livePks| < 2
      decreases |left|
    {
      var q :| q in left;
      if |groups[q].livePks| >= 2 {
        GroupHolds(s, rk, scan, q);
        return false;
      }
      left := left - {q};
    }
    forall a, b | Live(a) in scan && Live(b) in scan && rk.key(Live(a)) == rk.key(Live(b)) ensures a == b {
      assert Live(a).row == a;
      GroupHolds(s, rk, scan, rk.key(Live(a)));
    }
    ok := true;
  }

  /** A marker beside a live row on its new key, or behind another marker there. */
  ghost predicate Collapses(s: Schema, rk: Rekey, scan: seq<Slot>, r: Row) {
    var g := GroupAt(s, rk, scan, rk.key(Marker(r)));
    r in g.markerRows && (g.livePks != [] || r != g.markerRows[0])
  }

  method PlanPkRekeyMarkerDrops(s: Schema, rk: Rekey, scan: seq<Slot>) returns (drops: seq<Row>)
    requires EachOnce(s, scan)
    ensures forall r :: r in drops <==> Collapses(s, rk, scan, r)
    ensures NoRepeats(drops)
  {
    var groups := CollectPkRekeyGroups(s, rk, scan);
    drops := [];
    var all := groups.Keys;
    var left, done: set<Key> := all, {};
    while left != {}
      invariant left <= all && left !! done
      invariant left + done == all
      invariant Planned(s, rk, scan, done, drops)
      decreases |left|
    {
      var q :| q in left;
      var group := groups[q];
      var more := if |group.livePks| > 0 then group.markerRows
                  else if |group.markerRows| == 0 then [] else group.markerRows[1..];
      GroupDrops(s, rk, scan, q, more);
      PlanGroup(s, rk, scan, done, q, drops, more);
      drops := drops + more;
      MoveKey(left, done, q);
      left, done := left - {q}, done + {q};
    }
    PlannedAll(s, rk, scan, done, drops);
  }

  lemma MoveKey(left: set<Key>, done: set<Key>, q: Key)
    requires q in left
    ensures (left - {q}) + (done + {q}) == left + done
  {
  }

  ghost predicate NoRepeats(rows: seq<Row>) {
    forall i, j :: 0 <= i < j < |rows| ==> rows[i] != rows[j]
  }

  /** The planner's progress: what collapses on the new keys done so far, each row once. */
  ghost predicate Planned(s: Schema, rk: Rekey, scan: seq<Slot>, done: set<Key>, drops: seq<Row>) {
    && (forall r :: r in drops <==> rk.key(Marker(r)) in done && Collapses(s, rk, scan, r))
    && NoRepeats(drops)
  }

  lemma PlanGroup(s: Schema, rk: Rekey, scan: seq<Slot>, done: set<Key>, q: Key, drops: seq<Row>, more: seq<Row>)
    requires q !in done && Planned(s, rk, scan, done, drops) && Planned(s, rk, scan, {q}, more)
    ensures Planned(s, rk, scan, done + {q}, drops + more)
  {
    forall r ensures r in drops + more <==> rk.key(Marker(r)) in done + {q} && Collapses(s, rk, scan, r) {
      assert r in drops + more <==> r in drops || r in more;
    }
    assert forall r :: r in more ==> r !in drops;
    JoinedWithoutRepeats(drops, more);
  }

  lemma JoinedWithoutRepeats(a: seq<Row>, b: seq<Row>)
    requires NoRepeats(a) && NoRepeats(b) && forall r :: r in b ==> r !in a
    ensures NoRepeats(a + b)
  {
    forall i, j | 0 <= i < j < |a + b| ensures (a + b)[i] != (a + b)[j] {
      if i < |a| <= j {
        assert a[i] in a && b[j - |a|] in b;
      }
    }
  }

  lemma PlannedAll(s: Schema, rk: Rekey, scan: seq<Slot>, done: set<Key>, drops: seq<Row>)
    requires EachOnce(s, scan) && Planned(s, rk, scan, done, drops)
    requires forall q :: q in done <==> exists x :: x in scan && rk.key(x) == q
    ensures forall r :: r in drops <==> Collapses(s, rk, scan, r)
  {
    forall r | Collapses(s, rk, scan, r) ensures r in drops {
      GroupHolds(s, rk, scan, rk.key(Marker(r)));
      assert Marker(r).row == r;
    }
  }

  lemma GroupDrops(s: Schema, rk: Rekey, scan: seq<Slot>, q: Key, more: seq<Row>)
    requires EachOnce(s, scan)
    requires var g := GroupAt(s, rk, scan, q);
             more == if |g.livePks| > 0 then g.markerRows else if |g.markerRows| == 0 then [] else g.markerRows[1..]
    ensures Planned(s, rk, scan, {q}, more)
  {
    GroupHolds(s, rk, scan, q);
    var g := GroupAt(s, rk, scan, q);
    if |g.livePks| == 0 && |g.markerRows| > 0 {
      assert g.markerRows == [g.markerRows[0]] + more;
      assert forall r :: r in g.markerRows <==> r == g.markerRows[0] || r in more;
    }
  }

  ghost function KeysOfRows(s: Schema, rows: seq<Row>): set<Key> {
    set r | r in rows :: KeyOf(s, r)
  }

  /** What the planner finds is a drop plan. */
  lemma CollapsesArePlan(s: Schema, rk: Rekey, ov: Overlay, scan: seq<Slot>, drops: seq<Row>)
    requires Staged(s, ov) && Scans(s, ov, scan) && forall r :: r in drops <==> Collapses(s, rk, scan, r)
    ensures DropPlan(ov, rk, KeysOfRows(s, drops))
    ensures forall r :: r in drops ==> KeyOf(s, r) in ov && ov[KeyOf(s, r)] == Marker(r)
  {
    var gone := KeysOfRows(s, drops);
    forall r | r in drops ensures Marker(r) in scan && KeyOf(s, r) in ov && ov[KeyOf(s, r)] == Marker(r) {
      GroupHolds(s, rk, scan, rk.key(Marker(r)));
      assert Marker(r).row == r;
    }
    forall k | k in ov ensures ov[k] in scan && (k in gone <==> ov[k].Marker? && Collapses(s, rk, scan, ov[k].row)) {
      if ov[k].Marker? {
        assert Marker(ov[k].row) == ov[k];
      }
    }
    forall k | k in gone ensures exists j :: j in ov && j !in gone && rk.key(ov[j]) == rk.key(ov[k]) {
      KeptBeside(s, rk, ov, scan, gone, k);
    }
    forall j, k | j in ov && k in ov && j != k && j !in gone && k !in gone && ov[k].Marker?
      ensures rk.key(ov[j]) != rk.key(ov[k])
    {
      KeptMarkerIsAlone(s, rk, ov, scan, j, k);
    }
  }

  lemma KeptBeside(s: Schema, rk: Rekey, ov: Overlay, scan: seq<Slot>, gone: set<Key>, k: Key)
    requires Staged(s, ov) && Scans(s, ov, scan) && k in ov && ov[k].Marker? && Collapses(s, rk, scan, ov[k].row)
    requires forall j :: j in ov ==>
             ov[j] in scan && (j in gone <==> ov[j].Marker? && Collapses(s, rk, scan, ov[j].row))
    ensures exists j :: j in ov && j !in gone && rk.key(ov[j]) == rk.key(ov[k])
  {
    var q := rk.key(ov[k]);
    var g := GroupAt(s, rk, scan, q);
    GroupHolds(s, rk, scan, q);
    var x: Slot;
    if g.livePks != [] {
      var r :| Live(r) in scan && rk.key(Live(r)) == q;
      x := Live(r);
    } else {
      x := Marker(g.markerRows[0]);
      assert g.markerRows[0] in g.markerRows;
    }
    assert x in scan && rk.key(x) == q;
    assert KeyOf(s, x.row) in ov && ov[KeyOf(s, x.row)] == x;
  }

  lemma KeptMarkerIsAlone(s: Schema, rk: Rekey, ov: Overlay, scan: seq<Slot>, j: Key, k: Key)
    requires Staged(s, ov) && Scans(s, ov, scan) && j in ov && k in ov && j != k && ov[j] in scan && ov[k] in scan
    requires ov[k].Marker? && !Collapses(s, rk, scan, ov[k].row)
    requires ov[j].Marker? ==> !Collapses(s, rk, scan, ov[j].row)
    ensures rk.key(ov[j]) != rk.key(ov[k])
  {
    GroupHolds(s, rk, scan, rk.key(ov[k]));
    assert Marker(ov[k].row) == ov[k];
    assert ov[j].Live? ==> Live(ov[j].row) == ov[j];
    assert ov[j].Marker? ==> Marker(ov[j].row) == ov[j];
    assert KeyOf(s, ov[j].row) == j && KeyOf(s, ov[k].row) == k;
  }

  // ---- the writes -------------------------------------------------------------------------------

  lemma DropKeys(s: Schema, rows: seq<Row>, i: nat)
    requires i < |rows|
    ensures KeysOfRows(s, rows[..i + 1]) == KeysOfRows(s, rows[..i]) + {KeyOf(s, rows[i])}
  {
    assert rows[..i + 1] == rows[..i] + [rows[i]];
  }

  lemma DropOneMore(ov: Overlay, gone: set<Key>, k: Key)
    ensures (ov - gone) - {k} == ov - (gone + {k})
  {
  }

  lemma PutBackOne(ov: Overlay, gone: set<Key>, k: Key)
    requires k in ov && k in gone
    ensures (ov - gone)[k := ov[k]] == ov - (gone - {k})
  {
  }

  /** Markers to drop: staged ones, each named once. */
  ghost predicate Droppable(s: Schema, ov: Overlay, rows: seq<Row>) {
    && (forall r :: r in rows ==> KeyOf(s, r) in ov && ov[KeyOf(s, r)] == Marker(r))
    && NoRepeats(rows)
  }

  lemma StillThere(s: Schema, ov: Overlay, rows: seq<Row>, i: nat)
    requires Droppable(s, ov, rows) && i < |rows|
    ensures KeyOf(s, rows[i]) !in KeysOfRows(s, rows[..i]) && KeyOf(s, rows[i]) in ov &&
            ov[KeyOf(s, rows[i])] == Marker(rows[i])
  {
    assert rows[i] in rows;
    forall r | r in rows[..i] ensures KeyOf(s, r) != KeyOf(s, rows[i]) {
      assert r in rows && r != rows[i];
    }
  }

  lemma LeftToRestore(s: Schema, ov: Overlay, rows: seq<Row>, i: nat)
    requires Droppable(s, ov, rows) && i < |rows|
    ensures KeysOfRows(s, rows[i..]) - {KeyOf(s, rows[i])} == KeysOfRows(s, rows[i + 1..])
    ensures KeyOf(s, rows[i]) in KeysOfRows(s, rows[i..]) && KeyOf(s, rows[i]) in ov &&
            ov[KeyOf(s, rows[i])] == Marker(rows[i])
  {
    assert rows[i..] == [rows[i]] + rows[i + 1..];
    assert rows[i] in rows;
    forall r | r in rows[i + 1..] ensures KeyOf(s, r) != KeyOf(s, rows[i]) {
      assert r in rows && r != rows[i];
    }
  }

  /** The live rows of a scan collide exactly when the staged ones do. */
  lemma ScannedCollision(s: Schema, ov: Overlay, rk: Rekey, scan: seq<Slot>)
    requires Staged(s, ov) && Scans(s, ov, scan)
    ensures NoLiveCollision(ov, rk) <==>
            forall a, b :: Live(a) in scan && Live(b) in scan && rk.key(Live(a)) == rk.key(Live(b)) ==> a == b
  {
    forall r | Live(r) in scan ensures KeyOf(s, r) in ov && ov[KeyOf(s, r)] == Live(r) {
      assert Live(r).row == r;
    }
    forall k | k in ov && ov[k].Live? ensures Live(ov[k].row) in scan {
      assert Live(ov[k].row) == ov[k];
    }
  }

  // ---- backfilling one entry at a time ----------------------------------------------------------

  /** The entry at `j` moves onto the old or the new key of another. */
  ghost predicate Meets(ov: Overlay, rk: Rekey, j: Key, k: Key) {
    j in ov && k in ov && j != k && (rk.key(ov[j]) == k || rk.key(ov[j]) == rk.key(ov[k]))
  }

  ghost predicate Settles(ov: Overlay, rk: Rekey) {
    forall j, k :: !Meets(ov, rk, j, k)
  }

  lemma BackfillSettles(s: Schema, pos: nat, fill: Value, ov: Overlay)
    requires WellFormed(s) && NullStandsAlone(s) && pos < |s.pk| && fill != Null && Staged(s, ov)
    requires DistinctSlots(ov, Backfilled(s, pos, fill))
    ensures Settles(ov, Backfilled(s, pos, fill))
  {
    var rk := Backfilled(s, pos, fill);
    forall j, k | j in ov && k in ov && j != k ensures rk.key(ov[j]) != k {
      assert rk.key(ov[j]) != rk.key(ov[k]);
      BackfillKeysAgree(s, pos, fill, ov[j]);
      BackfillKeysAgree(s, pos, fill, ov[k]);
      FilledIsNotNull(s, pos, fill, ov[j].row);
      FilledKeyStays(s, pos, fill, ov[k].row);
    }
  }

  lemma FilledIsNotNull(s: Schema, pos: nat, fill: Value, row: Row)
    requires NullStandsAlone(s) && pos < |s.pk| && fill != Null
    ensures FilledKey(s, pos, fill, row)[pos] != Null
  {
  }

  lemma FilledKeyStays(s: Schema, pos: nat, fill: Value, row: Row)
    requires NullStandsAlone(s) && pos < |s.pk|
    ensures KeyOf(s, row)[pos] == Null || FilledKey(s, pos, fill, row) == KeyOf(s, row)
  {
  }

  /** The entry at `k`, or its rewrite, is where it should be once `moved` are done. */
  ghost predicate InPlace(was: Overlay, rk: Rekey, moved: set<Key>, now: Overlay, k: Key)
    requires k in was
  {
    var at := if k in moved then rk.key(was[k]) else k;
    at in now && now[at] == if k in moved then Filled(rk, was[k]) else was[k]
  }

  /** What sits at `q` is the entry of `k`. */
  ghost predicate From(was: Overlay, rk: Rekey, moved: set<Key>, k: Key, q: Key) {
    k in was && q == if k in moved then rk.key(was[k]) else k
  }

  ghost predicate PartlyMoved(was: Overlay, rk: Rekey, moved: set<Key>, now: Overlay) {
    && (forall k :: k in was ==> InPlace(was, rk, moved, now, k))
    && (forall q :: q in now ==> exists k :: From(was, rk, moved, k, q))
  }

  lemma MoveOne(was: Overlay, rk: Rekey, moved: set<Key>, now: Overlay, k: Key)
    requires Settles(was, rk) && PartlyMoved(was, rk, moved, now) && k in was && k !in moved
    ensures rk.key(was[k]) !in now - {k}
    ensures PartlyMoved(was, rk, moved + {k}, (now - {k})[rk.key(was[k]) := Filled(rk, was[k])])
  {
    var q := rk.key(was[k]);
    var next := (now - {k})[q := Filled(rk, was[k])];
    assert forall j :: From(was, rk, moved, j, q) ==> j == k || Meets(was, rk, k, j);
    forall j | j in was ensures InPlace(was, rk, moved + {k}, next, j) {
      assert InPlace(was, rk, moved, now, j);
      assert !Meets(was, rk, k, j) && !Meets(was, rk, j, k);
    }
    forall p | p in next ensures exists j :: From(was, rk, moved + {k}, j, p) {
      if p == q {
        assert From(was, rk, moved + {k}, k, p);
      } else {
        var j :| From(was, rk, moved, j, p);
        assert From(was, rk, moved + {k}, j, p);
      }
    }
  }

  ghost predicate Moved(s: Schema, scan: seq<Slot>, i: nat, moved: set<Key>)
    requires i <= |scan|
  {
    forall k :: k in moved <==> exists j :: 0 <= j < i && KeyOf(s, scan[j].row) == k
  }

  lemma ScannedEntry(s: Schema, was: Overlay, scan: seq<Slot>, i: nat, moved: set<Key>)
    requires Staged(s, was) && Scans(s, was, scan) && i < |scan| && Moved(s, scan, i, moved)
    ensures KeyOf(s, scan[i].row) in was && was[KeyOf(s, scan[i].row)] == scan[i] && KeyOf(s, scan[i].row) !in moved
    ensures Moved(s, scan, i + 1, moved + {KeyOf(s, scan[i].row)})
  {
    assert scan[i] in was.Values;
    var k :| k in was && was[k] == scan[i];
  }

  lemma AllMoved(s: Schema, was: Overlay, rk: Rekey, scan: seq<Slot>, moved: set<Key>, now: Overlay)
    requires Staged(s, was) && Scans(s, was, scan) && Moved(s, scan, |scan|, moved)
    requires DistinctSlots(was, rk) && PartlyMoved(was, rk, moved, now)
    ensures now == RekeyedSlots(was, rk)
  {
    assert forall k :: k in was ==> k in moved by {
      forall k | k in was ensures k in moved {
        assert was[k] in scan;
        var j :| 0 <= j < |scan| && scan[j] == was[k];
        assert KeyOf(s, scan[j].row) == k;
      }
    }
    FullyMoved(was, rk, moved, now);
  }

  lemma FullyMoved(was: Overlay, rk: Rekey, moved: set<Key>, now: Overlay)
    requires DistinctSlots(was, rk) && PartlyMoved(was, rk, moved, now) && forall k :: k in was ==> k in moved
    ensures now == RekeyedSlots(was, rk)
  {
    var whole := RekeyedSlots(was, rk);
    forall q | q in now ensures q in whole && whole[q] == now[q] {
      var k :| From(was, rk, moved, k, q);
      assert InPlace(was, rk, moved, now, k);
      RekeyedSlotAt(was, rk, k);
    }
    forall q | q in whole ensures q in now {
      var k :| k in was && SlotLands(was, rk, k, q);
      assert InPlace(was, rk, moved, now, k);
    }
  }

  /** A staging table the key column at `pos` can be backfilled in. */
  ghost predicate Fillable(s: Schema, pos: nat, fill: Value, was: Overlay, scan: seq<Slot>) {
    && WellFormed(s) && NullStandsAlone(s) && pos < |s.pk| && fill != Null && Staged(s, was) && Scans(s, was, scan)
    && DistinctSlots(was, Backfilled(s, pos, fill))
  }

  ghost predicate Filling(s: Schema, pos: nat, fill: Value, was: Overlay, scan: seq<Slot>, i: nat, now: Overlay)
    requires pos < |s.pk| && i <= |scan|
  {
    exists moved :: Moved(s, scan, i, moved) && PartlyMoved(was, Backfilled(s, pos, fill), moved, now)
  }

  lemma FillStart(s: Schema, pos: nat, fill: Value, was: Overlay, scan: seq<Slot>)
    requires Fillable(s, pos, fill, was, scan)
    ensures Filling(s, pos, fill, was, scan, 0, was)
  {
    var rk := Backfilled(s, pos, fill);
    assert forall k :: k in was ==> From(was, rk, {}, k, k);
    assert Moved(s, scan, 0, {}) && PartlyMoved(was, rk, {}, was);
  }

  /** The entry a rewrite leaves. */
  function Rewritten(column: nat, fill: Value, x: Slot): Slot {
    if x.Live? then Live(FillCell(column, fill, x.row)) else Marker(FillCell(column, fill, x.row))
  }

  lemma FillStep(s: Schema, pos: nat, fill: Value, was: Overlay, scan: seq<Slot>, i: nat, now: Overlay)
    requires Fillable(s, pos, fill, was, scan) && i < |scan| && Filling(s, pos, fill, was, scan, i, now)
    ensures KeyOf(s, Rewritten(s.pk[pos].index, fill, scan[i]).row) !in now - {KeyOf(s, scan[i].row)}
    ensures Filling(s, pos, fill, was, scan, i + 1,
            Replaced(s, now, scan[i], Rewritten(s.pk[pos].index, fill, scan[i])))
    ensures KeyOf(s, scan[i].row) in now && now[KeyOf(s, scan[i].row)] == scan[i]
  {
    var rk := Backfilled(s, pos, fill);
    var moved :| Moved(s, scan, i, moved) && PartlyMoved(was, rk, moved, now);
    var k := KeyOf(s, scan[i].row);
    ScannedEntry(s, was, scan, i, moved);
    assert InPlace(was, rk, moved, now, k);
    assert rk.key(was[k]) !in now - {k} &&
        PartlyMoved(was, rk, moved + {k}, (now - {k})[rk.key(was[k]) := Filled(rk, was[k])]) by {
      BackfillSettles(s, pos, fill, was);
      MoveOne(was, rk, moved, now, k);
    }
    var y := Rewritten(s.pk[pos].index, fill, scan[i]);
    assert Filled(rk, was[k]) == y && rk.key(was[k]) == KeyOf(s, y.row);
    FillingNow(s, pos, fill, was, scan, i + 1, moved + {k}, Replaced(s, now, scan[i], y));
  }

  lemma FillingNow(s: Schema, pos: nat, fill: Value, was: Overlay, scan: seq<Slot>, i: nat, moved: set<Key>,
                   now: Overlay)
    requires pos < |s.pk| && i <= |scan| && Moved(s, scan, i, moved) &&
             PartlyMoved(was, Backfilled(s, pos, fill), moved, now)
    ensures Filling(s, pos, fill, was, scan, i, now)
  {
  }

  /** `x` taken away and `y` put at its own key. */
  function Replaced(s: Schema, now: Overlay, x: Slot, y: Slot): Overlay {
    (now - {KeyOf(s, x.row)})[KeyOf(s, y.row) := y]
  }

  lemma NothingToFill(s: Schema, column: nat, fill: Value, now: Overlay, x: Slot)
    requires KeyOf(s, x.row) in now && now[KeyOf(s, x.row)] == x && Cell(x.row, column) != Null
    ensures Replaced(s, now, x, Rewritten(column, fill, x)) == now
  {
  }

  /** One entry's rewrite: nothing to do, refused because its new key is taken, or done. */
  function FillEntry(s: Schema, column: nat, fill: Value, now: Overlay, x: Slot): Option<Overlay> {
    var y := Rewritten(column, fill, x);
    if Cell(x.row, column) != Null then Some(now)
    else if KeyOf(s, y.row) in now - {KeyOf(s, x.row)} then None
    else Some(Replaced(s, now, x, y))
  }

  lemma FillAccepted(s: Schema, pos: nat, fill: Value, was: Overlay, scan: seq<Slot>, i: nat, now: Overlay)
    requires Fillable(s, pos, fill, was, scan) && i < |scan| && Filling(s, pos, fill, was, scan, i, now)
    ensures var next := FillEntry(s, s.pk[pos].index, fill, now, scan[i]);
            next.Some? && Filling(s, pos, fill, was, scan, i + 1, next.value)
  {
    FillStep(s, pos, fill, was, scan, i, now);
    if Cell(scan[i].row, s.pk[pos].index) != Null {
      NothingToFill(s, s.pk[pos].index, fill, now, scan[i]);
    }
  }

  lemma FillEnd(s: Schema, pos: nat, fill: Value, was: Overlay, scan: seq<Slot>, now: Overlay)
    requires Fillable(s, pos, fill, was, scan) && Filling(s, pos, fill, was, scan, |scan|, now)
    ensures now == RekeyedSlots(was, Backfilled(s, pos, fill)) && Staged(s, now)
  {
    var rk := Backfilled(s, pos, fill);
    var moved :| Moved(s, scan, |scan|, moved) && PartlyMoved(was, rk, moved, now);
    AllMoved(s, was, rk, scan, moved, now);
    CarryingFits(s, rk.fill, rk.mark);
    RekeyedIsStaged(s, was, rk);
  }

  /** An overlay's staging table, as its own write path sees it: entries are deleted, inserted and moved one
      at a time, and each call can be refused. */
  class StagingTable {
    const schema: Schema
    var slots: Overlay

    constructor (s: Schema, staged: Overlay)
      ensures schema == s && slots == staged
    {
      schema, slots := s, staged;
    }

    /** Deletes each planned marker by its old key. No delete finds its marker missing. */
    method ApplyPkRekeyMarkerDrops(rows: seq<Row>) returns (ok: bool)
      requires Droppable(schema, slots, rows)
      modifies this
      ensures ok && slots == old(slots) - KeysOfRows(schema, rows)
    {
      ghost var was := slots;
      for i := 0 to |rows|
        invariant slots == was - KeysOfRows(schema, rows[..i])
      {
        StillThere(schema, was, rows, i);
        var k := KeyOf(schema, rows[i]);
        if k !in slots {
          return false;
        }
        DropOneMore(was, KeysOfRows(schema, rows[..i]), k);
        DropKeys(schema, rows, i);
        slots := slots - {k};
      }
      assert rows[..|rows|] == rows;
      ok := true;
    }

    /** Puts each dropped marker back whole. No insert finds its key taken, and the overlay is as it was. */
    method ReinsertPkRekeyMarkers(rows: seq<Row>, ghost was: Overlay) returns (ok: bool)
      requires Droppable(schema, was, rows) && slots == was - KeysOfRows(schema, rows)
      modifies this
      ensures ok && slots == was
    {
      for i := 0 to |rows|
        invariant slots == was - KeysOfRows(schema, rows[i..])
      {
        LeftToRestore(schema, was, rows, i);
        var k := KeyOf(schema, rows[i]);
        if k in slots {
          return false;
        }
        PutBackOne(was, KeysOfRows(schema, rows[i..]), k);
        slots := slots[k := Marker(rows[i])];
      }
      assert rows[|rows|..] == [];
      ok := true;
    }

    /** The issuer's tier before the table beneath re-keys: validate, plan, drop; a refusal beneath puts
        everything back. `scan` is any enumeration of the staged entries. */
    method PrepareRekey(rk: Rekey, scan: seq<Slot>, refused: bool) returns (ok: bool)
      requires Staged(schema, slots) && Scans(schema, slots, scan)
      modifies this
      ensures ok <==> !refused && NoLiveCollision(old(slots), rk)
      ensures !ok ==> slots == old(slots)
      ensures ok ==> DistinctSlots(slots, rk)
      ensures ok ==> exists drops: set<Key> :: DropPlan(old(slots), rk, drops) && slots == old(slots) - drops
    {
      ghost var was := slots;
      var sound := ValidateRekey(schema, rk, scan);
      ScannedCollision(schema, slots, rk, scan);
      if !sound {
        return false;
      }
      var rows := PlanPkRekeyMarkerDrops(schema, rk, scan);
      CollapsesArePlan(schema, rk, slots, scan, rows);
      var dropped := ApplyPkRekeyMarkerDrops(rows);
      if refused {
        var restored := ReinsertPkRekeyMarkers(rows, was);
        return false;
      }
      PlanLeavesDistinct(was, rk, KeysOfRows(schema, rows));
      ok := true;
    }

    /** Rewrites every staged NULL at the key column at `pos`. No rewrite lands on a taken key, and the
        staging table ends re-keyed. */
    method BackfillStagedNotNull(pos: nat, fill: Value, scan: seq<Slot>) returns (ok: bool)
      requires Fillable(schema, pos, fill, slots, scan)
      modifies this
      ensures ok && slots == RekeyedSlots(old(slots), Backfilled(schema, pos, fill))
      ensures Staged(schema, slots)
    {
      ghost var was := slots;
      FillStart(schema, pos, fill, was, scan);
      var column := schema.pk[pos].index;
      for i := 0 to |scan|
        invariant Filling(schema, pos, fill, was, scan, i, slots)
      {
        FillAccepted(schema, pos, fill, was, scan, i, slots);
        var next := FillEntry(schema, column, fill, slots, scan[i]);
        if next.None? {
          return false;
        }
        slots := next.value;
      }
      FillEnd(schema, pos, fill, was, scan, slots);
      ok := true;
    }
  }
}
