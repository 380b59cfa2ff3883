/** What an ALTER makes of staged entries: each is carried by its own image, markers that collapse go first, and two
    live rows on one new key refuse. The changes an overlay can follow are all of this form. */
module OverlayMigration {
  import opened Rows
  import opened MergedView
  import opened MergeScan
  import opened PkRekey

  /** `fill` and `mark` give the image of a live row and of a marker, `after` the schema they have then. `legal` are
      the live rows the change takes. `scan` is the order the staging table lists its entries in. */
  datatype Migration = Migration(after: Schema, fill: Row -> Row, mark: Row -> Row, legal: Row -> bool,
                                 scan: Overlay -> seq<Slot>)

  function Way(m: Migration): Rekey {
    Carrying(m.after, m.fill, m.mark)
  }

  lemma WayFits(m: Migration)
    ensures Fits(m.after, Way(m))
  {
    CarryingFits(m.after, m.fill, m.mark);
  }

  /** The staging table lists every overlay keyed by `s`, each entry once. */
  ghost predicate Lists(s: Schema, m: Migration) {
    forall ov :: Staged(s, ov) ==> Scans(s, ov, m.scan(ov))
  }

  // ---- carrying an overlay ----------------------------------------------------------------------

  /** The change takes every staged live row, and no two of them land together. */
  predicate Takes(m: Migration, ov: Overlay) {
    NoLiveCollision(ov, Way(m)) && forall k :: k in ov && ov[k].Live? ==> m.legal(ov[k].row)
  }

  ghost function PlannedDrops(s: Schema, m: Migration, ov: Overlay): set<Key> {
    set k | k in ov && ov[k].Marker? && Collapses(s, Way(m), m.scan(ov), ov[k].row)
  }

  /** The overlay after the change: the images of all entries but the collapsed markers. */
  ghost function Adopted(s: Schema, m: Migration, ov: Overlay): Overlay {
    RekeyedSlots(ov - PlannedDrops(s, m, ov), Way(m))
  }

  /** The planner's rows are the markers to drop, and they make a drop plan. */
  lemma DropsAreCollapses(s: Schema, m: Migration, ov: Overlay, rows: seq<Row>)
    requires Staged(s, ov) && Scans(s, ov, m.scan(ov))
    requires forall r :: r in rows <==> Collapses(s, Way(m), m.scan(ov), r)
    ensures KeysOfRows(s, rows) == PlannedDrops(s, m, ov)
    ensures DropPlan(ov, Way(m), PlannedDrops(s, m, ov))
  {
    CollapsesArePlan(s, Way(m), ov, m.scan(ov), rows);
    forall k | k in PlannedDrops(s, m, ov) ensures k in KeysOfRows(s, rows) {
      assert ov[k].row in rows && KeyOf(s, ov[k].row) == k;
    }
  }

  ghost function CollapsingRows(s: Schema, m: Migration, ov: Overlay, n: nat): seq<Row>
    requires n <= |m.scan(ov)|
  {
    if n == 0 then []
    else
      var x := m.scan(ov)[n - 1];
      CollapsingRows(s, m, ov, n - 1) + if x.Marker? && Collapses(s, Way(m), m.scan(ov), x.row) then [x.row] else []
  }

  lemma {:induction false} CollapsingRowsHold(s: Schema, m: Migration, ov: Overlay, n: nat)
    requires n <= |m.scan(ov)|
    ensures forall r :: r in CollapsingRows(s, m, ov, n) <==>
                        Marker(r) in m.scan(ov)[..n] && Collapses(s, Way(m), m.scan(ov), r)
  {
    if n > 0 {
      CollapsingRowsHold(s, m, ov, n - 1);
      assert m.scan(ov)[..n] == m.scan(ov)[..n - 1] + [m.scan(ov)[n - 1]];
    }
  }

  lemma PlanIsDropPlan(s: Schema, m: Migration, ov: Overlay)
    requires Staged(s, ov) && Scans(s, ov, m.scan(ov))
    ensures DropPlan(ov, Way(m), PlannedDrops(s, m, ov))
  {
    var scan := m.scan(ov);
    var rows := CollapsingRows(s, m, ov, |scan|);
    CollapsingRowsHold(s, m, ov, |scan|);
    assert scan[..|scan|] == scan;
    forall r | Collapses(s, Way(m), scan, r) ensures Marker(r) in scan {
      GroupHolds(s, Way(m), scan, Way(m).key(Marker(r)));
    }
    DropsAreCollapses(s, m, ov, rows);
  }

  /** What a change makes of an overlay: every live row's image is staged at its own key under the new schema, every
      marker's new key is staged too, and nothing but images is. */
  ghost predicate Carries(after: Schema, rk: Rekey, was: Overlay, now: Overlay) {
    && (forall k :: CarriedAt(after, rk, was, now, k))
    && (forall q :: q in now ==> exists k :: k in was && now[q] == Filled(rk, was[k]))
  }

  ghost predicate CarriedAt(after: Schema, rk: Rekey, was: Overlay, now: Overlay, k: Key) {
    k in was ==>
      var y := Filled(rk, was[k]);
      KeyOf(after, y.row) in now && (y.Live? ==> now[KeyOf(after, y.row)] == y)
  }

  lemma EntriesCarried(after: Schema, ov: Overlay, rk: Rekey, drops: set<Key>)
    requires Fits(after, rk) && DropPlan(ov, rk, drops) && NoLiveCollision(ov, rk)
    ensures Carries(after, rk, ov, RekeyedSlots(ov - drops, rk))
  {
    var kept := ov - drops;
    var now := RekeyedSlots(kept, rk);
    PlanLeavesDistinct(ov, rk, drops);
    forall k ensures CarriedAt(after, rk, ov, now, k) {
      if k in ov {
        assert KeyOf(after, Filled(rk, ov[k]).row) == rk.key(ov[k]);
        var j := k;
        if k in drops {
          j :| j in ov && j !in drops && rk.key(ov[j]) == rk.key(ov[k]);
        }
        assert j in kept;
        RekeyedSlotAt(kept, rk, j);
      }
    }
    forall q | q in now ensures exists k :: k in ov && now[q] == Filled(rk, ov[k]) {
      var k :| k in kept && SlotLands(kept, rk, k, q);
      RekeyedSlotAt(kept, rk, k);
    }
  }

  lemma AdoptedIsStaged(s: Schema, m: Migration, ov: Overlay)
    ensures Staged(m.after, Adopted(s, m, ov))
  {
    WayFits(m);
    RekeyedIsStaged(m.after, ov - PlannedDrops(s, m, ov), Way(m));
  }

  /** An overlay the change takes is carried whole. */
  lemma AdoptionCarries(s: Schema, m: Migration, ov: Overlay)
    requires Staged(s, ov) && Scans(s, ov, m.scan(ov)) && Takes(m, ov)
    ensures Carries(m.after, Way(m), ov, Adopted(s, m, ov))
  {
    WayFits(m);
    PlanIsDropPlan(s, m, ov);
    EntriesCarried(m.after, ov, Way(m), PlannedDrops(s, m, ov));
  }

  /** Every live one of some images is staged at its own key, and nothing but those images is staged. */
  ghost predicate Holds(s: Schema, images: Overlay, now: Overlay) {
    && (forall j :: Holding(s, images, now, j))
    && (forall q :: q in now ==> exists j :: j in images && images[j] == now[q])
  }

  ghost predicate Holding(s: Schema, images: Overlay, now: Overlay, j: Key) {
    j in images && images[j].Live? ==> KeyOf(s, images[j].row) in now && now[KeyOf(s, images[j].row)] == images[j]
  }

  function FilledAll(rk: Rekey, images: Overlay): Overlay {
    map j | j in images :: Filled(rk, images[j])
  }

  /** A carried overlay holds the images of whatever the overlay held. */
  lemma CarriedHolds(s: Schema, after: Schema, rk: Rekey, images: Overlay, ov: Overlay, now: Overlay)
    requires Holds(s, images, ov) && Carries(after, rk, ov, now)
    ensures Holds(after, FilledAll(rk, images), now)
  {
    var filled := FilledAll(rk, images);
    forall j ensures Holding(after, filled, now, j) {
      if j in images && images[j].Live? {
        assert Holding(s, images, ov, j);
        assert CarriedAt(after, rk, ov, now, KeyOf(s, images[j].row));
      }
    }
    forall q | q in now ensures exists j :: j in filled && filled[j] == now[q] {
      var i :| i in ov && now[q] == Filled(rk, ov[i]);
      var j :| j in images && images[j] == ov[i];
      assert filled[j] == now[q];
    }
  }

  lemma StagedHolds(s: Schema, ov: Overlay)
    requires Staged(s, ov)
    ensures Holds(s, ov, ov)
  {
    forall j ensures Holding(s, ov, ov, j) {
    }
  }

  /** A connection that saw `was` over `base` sees it carried whole, now that it stages `now`. */
  ghost predicate ViewCarried(base: Table, was: Overlay, now: Overlay, rk: Rekey) {
    Merged(Rekeyed(base, rk), now) == Rekeyed(Merged(base, was), rk)
  }

  /** No marker lands on a committed row it does not delete, no hidden committed row loses the entry that hid it. */
  ghost predicate Undisturbed(base: Table, ov: Overlay, rk: Rekey) {
    !Overshadows(base, ov, rk) && !Resurfaces(base, ov, rk)
  }

  /** The issuer sees its old view carried row by row, if and only if no marker lands on a committed row it does not
      delete and no hidden committed row loses the entry that hid it. */
  lemma AdoptionIsExact(s: Schema, base: Table, ov: Overlay, m: Migration)
    requires Staged(s, ov) && Scans(s, ov, m.scan(ov))
    requires Distinct(base, Way(m)) && Distinct(Merged(base, ov), Way(m))
    ensures ViewCarried(base, ov, Adopted(s, m, ov), Way(m)) <==> Undisturbed(base, ov, Way(m))
  {
    PlanIsDropPlan(s, m, ov);
    RekeyIsExact(base, ov, Way(m), PlannedDrops(s, m, ov));
  }

  // ---- the changes an overlay can follow --------------------------------------------------------

  /** `set collate` on a key column. */
  function SetCollation(after: Schema, scan: Overlay -> seq<Slot>): Migration {
    Migration(after, row => row, row => row, row => true, scan)
  }

  /** `set not null` with a default on the key column at `pos`, where the table beneath backfills. */
  function SetKeyNotNull(s: Schema, pos: nat, fill: Value, scan: Overlay -> seq<Slot>): Migration
    requires pos < |s.pk|
  {
    var column := s.pk[pos].index;
    Migration(s, row => FillCell(column, fill, row), row => FillCell(column, fill, row), row => true, scan)
  }

  function Padded(row: Row, n: nat): Row {
    if |row| >= n then row else row + seq(n - |row|, i => Null)
  }

  function WithCell(row: Row, at: nat, v: Value): Row {
    Padded(row, at)[..at] + [v] + Padded(row, at)[at..]
  }

  lemma WithCellKeeps(row: Row, at: nat, v: Value, i: nat)
    requires i < at
    ensures Cell(WithCell(row, at, v), i) == Cell(row, i)
  {
  }

  /** ADD COLUMN: each live row computes its value, which a mandatory column may not find NULL; a marker takes NULL. */
  function AddColumn(s: Schema, value: Row -> Value, mandatory: bool, scan: Overlay -> seq<Slot>): Migration {
    Migration(s.(width := s.width + 1), row => WithCell(row, s.width, value(row)), row => WithCell(row, s.width, Null),
              row => !mandatory || value(row) != Null, scan)
  }

  function WithoutCell(row: Row, at: nat): Row {
    if at < |row| then row[..at] + row[at + 1..] else row
  }

  function Shifted(columns: seq<Column>, at: nat): seq<Column> {
    seq(|columns|, i requires 0 <= i < |columns| =>
      if columns[i].index > at then columns[i].(index := columns[i].index - 1) else columns[i])
  }

  /** DROP COLUMN of a column outside the key. */
  function DropColumn(s: Schema, at: nat, uniques: seq<Unique>, scan: Overlay -> seq<Slot>): Migration
    requires at < s.width
  {
    Migration(s.(width := s.width - 1, pk := Shifted(s.pk, at), uniques := uniques),
              row => WithoutCell(row, at), row => WithoutCell(row, at), row => true, scan)
  }

  function WithRewrite(row: Row, at: nat, rewrite: Value -> Value): Row {
    if at < |row| then row[at := rewrite(row[at])] else row
  }

  /** ALTER COLUMN of a column outside the key: a retype, or a NULL filled; constraint changes rewrite nothing.
      Only live rows are rewritten. */
  function AlterCells(s: Schema, at: nat, rewrite: Value -> Value, uniques: seq<Unique>, legal: Row -> bool,
                      scan: Overlay -> seq<Slot>): Migration
  {
    Migration(s.(uniques := uniques), row => WithRewrite(row, at, rewrite), row => row, legal, scan)
  }

  /** `set not null` on a column outside the key, with no default: a live row may hold no NULL there. */
  function SetNotNull(s: Schema, at: nat, scan: Overlay -> seq<Slot>): Migration {
    AlterCells(s, at, v => v, s.uniques, row => !Cell(row, at).Null?, scan)
  }

  /** ADD COLUMN leaves every cell where it was and puts the computed value, or a marker's NULL, after them. */
  lemma AddedCells(s: Schema, value: Row -> Value, mandatory: bool, scan: Overlay -> seq<Slot>, row: Row)
    requires |row| <= s.width
    ensures var m := AddColumn(s, value, mandatory, scan);
            && (forall i: nat :: i < s.width ==> Cell(m.fill(row), i) == Cell(row, i) == Cell(m.mark(row), i))
            && Cell(m.fill(row), s.width) == value(row) && Cell(m.mark(row), s.width) == Null
            && |m.fill(row)| == |m.mark(row)| == m.after.width
            && (m.legal(row) <==> mandatory ==> value(row) != Null)
  {
  }

  /** DROP COLUMN leaves the cells before it where they were and moves the later ones one place down. */
  lemma DroppedCells(s: Schema, at: nat, uniques: seq<Unique>, scan: Overlay -> seq<Slot>, row: Row, i: nat)
    requires at < s.width
    ensures var m := DropColumn(s, at, uniques, scan);
            m.legal(row) && Cell(m.fill(row), i) == Cell(m.mark(row), i) == Cell(row, if i < at then i else i + 1)
  {
  }

  /** ALTER COLUMN rewrites the one cell of a live row and nothing of a marker. */
  lemma AlteredCells(s: Schema, at: nat, rewrite: Value -> Value, uniques: seq<Unique>, legal: Row -> bool,
                     scan: Overlay -> seq<Slot>, row: Row, i: nat)
    requires at < |row|
    ensures var m := AlterCells(s, at, rewrite, uniques, legal, scan);
            m.mark(row) == row && Cell(m.fill(row), i) == if i == at then rewrite(Cell(row, at)) else Cell(row, i)
  {
  }

  /** A backfill puts the default where the key cell was NULL and leaves every other cell alone. */
  lemma BackfilledCells(s: Schema, pos: nat, fill: Value, scan: Overlay -> seq<Slot>, row: Row, i: nat)
    requires pos < |s.pk|
    ensures var m, at := SetKeyNotNull(s, pos, fill, scan), s.pk[pos].index;
            && m.legal(row) && m.after == s
            && Cell(m.fill(row), i) == Cell(m.mark(row), i) ==
               if i == at && Cell(row, at).Null? then fill else Cell(row, i)
  {
  }

  /** `set collate` takes every row as it is, under the new comparison. */
  lemma RecollatedCells(after: Schema, scan: Overlay -> seq<Slot>, row: Row)
    ensures var m := SetCollation(after, scan); m.legal(row) && m.after == after && m.fill(row) == row == m.mark(row)
  {
  }

  /** The change leaves every entry at its key. */
  ghost predicate KeepsKeys(s: Schema, rk: Rekey) {
    forall x :: rk.key(x) == KeyOf(s, x.row)
  }

  predicate OutsideKey(s: Schema, at: nat) {
    forall i :: 0 <= i < |s.pk| ==> s.pk[i].index != at
  }

  lemma SameCellsSameKey(s: Schema, after: Schema, a: Row, b: Row)
    requires |after.pk| == |s.pk| && after.folds == s.folds
    requires forall i :: 0 <= i < |s.pk| ==>
                           && after.pk[i].kind == s.pk[i].kind && after.pk[i].collation == s.pk[i].collation
                           && Cell(a, after.pk[i].index) == Cell(b, s.pk[i].index)
    ensures KeyOf(after, a) == KeyOf(s, b)
  {
    assert PkOf(after, a) == PkOf(s, b);
  }

  lemma AddColumnKeepsKeys(s: Schema, value: Row -> Value, mandatory: bool, scan: Overlay -> seq<Slot>)
    requires WellFormed(s)
    ensures KeepsKeys(s, Way(AddColumn(s, value, mandatory, scan)))
  {
    var m := AddColumn(s, value, mandatory, scan);
    forall x ensures Way(m).key(x) == KeyOf(s, x.row) {
      forall i | 0 <= i < |s.pk| ensures Cell(Image(m.fill, m.mark, x).row, s.pk[i].index) ==
          Cell(x.row, s.pk[i].index) {
        WithCellKeeps(x.row, s.width, if x.Live? then value(x.row) else Null, s.pk[i].index);
      }
      SameCellsSameKey(s, m.after, Image(m.fill, m.mark, x).row, x.row);
    }
  }

  lemma DropColumnKeepsKeys(s: Schema, at: nat, uniques: seq<Unique>, scan: Overlay -> seq<Slot>)
    requires at < s.width && OutsideKey(s, at)
    ensures KeepsKeys(s, Way(DropColumn(s, at, uniques, scan)))
  {
    var m := DropColumn(s, at, uniques, scan);
    forall x ensures Way(m).key(x) == KeyOf(s, x.row) {
      SameCellsSameKey(s, m.after, Image(m.fill, m.mark, x).row, x.row);
    }
  }

  lemma AlterCellsKeepsKeys(s: Schema, at: nat, rewrite: Value -> Value, uniques: seq<Unique>, legal: Row -> bool,
                            scan: Overlay -> seq<Slot>)
    requires OutsideKey(s, at)
    ensures KeepsKeys(s, Way(AlterCells(s, at, rewrite, uniques, legal, scan)))
  {
    var m := AlterCells(s, at, rewrite, uniques, legal, scan);
    forall x ensures Way(m).key(x) == KeyOf(s, x.row) {
      SameCellsSameKey(s, m.after, Image(m.fill, m.mark, x).row, x.row);
    }
  }

  /** A change that keeps keys drops no marker, lets no rows meet, and is exact for every overlay. */
  lemma KeyKeepingIsExact(s: Schema, base: Table, ov: Overlay, m: Migration)
    requires Keyed(s, base) && Staged(s, ov) && Scans(s, ov, m.scan(ov)) && KeepsKeys(s, Way(m))
    ensures PlannedDrops(s, m, ov) == {} && NoLiveCollision(ov, Way(m))
    ensures Distinct(base, Way(m)) && Distinct(Merged(base, ov), Way(m))
    ensures ViewCarried(base, ov, Adopted(s, m, ov), Way(m))
  {
    KeepsApart(s, base, Way(m));
    MergedIsKeyed(s, base, ov);
    KeepsApart(s, Merged(base, ov), Way(m));
    LiveRowsStayApart(base, ov, Way(m));
    PlanIsDropPlan(s, m, ov);
    NothingPlanned(s, ov, Way(m), PlannedDrops(s, m, ov));
    assert !Overshadows(base, ov, Way(m)) && !Resurfaces(base, ov, Way(m)) by {
      NothingMoves(s, base, ov, Way(m));
    }
    AdoptionIsExact(s, base, ov, m);
  }

  lemma KeepsApart(s: Schema, t: Table, rk: Rekey)
    requires Keyed(s, t) && KeepsKeys(s, rk)
    ensures Distinct(t, rk)
  {
    forall k | k in t ensures rk.key(Live(t[k])) == k {
      assert Live(t[k]).row == t[k];
    }
  }

  lemma NothingPlanned(s: Schema, ov: Overlay, rk: Rekey, drops: set<Key>)
    requires Staged(s, ov) && KeepsKeys(s, rk) && DropPlan(ov, rk, drops)
    ensures drops == {}
  {
    forall k | k in ov ensures rk.key(ov[k]) == k {
    }
    assert forall k :: k !in drops;
  }

  lemma NothingMoves(s: Schema, base: Table, ov: Overlay, rk: Rekey)
    requires Keyed(s, base) && Staged(s, ov) && KeepsKeys(s, rk)
    ensures !Overshadows(base, ov, rk) && !Resurfaces(base, ov, rk)
  {
    forall k | k in ov ensures rk.key(ov[k]) == k {
    }
    forall k | k in base ensures rk.key(Live(base[k])) == k {
      assert Live(base[k]).row == base[k];
    }
    forall k | k in base && k in ov ensures !Uncovered(base, ov, rk, k) {
      assert rk.key(ov[k]) == rk.key(Live(base[k]));
    }
  }

  /** A backfill's way is the planned one, so it is exact for every overlay whose markers name committed rows. */
  lemma KeyBackfillIsExact(s: Schema, pos: nat, fill: Value, base: Table, ov: Overlay, scan: Overlay -> seq<Slot>)
    requires WellFormed(s) && pos < |s.pk| && NullStandsAlone(s) && Keyed(s, base) && Staged(s, ov) &&
             Scans(s, ov, scan(ov))
    requires var rk := Backfilled(s, pos, fill); Distinct(base, rk) && Distinct(Merged(base, ov), rk)
    requires forall k :: k in ov && ov[k].Marker? ==> k in base
    ensures var m := SetKeyNotNull(s, pos, fill, scan); ViewCarried(base, ov, Adopted(s, m, ov), Way(m))
  {
    var m := SetKeyNotNull(s, pos, fill, scan);
    assert Way(m) == Backfilled(s, pos, fill);
    PlanIsDropPlan(s, m, ov);
    BackfillIsExact(s, pos, fill, base, ov, PlannedDrops(s, m, ov));
  }

  // ---- carried out ------------------------------------------------------------------------------

  /** The images of the first `i` listed entries, each at its new key. */
  ghost predicate Built(rk: Rekey, scan: seq<Slot>, i: nat, now: Overlay)
    requires i <= |scan|
  {
    && (forall j :: 0 <= j < i ==> rk.key(scan[j]) in now && now[rk.key(scan[j])] == Filled(rk, scan[j]))
    && (forall q :: q in now ==> exists j :: 0 <= j < i && rk.key(scan[j]) == q)
  }

  lemma BuildOne(rk: Rekey, scan: seq<Slot>, i: nat, now: Overlay)
    requires i < |scan| && Built(rk, scan, i, now) && forall j :: 0 <= j < i ==> rk.key(scan[j]) != rk.key(scan[i])
    ensures Built(rk, scan, i + 1, now[rk.key(scan[i]) := Filled(rk, scan[i])])
  {
  }

  lemma ListedApart(s: Schema, ov: Overlay, rk: Rekey, scan: seq<Slot>, i: nat, j: nat)
    requires Staged(s, ov) && Scans(s, ov, scan) && DistinctSlots(ov, rk) && j < i < |scan|
    ensures rk.key(scan[j]) != rk.key(scan[i])
  {
    assert scan[i] in scan && scan[j] in scan;
    var a :| a in ov && ov[a] == scan[i];
    var b :| b in ov && ov[b] == scan[j];
    assert KeyOf(s, scan[j].row) != KeyOf(s, scan[i].row);
  }

  lemma BuiltWithin(s: Schema, ov: Overlay, rk: Rekey, scan: seq<Slot>, now: Overlay, q: Key)
    requires Scans(s, ov, scan) && DistinctSlots(ov, rk) && Built(rk, scan, |scan|, now) && q in now
    ensures q in RekeyedSlots(ov, rk) && RekeyedSlots(ov, rk)[q] == now[q]
  {
    var j :| 0 <= j < |scan| && rk.key(scan[j]) == q;
    assert scan[j] in scan;
    var k :| k in ov && ov[k] == scan[j];
    RekeyedSlotAt(ov, rk, k);
  }

  lemma BuiltCovers(s: Schema, ov: Overlay, rk: Rekey, scan: seq<Slot>, now: Overlay, q: Key)
    requires Scans(s, ov, scan) && Built(rk, scan, |scan|, now) && q in RekeyedSlots(ov, rk)
    ensures q in now
  {
    var k :| k in ov && rk.key(ov[k]) == q;
    assert ov[k] in scan;
    var j :| 0 <= j < |scan| && scan[j] == ov[k];
  }

  ghost predicate SameSlotAt(a: Overlay, b: Overlay, q: Key) {
    (q in a <==> q in b) && (q in a && q in b ==> a[q] == b[q])
  }

  lemma OverlaysMatch(a: Overlay, b: Overlay)
    requires forall q :: SameSlotAt(a, b, q)
    ensures a == b
  {
    forall q ensures q in a <==> q in b {
      assert SameSlotAt(a, b, q);
    }
    forall q | q in a ensures a[q] == b[q] {
      assert SameSlotAt(a, b, q);
    }
  }

  lemma BuiltAt(s: Schema, ov: Overlay, rk: Rekey, scan: seq<Slot>, now: Overlay, q: Key)
    requires Scans(s, ov, scan) && DistinctSlots(ov, rk) && Built(rk, scan, |scan|, now)
    ensures SameSlotAt(now, RekeyedSlots(ov, rk), q)
  {
    if q in now {
      BuiltWithin(s, ov, rk, scan, now, q);
    } else if q in RekeyedSlots(ov, rk) {
      BuiltCovers(s, ov, rk, scan, now, q);
    }
  }

  lemma BuiltWhole(s: Schema, ov: Overlay, rk: Rekey, scan: seq<Slot>, now: Overlay)
    requires Scans(s, ov, scan) && DistinctSlots(ov, rk) && Built(rk, scan, |scan|, now)
    ensures now == RekeyedSlots(ov, rk)
  {
    forall q ensures SameSlotAt(now, RekeyedSlots(ov, rk), q) {
      BuiltAt(s, ov, rk, scan, now, q);
    }
    OverlaysMatch(now, RekeyedSlots(ov, rk));
  }

  /** The staging table's own schema change: every entry to its image, at the key that has under the new schema. */
  method AdoptSchema(t: StagingTable, rk: Rekey, scan: seq<Slot>)
    requires Staged(t.schema, t.slots) && Scans(t.schema, t.slots, scan) && DistinctSlots(t.slots, rk)
    modifies t
    ensures t.slots == RekeyedSlots(old(t.slots), rk)
  {
    ghost var was := t.slots;
    var now: Overlay := map[];
    for i := 0 to |scan|
      invariant Built(rk, scan, i, now)
    {
      forall j | 0 <= j < i ensures rk.key(scan[j]) != rk.key(scan[i]) {
        ListedApart(t.schema, was, rk, scan, i, j);
      }
      BuildOne(rk, scan, i, now);
      now := now[rk.key(scan[i]) := Filled(rk, scan[i])];
    }
    BuiltWhole(t.schema, was, rk, scan, now);
    t.slots := now;
  }

  /** The dry run over the staged live rows. */
  method AllLegal(s: Schema, ov: Overlay, legal: Row -> bool, scan: seq<Slot>) returns (ok: bool)
    requires Scans(s, ov, scan)
    ensures ok <==> forall k :: k in ov && ov[k].Live? ==> legal(ov[k].row)
  {
    for i := 0 to |scan|
      invariant forall j :: 0 <= j < i && scan[j].Live? ==> legal(scan[j].row)
    {
      if scan[i].Live? && !legal(scan[i].row) {
        assert scan[i] in scan;
        return false;
      }
    }
    forall k | k in ov && ov[k].Live? ensures legal(ov[k].row) {
      assert ov[k] in scan;
    }
    ok := true;
  }

  /** Validates an overlay against the change without touching it: every live row is legal, and no two of them would
      have one key under the new schema. */
  method ValidateOverlayMigration(s: Schema, ov: Overlay, m: Migration) returns (ok: bool)
    requires Staged(s, ov) && Scans(s, ov, m.scan(ov))
    ensures ok <==> Takes(m, ov)
    ensures ok ==> forall k :: k in ov && ov[k].Live? ==> m.legal(ov[k].row)
    ensures !ok ==> (exists k :: k in ov && ov[k].Live? && !m.legal(ov[k].row)) || !NoLiveCollision(ov, Way(m))
  {
    var legal := AllLegal(s, ov, m.legal, m.scan(ov));
    var apart := ValidateRekey(s, Way(m), m.scan(ov));
    ScannedCollision(s, ov, Way(m), m.scan(ov));
    ok := legal && apart;
  }

  /** Carries a validated overlay: collapsed markers are dropped through its write path, then it adopts the schema. */
  method MigrateOverlayForward(t: StagingTable, m: Migration)
    requires Staged(t.schema, t.slots) && Lists(t.schema, m) && Takes(m, t.slots)
    modifies t
    ensures t.slots == Adopted(t.schema, m, old(t.slots))
  {
    ghost var was := t.slots;
    assert Scans(t.schema, was, m.scan(was));
    var rows := PlanPkRekeyMarkerDrops(t.schema, Way(m), m.scan(t.slots));
    CollapsesArePlan(t.schema, Way(m), was, m.scan(was), rows);
    DropsAreCollapses(t.schema, m, was, rows);
    var dropped := t.ApplyPkRekeyMarkerDrops(rows);
    PlanLeavesDistinct(was, Way(m), PlannedDrops(t.schema, m, was));
    assert Staged(t.schema, t.slots);
    AdoptSchema(t, Way(m), m.scan(t.slots));
  }

  ghost predicate RowPut(t: Table, rk: Rekey, done: set<Key>, now: Table, k: Key) {
    k in t && k in done ==> rk.key(Live(t[k])) in now && now[rk.key(Live(t[k]))] == rk.fill(t[k])
  }

  ghost predicate PutFrom(t: Table, rk: Rekey, done: set<Key>, q: Key) {
    exists k :: k in done && Lands(t, rk, k, q)
  }

  /** The rows at `done` are where they go, and nothing else is. */
  ghost predicate RowsPut(t: Table, rk: Rekey, done: set<Key>, now: Table) {
    (forall k :: RowPut(t, rk, done, now, k)) && (forall q :: q in now ==> PutFrom(t, rk, done, q))
  }

  lemma PutOne(t: Table, rk: Rekey, done: set<Key>, now: Table, k: Key)
    requires Distinct(t, rk) && RowsPut(t, rk, done, now) && k in t && k !in done
    ensures RowsPut(t, rk, done + {k}, now[rk.key(Live(t[k])) := rk.fill(t[k])])
  {
    var next := now[rk.key(Live(t[k])) := rk.fill(t[k])];
    forall j ensures RowPut(t, rk, done + {k}, next, j) {
      assert RowPut(t, rk, done, now, j);
    }
    forall q | q in next ensures PutFrom(t, rk, done + {k}, q) {
      if q == rk.key(Live(t[k])) {
        assert Lands(t, rk, k, q);
      } else {
        var j :| j in done && Lands(t, rk, j, q);
        assert j in done + {k};
      }
    }
  }

  lemma AllPut(t: Table, rk: Rekey, now: Table)
    requires Distinct(t, rk) && RowsPut(t, rk, t.Keys, now)
    ensures now == Rekeyed(t, rk)
  {
    forall q ensures SameAt(now, Rekeyed(t, rk), q) {
      RowAfter(t, rk, q);
      forall k | Lands(t, rk, k, q) ensures q in now && now[q] == rk.fill(t[k]) {
        assert RowPut(t, rk, t.Keys, now, k);
      }
      assert q in now ==> PutFrom(t, rk, t.Keys, q);
    }
    TablesMatch(now, Rekeyed(t, rk));
  }

  /** The table beneath moves each of its rows to the key its image has. */
  method RekeyRows(t: Table, rk: Rekey) returns (now: Table)
    requires Distinct(t, rk)
    ensures now == Rekeyed(t, rk)
  {
    now := map[];
    var left, done: set<Key> := t.Keys, {};
    while left != {}
      invariant left <= t.Keys && left !! done && left + done == t.Keys
      invariant RowsPut(t, rk, done, now)
      decreases |left|
    {
      var k :| k in left;
      PutOne(t, rk, done, now, k);
      MoveKey(left, done, k);
      now := now[rk.key(Live(t[k])) := rk.fill(t[k])];
      left, done := left - {k}, done + {k};
    }
    assert done == t.Keys;
    AllPut(t, rk, now);
  }

  /** `set collate` on a key column, from validation to the re-keyed overlay. `refused` says the staging table or the
      table beneath turns it down. The issuer then sees what it saw; otherwise it sees its old view carried through
      the new key exactly when no marker overshadows and no row resurfaces. */
  method RekeyForCollation(t: StagingTable, after: Schema, scan: Overlay -> seq<Slot>, refused: bool, ghost base: Table)
    returns (ok: bool)
    requires Staged(t.schema, t.slots) && Lists(t.schema, SetCollation(after, scan))
    requires Distinct(base, Recollated(after)) && Distinct(Merged(base, t.slots), Recollated(after))
    modifies t
    ensures ok <==> !refused
    ensures !ok ==> t.slots == old(t.slots)
    ensures ok ==> (ViewCarried(base, old(t.slots), t.slots, Recollated(after)) <==>
                    Undisturbed(base, old(t.slots), Recollated(after)))
  {
    ghost var was := t.slots;
    ghost var m := SetCollation(after, scan);
    assert forall ov :: Staged(t.schema, ov) ==> Scans(t.schema, ov, m.scan(ov));
    var rk := Recollated(after);
    LiveRowsStayApart(base, was, rk);
    ok := t.PrepareRekey(rk, scan(t.slots), refused);
    if ok {
      ghost var drops :| DropPlan(was, rk, drops) && t.slots == was - drops;
      assert Scans(t.schema, t.slots, m.scan(t.slots));
      AdoptSchema(t, rk, scan(t.slots));
      RekeyIsExact(base, was, rk, drops);
    }
  }

  /** `set not null` with a default on a key column, from validation to the last rewritten entry: the issuer sees its
      old view with the default filled in, under the same condition. It always holds when markers name committed rows.
      */
  method RekeyForBackfill(t: StagingTable, pos: nat, fill: Value, scan: Overlay -> seq<Slot>, ghost base: Table)
    returns (ok: bool)
    requires WellFormed(t.schema) && NullStandsAlone(t.schema) && pos < |t.schema.pk| && fill != Null
    requires Keyed(t.schema, base) && Staged(t.schema, t.slots) &&
             Lists(t.schema, SetKeyNotNull(t.schema, pos, fill, scan))
    requires var rk := Backfilled(t.schema, pos, fill); Distinct(base, rk) && Distinct(Merged(base, t.slots), rk)
    modifies t
    ensures ok && Staged(t.schema, t.slots)
    ensures ViewCarried(base, old(t.slots), t.slots, Backfilled(t.schema, pos, fill)) <==>
            Undisturbed(base, old(t.slots), Backfilled(t.schema, pos, fill))
    ensures (forall k :: k in old(t.slots) && old(t.slots)[k].Marker? ==> k in base) ==>
              ViewCarried(base, old(t.slots), t.slots, Backfilled(t.schema, pos, fill))
  {
    ghost var was := t.slots;
    ghost var drops;
    ok, drops := DropAndBackfill(t, pos, fill, scan, base);
    BackfillShows(t.schema, pos, fill, base, was, drops);
  }

  /** Markers that collapse are dropped, then every entry left is rewritten. */
  method DropAndBackfill(t: StagingTable, pos: nat, fill: Value, scan: Overlay -> seq<Slot>, ghost base: Table)
    returns (ok: bool, ghost drops: set<Key>)
    requires WellFormed(t.schema) && NullStandsAlone(t.schema) && pos < |t.schema.pk| && fill != Null
    requires Staged(t.schema, t.slots) && Lists(t.schema, SetKeyNotNull(t.schema, pos, fill, scan))
    requires Distinct(Merged(base, t.slots), Backfilled(t.schema, pos, fill))
    modifies t
    ensures ok && Staged(t.schema, t.slots) && DropPlan(old(t.slots), Backfilled(t.schema, pos, fill), drops)
    ensures t.slots == RekeyedSlots(old(t.slots) - drops, Backfilled(t.schema, pos, fill))
  {
    ghost var was := t.slots;
    ghost var m := SetKeyNotNull(t.schema, pos, fill, scan);
    assert forall ov :: Staged(t.schema, ov) ==> Scans(t.schema, ov, m.scan(ov));
    var rk := Backfilled(t.schema, pos, fill);
    LiveRowsStayApart(base, was, rk);
    ok := t.PrepareRekey(rk, scan(t.slots), false);
    drops :| DropPlan(was, rk, drops) && t.slots == was - drops;
    assert Scans(t.schema, t.slots, m.scan(t.slots));
    ok := t.BackfillStagedNotNull(pos, fill, scan(t.slots));
  }

  lemma BackfillShows(s: Schema, pos: nat, fill: Value, base: Table, was: Overlay, drops: set<Key>)
    requires WellFormed(s) && NullStandsAlone(s) && pos < |s.pk| && Keyed(s, base) && Staged(s, was)
    requires Ready(base, was, Backfilled(s, pos, fill), drops)
    ensures var rk := Backfilled(s, pos, fill);
            && (ViewCarried(base, was, RekeyedSlots(was - drops, rk), rk) <==> Undisturbed(base, was, rk))
            && ((forall k :: k in was && was[k].Marker? ==> k in base) ==>
                  ViewCarried(base, was, RekeyedSlots(was - drops, rk), rk))
  {
    RekeyIsExact(base, was, Backfilled(s, pos, fill), drops);
    if forall k :: k in was && was[k].Marker? ==> k in base {
      BackfillIsExact(s, pos, fill, base, was, drops);
    }
  }
}
