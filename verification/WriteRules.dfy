/** What one write does to one plain keyed table, and what the isolation layer stages for it. */
module WriteRules {
  import opened Rows
  import opened MergedView

  datatype Op =
    | Insert(row: Row)
    | Update(target: Pk, row: Row)
    | Delete(target: Pk)

  datatype Result =
    | Written(evicted: seq<Row>, replaced: Option<Row>)
    | Removed
    | Skipped
    | Refused(action: Action, existing: Row)

  /** Statement action, else the constraint's own, else ABORT. */
  function Effective(statement: Option<Action>, declared: Option<Action>): Action {
    if statement.Some? then statement.value else if declared.Some? then declared.value else Abort
  }

  function PkAction(s: Schema, or: Option<Action>): Action {
    Effective(or, s.pkDefault)
  }

  /** What a conflict under an action other than REPLACE answers. */
  function Denial(a: Action, existing: Row): Result {
    if a.Ignore? then Skipped else Refused(a, existing)
  }

  // ---- the UNIQUE constraints, taken in order ---------------------------------------------------

  datatype Verdict = Clear(evicted: seq<Row>) | Stop(evicted: seq<Row>, answer: Result)

  function Prefixed(evicted: seq<Row>, v: Verdict): Verdict {
    v.(evicted := evicted + v.evicted)
  }

  /** Judges `row` against constraints `i..` of a table: a REPLACE evicts the one row in the way and
      goes on, any other action stops. */
  ghost function Judge(s: Schema, i: nat, t: Table, row: Row, self: set<Key>, or: Option<Action>): Verdict
    requires i <= |s.uniques|
    decreases |s.uniques| - i
  {
    if i == |s.uniques| then Clear([])
    else
      var hit := Conflicting(s, s.uniques[i], t, row, self);
      if hit == {} then Judge(s, i + 1, t, row, self, or)
      else
        var k :| k in hit;
        var a := Effective(or, s.uniques[i].onConflict);
        if a.Replace? then Prefixed([t[k]], Judge(s, i + 1, t - {k}, row, self, or))
        else Stop([], Denial(a, t[k]))
  }

  function KeysOf(s: Schema, rows: seq<Row>): set<Key> {
    set i | 0 <= i < |rows| :: KeyOf(s, rows[i])
  }

  // ---- the reference: one plain keyed table -----------------------------------------------------

  /** A write on one keyed table: all of it, or nothing. */
  ghost function Plain(s: Schema, t: Table, op: Op, or: Option<Action>): (Table, Result) {
    match op
    case Delete(target) => (t - {Identity(s, target)}, Removed)
    case Insert(row) =>
      var k := KeyOf(s, row);
      if k in t && !PkAction(s, or).Replace? then (t, Denial(PkAction(s, or), t[k]))
      else Settle(s, t, t, row, {k}, or)
    case Update(target, row) =>
      var k, n := Identity(s, target), KeyOf(s, row);
      if k != n && n in t && !PkAction(s, or).Replace? then (t, Denial(PkAction(s, or), t[n]))
      else Settle(s, t, t - {k}, row, {k, n}, or)
  }

  /** `freed` is `t` without the row being moved; the new row lands there once no constraint stops it. */
  ghost function Settle(s: Schema, t: Table, freed: Table, row: Row, self: set<Key>,
                        or: Option<Action>): (Table, Result) {
    var n := KeyOf(s, row);
    var v := Judge(s, 0, t, row, self, or);
    if v.Stop? then (t, v.answer)
    else ((freed - KeysOf(s, v.evicted))[n := row], Written(v.evicted, if n in freed then Some(freed[n]) else None))
  }

  // ---- what the isolation layer stages ----------------------------------------------------------

  /** Each evicted row leaves a marker minted from its key. */
  function EvictAll(s: Schema, ov: Overlay, rows: seq<Row>): Overlay
    decreases |rows|
  {
    if rows == [] then ov
    else EvictAll(s, Evict(s, ov, rows[0]), rows[1..])
  }

  function Evict(s: Schema, ov: Overlay, row: Row): Overlay {
    ov[KeyOf(s, row) := Marker(MarkerRow(s, PkOf(s, row)))]
  }

  /** Writing a fresh row into the staging table, which judges only its own keys (markers count). */
  function InsertStaged(ov: Overlay, k: Key, row: Row, a: Action): (Overlay, Option<Result>) {
    if k !in ov || a.Replace? then (ov[k := Live(row)], None)
    else (ov, Some(Denial(a, ov[k].row)))
  }

  /** Any constrained column, or any column a partial predicate reads, differs. */
  predicate UniqueColumnsChanged(s: Schema, was: Row, now: Row) {
    exists i :: 0 <= i < |s.uniques| && RelevantChange(s.uniques[i], was, now)
  }

  predicate RelevantChange(uc: Unique, was: Row, now: Row) {
    || (exists j :: 0 <= j < |uc.columns| && Cell(was, uc.columns[j].index) != Cell(now, uc.columns[j].index))
    || (exists c :: c in uc.referenced && Cell(was, c) != Cell(now, c))
  }

  /** The committed row a write at `n` would silently overwrite: none once the overlay names the key. */
  function CommittedAt(base: Table, ov: Overlay, n: Key): Option<Row> {
    if n !in ov && n in base then Some(base[n]) else None
  }

  ghost function Stage(s: Schema, base: Table, ov: Overlay, op: Op, or: Option<Action>): (Overlay, Result) {
    match op
    case Delete(target) => StageDelete(s, ov, target)
    case Insert(row) => StageInsert(s, base, ov, row, or)
    case Update(target, row) =>
      if Identity(s, target) == KeyOf(s, row) then StageInPlace(s, base, ov, target, row, or)
      else StageMove(s, base, ov, target, row, or)
  }

  function StageDelete(s: Schema, ov: Overlay, target: Pk): (Overlay, Result) {
    var k := Identity(s, target);
    if k in ov then (ov[k := Marker(ov[k].row)], Removed)
    else (ov[k := Marker(MarkerRow(s, target))], Removed)
  }

  ghost function StageInsert(s: Schema, base: Table, ov: Overlay, row: Row, or: Option<Action>): (Overlay, Result) {
    var k := KeyOf(s, row);
    var a := PkAction(s, or);
    var there := CommittedAt(base, ov, k);
    if k in ov && ov[k].Live? && !a.Replace? then (ov, Denial(a, ov[k].row))
    else if there.Some? && !a.Replace? then (ov, Denial(a, there.value))
    else
      var v := Judge(s, 0, Merged(base, ov), row, {k}, or);
      var ov' := EvictAll(s, ov, v.evicted);
      if v.Stop? then (ov', v.answer)
      else
        var displaced := if k in ov && ov[k].Live? then Some(ov[k].row) else there;
        (ov'[k := Live(row)], Written(v.evicted, displaced))
  }

  ghost function StageInPlace(s: Schema, base: Table, ov: Overlay, target: Pk, row: Row,
                              or: Option<Action>): (Overlay, Result)
    requires Identity(s, target) == KeyOf(s, row)
  {
    var k := KeyOf(s, row);
    if k in ov && ov[k].Live? && !UniqueColumnsChanged(s, ov[k].row, row) then
      (ov[k := Live(row)], Written([], None))
    else
      var v := Judge(s, 0, Merged(base, ov), row, {k}, or);
      var ov' := EvictAll(s, ov, v.evicted);
      if v.Stop? then (ov', v.answer) else (ov'[k := Live(row)], Written(v.evicted, None))
  }

  ghost function StageMove(s: Schema, base: Table, ov: Overlay, target: Pk, row: Row,
                           or: Option<Action>): (Overlay, Result)
    requires Identity(s, target) != KeyOf(s, row)
  {
    var k, n := Identity(s, target), KeyOf(s, row);
    var a := PkAction(s, or);
    var there := CommittedAt(base, ov, n);
    if there.Some? && !a.Replace? then (ov, Denial(a, there.value))
    else
      var v := Judge(s, 0, Merged(base, ov), row, {k, n}, or);
      var ov' := EvictAll(s, ov, v.evicted);
      if v.Stop? then (ov', v.answer)
      else
        var marked := ov'[k := Marker(MarkerRow(s, target))];
        if n in marked && marked[n].Marker? then (marked[n := Live(row)], Written(v.evicted, there))
        else
          var (placed, denied) := InsertStaged(marked, n, row, a);
          if denied.Some? then (placed, denied.value)
          else (placed, Written(v.evicted, if n in marked then Some(marked[n].row) else there))
  }
}
