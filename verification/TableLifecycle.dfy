/** Many connections over one set of tables: the two maps the isolation module keeps (underlying tables by
    name, overlays by connection and name) under every statement that touches them. */
module TableLifecycle {
  import opened Rows
  import opened MergedView
  import opened MergeScan
  import opened OverlayMigration
  import opened PkRekey
  import opened WriteTheorems

  type Db = nat
  type Name = string

  datatype OverlayKey = OverlayKey(db: Db, table: Name)

  /** A connection's staging for one table. A poisoned one can be neither read nor flushed. */
  datatype Staging = Staging(ov: Overlay, dirty: bool, poisoned: bool)

  datatype Stored = Stored(schema: Schema, rows: Table)

  /** `stored` is what the tables hold durably, `connected` the names with an open underlying table. */
  datatype State = State(stored: map<Name, Stored>, connected: set<Name>, overlays: map<OverlayKey, Staging>)

  /** An ALTER. Any change but one of the primary key is carried by overlays in place, row by row. `refuses` are the
      table's own further grounds to turn it down, given its contents and the rows the issuer sees. `halts` is
      where a staging table stops part of the way, if it does, and what it is left with. */
  datatype Change =
    | InPlace(how: Migration, refuses: (Stored, Table) -> bool, halts: Overlay -> Option<Overlay>)
    | NewPrimaryKey(after: Schema, refuses: (Stored, Table) -> bool)

  function WayOf(change: Change): Rekey {
    if change.InPlace? then Way(change.how) else Recollated(change.after)
  }

  function SchemaAfter(change: Change): Schema {
    if change.InPlace? then change.how.after else change.after
  }

  datatype Step =
    | Create(table: Name, schema: Schema)
    | Open(db: Db, table: Name)
    | Write(db: Db, table: Name, ov: Overlay)
    | Alter(db: Db, table: Name, change: Change)
    | Rename(table: Name, newName: Name)
    | Drop(db: Db, table: Name)
    | Clear(db: Db, tables: set<Name>)
    | Commit(db: Db, failing: set<Name>)

  // ---- the steps --------------------------------------------------------------------------------

  predicate Usable(st: State, k: OverlayKey) {
    k in st.overlays ==> !st.overlays[k].poisoned
  }

  /** The issuer's own overlay is judged only when it has staged rows and is not poisoned. */
  predicate Judged(st: State, k: OverlayKey) {
    k in st.overlays && st.overlays[k].dirty && !st.overlays[k].poisoned
  }

  /** The rows the table beneath judges: the issuer's view when it has staged rows, else its own. */
  function IssuerRows(st: State, db: Db, table: Name): Table
    requires table in st.stored
  {
    var own := OverlayKey(db, table);
    if Judged(st, own) then Merged(st.stored[table].rows, st.overlays[own].ov) else st.stored[table].rows
  }

  /** The table beneath takes the change: no two of its own rows, and no two the issuer sees, land on one new key, and
      every row the issuer sees is legal under it. */
  predicate Accepts(t: Stored, rows: Table, change: Change) {
    && Distinct(t.rows, WayOf(change)) && Distinct(rows, WayOf(change)) && !change.refuses(t, rows)
    && (change.InPlace? ==> forall k :: k in rows ==> change.how.legal(rows[k]))
  }

  /** Its contents afterwards: every row carried to its new key. */
  ghost function Altered(t: Stored, change: Change): Stored {
    Stored(SchemaAfter(change), Rekeyed(t.rows, WayOf(change)))
  }

  /** Whether an ALTER reaches the underlying table and is accepted there. */
  predicate AlterProceeds(st: State, db: Db, table: Name, change: Change) {
    var own := OverlayKey(db, table);
    && table in st.stored
    && !(change.NewPrimaryKey? && Judged(st, own))
    && (change.InPlace? && Judged(st, own) ==> Takes(change.how, st.overlays[own].ov))
    && Accepts(st.stored[table], IssuerRows(st, db, table), change)
  }

  /** The issuer's overlay passed validation and yet its staging table stops. */
  predicate Drifts(st: State, db: Db, table: Name, change: Change) {
    change.InPlace? && Judged(st, OverlayKey(db, table)) && change.halts(st.overlays[OverlayKey(db, table)].ov).Some?
  }

  /** One overlay, keyed by `s`, carried across a change. */
  ghost function Carried(s: Schema, change: Change, was: Staging): Staging {
    if was.poisoned || !was.dirty then was
    else match change
      case NewPrimaryKey(_, _) => was.(poisoned := true)
      case InPlace(how, _, halts) =>
        if !Takes(how, was.ov) then was.(poisoned := true)
        else if halts(was.ov).Some? then was.(ov := halts(was.ov).value, poisoned := true)
        else was.(ov := Adopted(s, how, was.ov))
  }

  ghost function AlterOverlays(st: State, db: Db, table: Name, change: Change): map<OverlayKey, Staging>
    requires table in st.stored
  {
    var own := OverlayKey(db, table);
    if Drifts(st, db, table, change) then
      st.overlays[own := st.overlays[own].(ov := change.halts(st.overlays[own].ov).value)]
    else CarriedAll(st.overlays, st.stored[table].schema, table, change)
  }

  ghost function CarriedAll(overlays: map<OverlayKey, Staging>, s: Schema, table: Name, change: Change)
    : map<OverlayKey, Staging>
  {
    map k | k in overlays :: if k.table == table then Carried(s, change, overlays[k]) else overlays[k]
  }

  /** Where a rename puts an overlay. */
  function Moved(k: OverlayKey, table: Name, newName: Name): OverlayKey {
    if k.table == table then OverlayKey(k.db, newName) else k
  }

  function RenamedKeys(overlays: map<OverlayKey, Staging>, table: Name, newName: Name): set<OverlayKey> {
    set k | k in overlays :: Moved(k, table, newName)
  }

  function RenameOverlays(overlays: map<OverlayKey, Staging>, table: Name, newName: Name): map<OverlayKey, Staging> {
    map k | k in RenamedKeys(overlays, table, newName) ::
      if k.table == newName && OverlayKey(k.db, table) in overlays then overlays[OverlayKey(k.db, table)]
      else if k in overlays then overlays[k] else Staging(map[], false, false)
  }

  /** A foreign overlay with staged rows survives a DROP, poisoned; every other overlay of the table goes. */
  function DropOverlays(overlays: map<OverlayKey, Staging>, db: Db, table: Name): map<OverlayKey, Staging> {
    map k | k in overlays && (k.table == table ==> k.db != db && overlays[k].dirty) ::
      if k.table == table then overlays[k].(poisoned := true) else overlays[k]
  }

  /** No overlay of the connection is poisoned, each dirty one has its table open, and no table's storage
      fails under it. */
  predicate Commits(st: State, db: Db, failing: set<Name>) {
    forall k :: k in st.overlays && k.db == db ==>
                  && !st.overlays[k].poisoned
                  && (st.overlays[k].dirty ==> k.table in st.connected && k.table !in failing)
  }

  ghost function Flushed(st: State, db: Db): map<Name, Stored> {
    map n | n in st.stored ::
      var k := OverlayKey(db, n);
      if k in st.overlays && st.overlays[k].dirty then st.stored[n].(rows := Merged(st.stored[n].rows,
          st.overlays[k].ov))
      else st.stored[n]
  }

  function Without(overlays: map<OverlayKey, Staging>, db: Db): map<OverlayKey, Staging> {
    map k | k in overlays && k.db != db :: overlays[k]
  }

  function Cleared(overlays: map<OverlayKey, Staging>, db: Db, tables: set<Name>): map<OverlayKey, Staging> {
    map k | k in overlays && !(k.db == db && k.table in tables) :: overlays[k]
  }

  /** One statement; a refused one changes nothing. */
  ghost function Next(st: State, step: Step): State {
    match step
    case Create(n, schema) =>
      if n in st.stored then st
      else st.(stored := st.stored[n := Stored(schema, map[])], connected := st.connected + {n})
    case Open(db, n) =>
      var k := OverlayKey(db, n);
      if n !in st.stored then st
      else st.(connected := st.connected + {n},
          overlays := if k in st.overlays then st.overlays else st.overlays[k := Staging(map[], false, false)])
    case Write(db, n, ov) =>
      if n !in st.stored || !Usable(st, OverlayKey(db, n)) then st
      else st.(connected := st.connected + {n}, overlays := st.overlays[OverlayKey(db, n) := Staging(ov, true, false)])
    case Alter(db, n, change) =>
      if !AlterProceeds(st, db, n, change) then st
      else st.(stored := st.stored[n := Altered(st.stored[n], change)], overlays := AlterOverlays(st, db, n, change))
    case Rename(n, m) =>
      if n !in st.stored || m in st.stored then st
      else
        var carried := exists k :: k in st.overlays && k.table == n;
        State(st.stored[m := st.stored[n]] - {n}, st.connected - {n} + (if carried then {m} else {}),
            RenameOverlays(st.overlays, n, m))
    case Drop(db, n) =>
      if n !in st.stored then st
      else State(st.stored - {n}, st.connected - {n}, DropOverlays(st.overlays, db, n))
    case Clear(db, tables) => st.(overlays := Cleared(st.overlays, db, tables))
    case Commit(db, failing) =>
      if !Commits(st, db, failing) then st
      else st.(stored := Flushed(st, db), overlays := Without(st.overlays, db))
  }

  ghost function Run(st: State, steps: seq<Step>): State {
    if steps == [] then st else Next(Run(st, steps[..|steps| - 1]), steps[|steps| - 1])
  }

  // ---- what every reachable state keeps ---------------------------------------------------------

  /** A dirty overlay has its table open, or is poisoned. A poisoned one is dirty, a clean one empty. An
      overlay whose table is gone is poisoned. */
  ghost predicate Resolves(st: State, k: OverlayKey)
    requires k in st.overlays
  {
    var s := st.overlays[k];
    && (s.dirty ==> s.poisoned || k.table in st.connected)
    && (s.poisoned ==> s.dirty)
    && (!s.dirty ==> s.ov == map[])
    && (k.table in st.stored || s.poisoned)
  }

  ghost predicate Sound(st: State) {
    && st.connected <= st.stored.Keys
    && (forall k :: k in st.overlays ==> Resolves(st, k))
  }

  const EMPTY := State(map[], {}, map[])

  /** An ALTER keeps every overlay under its key, dirty ones dirty and clean ones as they are. */
  ghost predicate SameFlags(was: Staging, now: Staging) {
    now.dirty == was.dirty && (was.poisoned ==> now.poisoned) && (now.poisoned ==> now.dirty || was.poisoned)
    && (!was.dirty ==> now == was)
  }

  lemma CarriedKeepsFlags(s: Schema, change: Change, was: Staging)
    ensures SameFlags(was, Carried(s, change, was))
  {
  }

  lemma AlterKeepsFlags(st: State, db: Db, n: Name, change: Change)
    requires n in st.stored
    ensures AlterOverlays(st, db, n, change).Keys == st.overlays.Keys
    ensures forall k :: k in st.overlays ==> SameFlags(st.overlays[k], AlterOverlays(st, db, n, change)[k])
  {
    forall k | k in st.overlays ensures SameFlags(st.overlays[k], AlterOverlays(st, db, n, change)[k]) {
      CarriedKeepsFlags(st.stored[n].schema, change, st.overlays[k]);
    }
  }

  /** The same tables are stored and open, and every overlay is there with its flags. */
  ghost predicate SameShape(st: State, now: State) {
    && now.connected == st.connected && now.stored.Keys == st.stored.Keys && now.overlays.Keys == st.overlays.Keys
    && (forall k :: k in st.overlays ==> SameFlags(st.overlays[k], now.overlays[k]))
  }

  lemma ShapeKeepsSound(st: State, now: State)
    requires Sound(st) && SameShape(st, now)
    ensures Sound(now)
  {
    forall k | k in now.overlays ensures Resolves(now, k) {
      assert Resolves(st, k) && SameFlags(st.overlays[k], now.overlays[k]);
    }
  }

  lemma AlterUnfolds(st: State, db: Db, n: Name, change: Change)
    requires AlterProceeds(st, db, n, change)
    ensures Next(st, Alter(db, n, change)) ==
            st.(stored := st.stored[n := Altered(st.stored[n], change)], overlays := AlterOverlays(st, db, n, change))
  {
  }

  lemma FlagsKeepShape(st: State, n: Name, t: Stored, overlays: map<OverlayKey, Staging>)
    requires n in st.stored && overlays.Keys == st.overlays.Keys
    requires forall k :: k in st.overlays ==> SameFlags(st.overlays[k], overlays[k])
    ensures SameShape(st, st.(stored := st.stored[n := t], overlays := overlays))
  {
  }

  lemma NothingKeepsShape(st: State)
    ensures SameShape(st, st)
  {
  }

  lemma AlterKeepsShape(st: State, db: Db, n: Name, change: Change)
    ensures SameShape(st, Next(st, Alter(db, n, change)))
  {
    if AlterProceeds(st, db, n, change) {
      AlterUnfolds(st, db, n, change);
      AlterKeepsFlags(st, db, n, change);
      FlagsKeepShape(st, n, Altered(st.stored[n], change), AlterOverlays(st, db, n, change));
    } else {
      NothingKeepsShape(st);
    }
  }

  lemma AlterKeepsSound(st: State, db: Db, n: Name, change: Change)
    requires Sound(st)
    ensures Sound(Next(st, Alter(db, n, change)))
  {
    AlterKeepsShape(st, db, n, change);
    ShapeKeepsSound(st, Next(st, Alter(db, n, change)));
  }

  lemma RenameKeepsSound(st: State, n: Name, m: Name)
    requires Sound(st)
    ensures Sound(Next(st, Rename(n, m)))
  {
    var now := Next(st, Rename(n, m));
    if n in st.stored && m !in st.stored {
      forall k | k in now.overlays ensures Resolves(now, k) {
        var j :| j in st.overlays && Moved(j, n, m) == k;
        assert Resolves(st, j);
        if k in st.overlays {
          assert Resolves(st, k);
        }
        if k.table == m && OverlayKey(k.db, n) in st.overlays {
          assert Resolves(st, OverlayKey(k.db, n));
        }
      }
    }
  }

  /** Every step keeps the invariant, whatever the connections do. */
  lemma SoundStep(st: State, step: Step)
    requires Sound(st)
    ensures Sound(Next(st, step))
  {
    match step
    case Alter(db, n, change) => AlterKeepsSound(st, db, n, change);
    case Rename(n, m) => RenameKeepsSound(st, n, m);
    case _ =>
      var now := Next(st, step);
      forall k | k in now.overlays ensures Resolves(now, k) {
        if k in st.overlays {
          assert Resolves(st, k);
        }
      }
  }

  lemma {:induction false} ReachedIsSound(steps: seq<Step>)
    ensures Sound(Run(EMPTY, steps))
  {
    if steps != [] {
      ReachedIsSound(steps[..|steps| - 1]);
      SoundStep(Run(EMPTY, steps[..|steps| - 1]), steps[|steps| - 1]);
    }
  }

  /** So no commit ever meets a staged overlay without a table: poison and storage are the only refusals. */
  lemma CommitNeverOrphans(steps: seq<Step>, db: Db, failing: set<Name>)
    ensures var st := Run(EMPTY, steps);
            Commits(st, db, failing) <==>
            forall k :: k in st.overlays && k.db == db ==>
                !st.overlays[k].poisoned && !(st.overlays[k].dirty && k.table in failing)
  {
    ReachedIsSound(steps);
    var st := Run(EMPTY, steps);
    forall k | k in st.overlays ensures st.overlays[k].dirty ==> st.overlays[k].poisoned || k.table in st.connected {
      assert Resolves(st, k);
    }
  }

  // ---- staged rows under other connections' statements ------------------------------------------

  /** A statement of another connection. CREATE and RENAME count whoever issues them. */
  predicate Foreign(step: Step, db: Db) {
    step.Create? || step.Rename? || step.db != db
  }

  predicate Renames(st: State, step: Step) {
    step.Rename? && step.table in st.stored && step.newName !in st.stored
  }

  /** The rename lands on a name this connection already has an overlay under, while it has one to move. */
  predicate Overwrites(st: State, step: Step, k: OverlayKey) {
    Renames(st, step) && k.table == step.newName && OverlayKey(k.db, step.table) in st.overlays
  }

  function Track(st: State, step: Step, k: OverlayKey): OverlayKey {
    if Renames(st, step) then Moved(k, step.table, step.newName) else k
  }

  /** The statement alters the overlay's table. */
  predicate Changes(st: State, step: Step, k: OverlayKey) {
    && step.Alter? && k.table == step.table && AlterProceeds(st, step.db, step.table, step.change)
    && !Drifts(st, step.db, step.table, step.change)
  }

  /** What a foreign statement makes of an overlay: an ALTER of its table carries it, a DROP poisons it. */
  ghost function Fate(st: State, step: Step, k: OverlayKey, s: Staging): Staging {
    match step
    case Alter(db, n, change) =>
      if Changes(st, step, k) then Carried(st.stored[n].schema, change, s) else s
    case Drop(_, n) => if k.table == n && n in st.stored then s.(poisoned := true) else s
    case _ => s
  }

  lemma ForeignStepCarries(st: State, step: Step, k: OverlayKey)
    requires k in st.overlays && st.overlays[k].dirty && Foreign(step, k.db) && !Overwrites(st, step, k)
    ensures Track(st, step, k) in Next(st, step).overlays
    ensures Next(st, step).overlays[Track(st, step, k)] == Fate(st, step, k, st.overlays[k])
    ensures Fate(st, step, k, st.overlays[k]).dirty
  {
    if Renames(st, step) {
      assert Moved(k, step.table, step.newName) in RenamedKeys(st.overlays, step.table, step.newName);
    }
  }

  ghost function TrackRun(st: State, steps: seq<Step>, k: OverlayKey): OverlayKey {
    if steps == [] then k
    else Track(Run(st, steps[..|steps| - 1]), steps[|steps| - 1], TrackRun(st, steps[..|steps| - 1], k))
  }

  ghost function FateRun(st: State, steps: seq<Step>, k: OverlayKey): Staging
    requires k in st.overlays
  {
    if steps == [] then st.overlays[k]
    else
      var before := steps[..|steps| - 1];
      Fate(Run(st, before), steps[|steps| - 1], TrackRun(st, before, k), FateRun(st, before, k))
  }

  /** A run of other connections' statements, none of them a rename over this overlay. */
  ghost predicate LeftAlone(st: State, steps: seq<Step>, k: OverlayKey) {
    steps != [] ==>
      var before, last := steps[..|steps| - 1], steps[|steps| - 1];
      && LeftAlone(st, before, k)
      && Foreign(last, TrackRun(st, before, k).db)
      && !Overwrites(Run(st, before), last, TrackRun(st, before, k))
  }

  /** Through any such run the staged rows are still there, under the table's present name, carried by each
      ALTER or poisoned. */
  lemma {:induction false} StagedRowsSurvive(st: State, steps: seq<Step>, k: OverlayKey)
    requires k in st.overlays && st.overlays[k].dirty && LeftAlone(st, steps, k)
    ensures var at := TrackRun(st, steps, k);
            && at.db == k.db && at in Run(st, steps).overlays
            && Run(st, steps).overlays[at] == FateRun(st, steps, k) && FateRun(st, steps, k).dirty
  {
    if steps != [] {
      var before := steps[..|steps| - 1];
      StagedRowsSurvive(st, before, k);
      ForeignStepCarries(Run(st, before), steps[|steps| - 1], TrackRun(st, before, k));
    }
  }

  lemma {:induction false} RunKeepsSound(st: State, steps: seq<Step>)
    requires Sound(st)
    ensures Sound(Run(st, steps))
  {
    if steps != [] {
      RunKeepsSound(st, steps[..|steps| - 1]);
      SoundStep(Run(st, steps[..|steps| - 1]), steps[|steps| - 1]);
    }
  }

  // ---- what becomes of each staged row ----------------------------------------------------------

  /** The images of staged entries after a statement: an ALTER of their table carries each. */
  function ImagesAt(st: State, step: Step, k: OverlayKey, images: Overlay): Overlay {
    if Changes(st, step, k) then FilledAll(WayOf(step.change), images) else images
  }

  ghost function Images(st: State, steps: seq<Step>, k: OverlayKey): Overlay
    requires k in st.overlays
  {
    if steps == [] then st.overlays[k].ov
    else
      var before := steps[..|steps| - 1];
      ImagesAt(Run(st, before), steps[|steps| - 1], TrackRun(st, before, k), Images(st, before, k))
  }

  /** Every entry has an image, of its own kind. */
  ghost predicate SameKinds(was: Overlay, images: Overlay) {
    images.Keys == was.Keys && forall j :: j in was ==> (images[j].Live? <==> was[j].Live?)
  }

  lemma {:induction false} ImagesKeepKinds(st: State, steps: seq<Step>, k: OverlayKey)
    requires k in st.overlays
    ensures SameKinds(st.overlays[k].ov, Images(st, steps, k))
  {
    if steps != [] {
      ImagesKeepKinds(st, steps[..|steps| - 1], k);
    }
  }

  /** Writes are staged under the table's keys. No ALTER stops inside its issuer's own validated overlay, and staging
      tables list what they hold. */
  ghost predicate Ordinary(st: State, steps: seq<Step>) {
    steps != [] ==>
      var before, last := steps[..|steps| - 1], steps[|steps| - 1];
      Ordinary(st, before) && Admissible(Run(st, before), last) && Listed(Run(st, before), last)
  }

  ghost predicate Listed(st: State, step: Step) {
    step.Alter? && step.table in st.stored && step.change.InPlace? ==>
        Lists(st.stored[step.table].schema, step.change.how)
  }

  lemma {:induction false} RunKeepsFormed(st: State, steps: seq<Step>)
    requires Sound(st) && Formed(st) && Ordinary(st, steps)
    ensures Sound(Run(st, steps)) && Formed(Run(st, steps))
  {
    if steps != [] {
      var before := steps[..|steps| - 1];
      RunKeepsFormed(st, before);
      SoundStep(Run(st, before), steps[|steps| - 1]);
      FormedStep(Run(st, before), steps[|steps| - 1]);
    }
  }

  /** A statement that does not alter the table leaves a dirty, unpoisoned overlay and its schema as they were. */
  lemma OtherStepKeeps(st: State, step: Step, k: OverlayKey)
    requires k.table in st.stored && Foreign(step, k.db) && !Changes(st, step, k) && Admissible(st, step)
    requires step.Drop? ==> k.table != step.table
    ensures Track(st, step, k).table in Next(st, step).stored
    ensures Next(st, step).stored[Track(st, step, k).table].schema == st.stored[k.table].schema
  {
  }

  /** An ALTER that leaves a dirty overlay unpoisoned took it, and carried it. */
  lemma ChangeTakes(st: State, step: Step, k: OverlayKey, s: Staging)
    requires Changes(st, step, k) && s.dirty && !Fate(st, step, k, s).poisoned
    ensures !s.poisoned && step.change.InPlace? && Takes(step.change.how, s.ov)
    ensures Fate(st, step, k, s).ov == Adopted(st.stored[k.table].schema, step.change.how, s.ov)
    ensures Track(st, step, k) == k && k.table in Next(st, step).stored
    ensures Next(st, step).stored[k.table].schema == SchemaAfter(step.change)
  {
  }

  lemma ImagesHeldStep(st: State, step: Step, k: OverlayKey, s: Staging, images: Overlay)
    requires k.table in st.stored && Foreign(step, k.db) && Admissible(st, step) && Listed(st, step)
    requires s.dirty && !Fate(st, step, k, s).poisoned && Staged(st.stored[k.table].schema, s.ov)
    requires Holds(st.stored[k.table].schema, images, s.ov)
    ensures var at, now := Track(st, step, k).table, Next(st, step);
            at in now.stored && Holds(now.stored[at].schema, ImagesAt(st, step, k, images), Fate(st, step, k, s).ov)
  {
    if Changes(st, step, k) {
      var schema, how := st.stored[k.table].schema, step.change.how;
      ChangeTakes(st, step, k, s);
      AdoptionCarries(schema, how, s.ov);
      CarriedHolds(schema, how.after, Way(how), images, s.ov, Adopted(schema, how, s.ov));
    } else {
      OtherStepKeeps(st, step, k);
    }
  }

  lemma {:induction false} ImagesAreHeld(st: State, steps: seq<Step>, k: OverlayKey)
    requires Sound(st) && Formed(st) && Ordinary(st, steps)
    requires k in st.overlays && st.overlays[k].dirty && LeftAlone(st, steps, k) && !FateRun(st, steps, k).poisoned
    ensures var at := TrackRun(st, steps, k).table;
            && at in Run(st, steps).stored
            && Holds(Run(st, steps).stored[at].schema, Images(st, steps, k), FateRun(st, steps, k).ov)
  {
    if steps == [] {
      assert Resolves(st, k);
      StagedHolds(st.stored[k.table].schema, st.overlays[k].ov);
    } else {
      var before, last := steps[..|steps| - 1], steps[|steps| - 1];
      var mid, at := Run(st, before), TrackRun(st, before, k);
      StagedRowsSurvive(st, before, k);
      RunKeepsFormed(st, before);
      assert Resolves(mid, at);
      ImagesAreHeld(st, before, k);
      ImagesHeldStep(mid, last, at, FateRun(st, before, k), Images(st, before, k));
    }
  }

  /** The row sits at its own key. */
  ghost predicate Present(t: Stored, row: Row) {
    KeyOf(t.schema, row) in t.rows && t.rows[KeyOf(t.schema, row)] == row
  }

  /** `after` is `before` with the images in `now` written: every live image is there, where an image of a deletion is
      still staged there is no row, no entry is anything but an image, and every other row is as before. */
  ghost predicate Published(before: Stored, images: Overlay, now: Overlay, after: Stored) {
    && after.schema == before.schema
    && (forall j :: j in images && images[j].Live? ==> Present(after, images[j].row))
    && (forall q :: q in now && now[q].Marker? ==> q !in after.rows)
    && (forall q :: q in now ==> exists j :: j in images && images[j] == now[q])
    && (forall q :: q !in now ==> SameAt(after.rows, before.rows, q))
  }

  lemma HeldArePublished(t: Stored, images: Overlay, now: Overlay)
    requires Holds(t.schema, images, now)
    ensures Published(t, images, now, Stored(t.schema, Merged(t.rows, now)))
  {
    forall j | j in images && images[j].Live? ensures Present(Stored(t.schema, Merged(t.rows, now)), images[j].row) {
      assert Holding(t.schema, images, now, j);
    }
  }

  /** Nothing vanishes from a successful commit: after any run of other connections' statements, a commit that
      succeeds has published the images of all that was staged into the table under its present name and schema. */
  lemma NothingVanishesFromCommit(st: State, steps: seq<Step>, k: OverlayKey, failing: set<Name>)
    requires Sound(st) && Formed(st) && Ordinary(st, steps)
    requires k in st.overlays && st.overlays[k].dirty && LeftAlone(st, steps, k)
    requires Commits(Run(st, steps), k.db, failing)
    ensures var at, before, after := TrackRun(st, steps, k).table, Run(st, steps),
            Next(Run(st, steps), Commit(k.db, failing));
            && SameKinds(st.overlays[k].ov, Images(st, steps, k)) && at in before.stored && at in after.stored
            && Published(before.stored[at], Images(st, steps, k), FateRun(st, steps, k).ov, after.stored[at])
  {
    ImagesKeepKinds(st, steps, k);
    var at, before, now := TrackRun(st, steps, k), Run(st, steps), FateRun(st, steps, k).ov;
    StagedRowsSurvive(st, steps, k);
    RunKeepsSound(st, steps);
    assert Resolves(before, at);
    ImagesAreHeld(st, steps, k);
    CommitFlushes(before, at, failing);
    HeldArePublished(before.stored[at.table], Images(st, steps, k), now);
  }

  lemma CommitFlushes(st: State, k: OverlayKey, failing: set<Name>)
    requires Commits(st, k.db, failing) && k in st.overlays && st.overlays[k].dirty && k.table in st.stored
    ensures var after := Next(st, Commit(k.db, failing));
            && k.table in after.stored
            && after.stored[k.table] ==
               Stored(st.stored[k.table].schema, Merged(st.stored[k.table].rows, st.overlays[k].ov))
  {
  }

  /** A dropped table's staged rows block the commit until the connection rolls back. */
  lemma DropBlocksCommit(st: State, db: Db, k: OverlayKey, failing: set<Name>)
    requires k in st.overlays && st.overlays[k].dirty && k.db != db && k.table in st.stored
    ensures var after := Next(st, Drop(db, k.table));
            Next(after, Commit(k.db, failing)) == after && k in after.overlays &&
                after.overlays[k].ov == st.overlays[k].ov
  {
    var after := Next(st, Drop(db, k.table));
    assert k in after.overlays && after.overlays[k].poisoned;
  }

  // ---- a rename over a surviving overlay --------------------------------------------------------

  /** Some connection has overlays under both names. */
  ghost predicate BothNames(overlays: map<OverlayKey, Staging>, n: Name, m: Name) {
    exists db :: HasBoth(overlays, n, m, db)
  }

  ghost predicate HasBoth(overlays: map<OverlayKey, Staging>, n: Name, m: Name, db: Db) {
    OverlayKey(db, n) in overlays && OverlayKey(db, m) in overlays
  }

  ghost function Image(ks: set<OverlayKey>, n: Name, m: Name): set<OverlayKey> {
    set k | k in ks :: Moved(k, n, m)
  }

  lemma {:induction false} ImageSize(ks: set<OverlayKey>, n: Name, m: Name)
    ensures |Image(ks, n, m)| <= |ks|
    ensures |Image(ks, n, m)| == |ks| <==>
            forall a, b :: a in ks && b in ks && Moved(a, n, m) == Moved(b, n, m) ==> a == b
    decreases |ks|
  {
    if ks != {} {
      var k :| k in ks;
      var rest := ks - {k};
      ImageSize(rest, n, m);
      assert ks == rest + {k};
      assert Image(ks, n, m) == Image(rest, n, m) + {Moved(k, n, m)};
      if j :| j in rest && Moved(j, n, m) == Moved(k, n, m) {
        assert Moved(j, n, m) in Image(rest, n, m);
      } else {
        assert Moved(k, n, m) !in Image(rest, n, m);
      }
    }
  }

  lemma MovesApart(overlays: map<OverlayKey, Staging>, n: Name, m: Name)
    requires n != m
    ensures BothNames(overlays, n, m) <==>
            exists a, b :: a in overlays && b in overlays && Moved(a, n, m) == Moved(b, n, m) && a != b
  {
    if db :| HasBoth(overlays, n, m, db) {
      assert Moved(OverlayKey(db, n), n, m) == Moved(OverlayKey(db, m), n, m);
    }
    if a, b :| a in overlays && b in overlays && Moved(a, n, m) == Moved(b, n, m) && a != b {
      assert HasBoth(overlays, n, m, a.db);
    }
  }

  /** A rename keeps every overlay exactly when no connection has one under both names. */
  lemma RenameKeepsOverlaysExactly(st: State, n: Name, m: Name)
    requires n in st.stored && m !in st.stored
    ensures |Next(st, Rename(n, m)).overlays| == |st.overlays| <==> !BothNames(st.overlays, n, m)
    ensures forall k :: k in st.overlays && !Overwrites(st, Rename(n, m), k) ==>
                          Moved(k, n, m) in Next(st, Rename(n, m)).overlays &&
                              Next(st, Rename(n, m)).overlays[Moved(k, n, m)] == st.overlays[k]
  {
    var ks := st.overlays.Keys;
    assert RenameOverlays(st.overlays, n, m).Keys == Image(ks, n, m);
    assert |Image(ks, n, m)| == |ks| <==> !BothNames(st.overlays, n, m) by {
      ImageSize(ks, n, m);
      MovesApart(st.overlays, n, m);
    }
    forall k | k in st.overlays ensures Moved(k, n, m) in RenamedKeys(st.overlays, n, m) {
    }
  }

  /** Connection 1 has rows staged in "a", dropped by another connection, and rows staged in "b". */
  function Stranded(s: Schema, first: Overlay, second: Overlay): State {
    State(map["b" := Stored(s, map[])], {"b"},
          map[OverlayKey(1, "a") := Staging(first, true, true), OverlayKey(1, "b") := Staging(second, true, false)])
  }

  lemma StrandedIsReached(s: Schema, first: Overlay, second: Overlay)
    ensures Run(EMPTY, [Create("a", s), Create("b", s), Step.Write(1, "a", first), Step.Write(1, "b", second),
            Drop(2, "a")])
         == Stranded(s, first, second)
  {
    var c1, c2, w1, w2, d := Create("a", s), Create("b", s), Step.Write(1, "a", first), Step.Write(1, "b", second),
        Drop(2, "a");
    var both := map["a" := Stored(s, map[]), "b" := Stored(s, map[])];
    assert "a"[0] != "b"[0];
    RunUnfolds([], c1);
    assert [] + [c1] == [c1];
    RunUnfolds([c1], c2);
    assert [c1] + [c2] == [c1, c2];
    assert Run(EMPTY, [c1, c2]) == State(both, {"a", "b"}, map[]);
    RunUnfolds([c1, c2], w1);
    assert [c1, c2] + [w1] == [c1, c2, w1];
    RunUnfolds([c1, c2, w1], w2);
    assert [c1, c2, w1] + [w2] == [c1, c2, w1, w2];
    var staged := map[OverlayKey(1, "a") := Staging(first, true, false),
        OverlayKey(1, "b") := Staging(second, true, false)];
    assert Run(EMPTY, [c1, c2, w1, w2]) == State(both, {"a", "b"}, staged);
    RunUnfolds([c1, c2, w1, w2], d);
    assert [c1, c2, w1, w2] + [d] == [c1, c2, w1, w2, d];
    DropStrands(s, first, second);
  }

  lemma DropStrands(s: Schema, first: Overlay, second: Overlay)
    ensures Next(State(map["a" := Stored(s, map[]), "b" := Stored(s, map[])], {"a", "b"},
                       map[OverlayKey(1, "a") := Staging(first, true, false),
                           OverlayKey(1, "b") := Staging(second, true, false)]), Drop(2, "a"))
         == Stranded(s, first, second)
  {
    assert "a"[0] != "b"[0];
    var overlays := map[OverlayKey(1, "a") := Staging(first, true, false),
        OverlayKey(1, "b") := Staging(second, true, false)];
    assert DropOverlays(overlays, 2, "a") == Stranded(s, first, second).overlays;
  }

  /** The loss is reachable: renaming "b" to "a" there overwrites the poisoned overlay. Connection 1 can now
      commit, and its rows staged in the first "a" are gone with the poison that guarded them. */
  lemma RenameOverPoisonedLosesRows(s: Schema, first: Overlay, second: Overlay)
    ensures var st := Stranded(s, first, second);
            var renamed := Next(st, Rename("b", "a"));
            && !Commits(st, 1, {}) && Commits(renamed, 1, {})
            && renamed.overlays == map[OverlayKey(1, "a") := Staging(second, true, false)]
  {
    var st := Stranded(s, first, second);
    assert "a"[0] != "b"[0];
    assert OverlayKey(1, "a") in st.overlays && st.overlays[OverlayKey(1, "a")].poisoned;
    assert OverlayKey(1, "b") in st.overlays && OverlayKey(1, "b").table == "b";
    assert Moved(OverlayKey(1, "b"), "b", "a") in RenamedKeys(st.overlays, "b", "a");
    assert RenameOverlays(st.overlays, "b", "a") == map[OverlayKey(1, "a") := Staging(second, true, false)];
  }

  lemma RunUnfolds(steps: seq<Step>, last: Step)
    ensures Run(EMPTY, steps + [last]) == Next(Run(EMPTY, steps), last)
  {
    assert (steps + [last])[..|steps|] == steps;
  }

  // ---- the commit -------------------------------------------------------------------------------

  /** What a connection sees of a table. */
  ghost function View(st: State, db: Db, n: Name): Table
    requires n in st.stored
  {
    var k := OverlayKey(db, n);
    Merged(st.stored[n].rows, if k in st.overlays then st.overlays[k].ov else map[])
  }

  /** A commit publishes the connection's view of every table at once and clears exactly its overlays, or
      changes nothing. Committing again does nothing. */
  lemma CommitPublishesViews(st: State, db: Db, failing: set<Name>, again: set<Name>)
    requires Sound(st)
    ensures var after := Next(st, Commit(db, failing));
            if Commits(st, db, failing) then
              && after.stored.Keys == st.stored.Keys && after.connected == st.connected
              && (forall n :: n in st.stored ==> after.stored[n] == Stored(st.stored[n].schema, View(st, db, n)))
              && (forall k :: k in after.overlays <==> k in st.overlays && k.db != db)
              && (forall k :: k in after.overlays ==> after.overlays[k] == st.overlays[k])
              && Next(after, Commit(db, again)) == after
            else after == st
  {
    if Commits(st, db, failing) {
      FlushedIsView(st, db);
      CommittedOnce(st, db);
    }
  }

  lemma FlushedIsView(st: State, db: Db)
    requires Sound(st)
    ensures forall n :: n in st.stored ==> Flushed(st, db)[n] == Stored(st.stored[n].schema, View(st, db, n))
  {
    forall n | n in st.stored ensures Flushed(st, db)[n] == Stored(st.stored[n].schema, View(st, db, n)) {
      var k := OverlayKey(db, n);
      if k in st.overlays {
        assert Resolves(st, k);
      }
      assert Merged(st.stored[n].rows, map[]) == st.stored[n].rows;
    }
  }

  lemma CommittedOnce(st: State, db: Db)
    ensures var after := st.(stored := Flushed(st, db), overlays := Without(st.overlays, db));
            Flushed(after, db) == after.stored && Without(after.overlays, db) == after.overlays
  {
  }

  /** End to end: a transaction that writes one table and commits leaves it as the same writes on one plain
      table, with every UNIQUE constraint holding. */
  lemma TransactionMeansPlain(st: State, db: Db, n: Name, ws: seq<WriteTheorems.Write>, failing: set<Name>)
    requires Sound(st) && n in st.stored && forall k :: k in st.overlays ==> k.db != db
    requires var t := st.stored[n];
             WellFormed(t.schema) && Keyed(t.schema, t.rows) && Satisfies(t.schema, t.rows) &&
                 NoneDiverges(t.schema, t.rows, map[], ws)
    requires n !in failing
    ensures var t := st.stored[n];
            var after := Next(Next(st, Step.Write(db, n, StageAll(t.schema, t.rows, map[], ws))), Commit(db, failing));
            after.stored[n] == Stored(t.schema, PlainAll(t.schema, t.rows, ws)) &&
                Satisfies(t.schema, after.stored[n].rows)
  {
    var t := st.stored[n];
    assert Merged(t.rows, map[]) == t.rows;
    RunMeansPlain(t.schema, t.rows, map[], ws);
    WriteThenCommit(st, db, n, StageAll(t.schema, t.rows, map[], ws), failing);
  }

  lemma WriteThenCommit(st: State, db: Db, n: Name, ov: Overlay, failing: set<Name>)
    requires n in st.stored && n !in failing && forall k :: k in st.overlays ==> k.db != db
    ensures var after := Next(Next(st, Step.Write(db, n, ov)), Commit(db, failing));
            n in after.stored && after.stored[n] == Stored(st.stored[n].schema, Merged(st.stored[n].rows, ov))
  {
    var mid := Next(st, Step.Write(db, n, ov));
    assert mid.overlays[OverlayKey(db, n)] == Staging(ov, true, false);
    CommitFlushes(mid, OverlayKey(db, n), failing);
  }

  // ---- keys stay where they belong --------------------------------------------------------------

  /** Stored rows and usable staged entries sit at their own keys, under their table's present schema. */
  ghost predicate Formed(st: State) {
    && (forall n :: n in st.stored ==> Keyed(st.stored[n].schema, st.stored[n].rows))
    && (forall k :: k in st.overlays && !st.overlays[k].poisoned && k.table in st.stored ==>
                      Staged(st.stored[k.table].schema, st.overlays[k].ov))
  }

  /** Staged writes sit at their own keys, and no ALTER stops inside its issuer's own validated overlay. */
  ghost predicate Admissible(st: State, step: Step) {
    match step
    case Write(_, n, ov) => n in st.stored ==> Staged(st.stored[n].schema, ov)
    case Alter(db, n, change) => AlterProceeds(st, db, n, change) ==> !Drifts(st, db, n, change)
    case _ => true
  }

  /** The table is altered to `t`, keyed; overlays of it that can be used are staged under its new schema. */
  lemma FormedAfterAlter(st: State, now: State, n: Name, t: Stored)
    requires Formed(st) && n in st.stored && now.stored == st.stored[n := t] && Keyed(t.schema, t.rows)
    requires now.overlays.Keys == st.overlays.Keys
    requires forall k :: k in st.overlays && k.table != n ==> now.overlays[k] == st.overlays[k]
    requires forall k :: k in now.overlays && k.table == n && !now.overlays[k].poisoned ==>
             Staged(t.schema, now.overlays[k].ov)
    ensures Formed(now)
  {
  }

  lemma AlterIs(st: State, db: Db, n: Name, change: Change)
    requires AlterProceeds(st, db, n, change) && !Drifts(st, db, n, change)
    ensures Next(st, Alter(db, n, change)) ==
            st.(stored := st.stored[n := Altered(st.stored[n], change)],
                overlays := CarriedAll(st.overlays, st.stored[n].schema, n, change))
  {
  }

  lemma AlterKeepsFormed(st: State, db: Db, n: Name, change: Change)
    requires Sound(st) && Formed(st) && AlterProceeds(st, db, n, change) && !Drifts(st, db, n, change)
    ensures Formed(Next(st, Alter(db, n, change)))
  {
    var s, t := st.stored[n].schema, Altered(st.stored[n], change);
    var overlays := CarriedAll(st.overlays, s, n, change);
    assert Keyed(t.schema, t.rows) by {
      WayFitsOf(change);
      RekeyedIsKeyed(SchemaAfter(change), st.stored[n].rows, WayOf(change));
    }
    forall k | k in overlays && k.table == n && !overlays[k].poisoned ensures Staged(t.schema, overlays[k].ov) {
      assert Resolves(st, k);
      CarriedIsStaged(s, change, st.overlays[k]);
    }
    AlterIs(st, db, n, change);
    FormedAfterAlter(st, Next(st, Alter(db, n, change)), n, t);
  }

  lemma WayFitsOf(change: Change)
    ensures Fits(SchemaAfter(change), WayOf(change))
  {
    if change.InPlace? {
      WayFits(change.how);
    } else {
      CarryingFits(change.after, row => row, row => row);
    }
  }

  /** A dirty overlay the change does not poison is adopted. */
  lemma CarriedIsAdopted(s: Schema, change: Change, was: Staging)
    requires was.dirty && !Carried(s, change, was).poisoned
    ensures change.InPlace? && Carried(s, change, was).ov == Adopted(s, change.how, was.ov)
  {
  }

  lemma CarriedIsStaged(s: Schema, change: Change, was: Staging)
    requires !was.dirty ==> was.ov == map[]
    requires !Carried(s, change, was).poisoned
    ensures Staged(SchemaAfter(change), Carried(s, change, was).ov)
  {
    if was.dirty {
      CarriedIsAdopted(s, change, was);
      AdoptedIsStaged(s, change.how, was.ov);
    }
  }

  lemma FormedStep(st: State, step: Step)
    requires Sound(st) && Formed(st) && Admissible(st, step)
    ensures Formed(Next(st, step))
  {
    if step.Alter? {
      if AlterProceeds(st, step.db, step.table, step.change) {
        AlterKeepsFormed(st, step.db, step.table, step.change);
      }
    } else {
      PlainStepKeepsFormed(st, step);
    }
  }

  lemma PlainStepKeepsFormed(st: State, step: Step)
    requires Sound(st) && Formed(st) && Admissible(st, step) && !step.Alter?
    ensures Formed(Next(st, step))
  {
    var now := Next(st, step);
    forall k | k in now.overlays && !now.overlays[k].poisoned && k.table in now.stored
      ensures Staged(now.stored[k.table].schema, now.overlays[k].ov)
    {
      if k in st.overlays {
        assert Resolves(st, k);
      }
      if Renames(st, step) && OverlayKey(k.db, step.table) in st.overlays {
        assert Resolves(st, OverlayKey(k.db, step.table));
      }
    }
    forall n | n in now.stored ensures Keyed(now.stored[n].schema, now.stored[n].rows) {
      if step.Commit? && Commits(st, step.db, step.failing) {
        var k := OverlayKey(step.db, n);
        if k in st.overlays && st.overlays[k].dirty {
          MergedIsKeyed(st.stored[n].schema, st.stored[n].rows, st.overlays[k].ov);
        }
      }
    }
  }

  // ---- one ALTER, seen by its issuer and by others ----------------------------------------------

  /** What a connection has staged for a table. */
  function StagedBy(st: State, db: Db, n: Name): Overlay {
    if OverlayKey(db, n) in st.overlays then st.overlays[OverlayKey(db, n)].ov else map[]
  }

  /** A clean overlay, or none, is carried as it is. */
  lemma NothingStagedIsCarried(t: Stored, change: Change)
    ensures Undisturbed(t.rows, map[], WayOf(change)) && ViewCarried(t.rows, map[], map[], WayOf(change))
  {
    assert Merged(t.rows, map[]) == t.rows;
    assert Merged(Rekeyed(t.rows, WayOf(change)), map[]) == Rekeyed(t.rows, WayOf(change));
  }

  lemma ViewAfterAlter(st: State, db: Db, n: Name, change: Change)
    requires AlterProceeds(st, db, n, change) && !Drifts(st, db, n, change)
    ensures var now := Next(st, Alter(db, n, change));
            && n in now.stored
            && View(now, db, n) == Merged(Rekeyed(st.stored[n].rows, WayOf(change)), StagedBy(now, db, n))
            && (OverlayKey(db, n) in st.overlays ==>
                  StagedBy(now, db, n) == Carried(st.stored[n].schema, change, st.overlays[OverlayKey(db, n)]).ov)
            && (OverlayKey(db, n) !in st.overlays ==> StagedBy(now, db, n) == map[])
  {
    AlterIs(st, db, n, change);
  }

  /** After an in-place ALTER its issuer sees its old view of the table, each row carried by the change, if and only if
      no marker lands on a committed row it does not delete and no hidden row loses the entry that hid it. */
  lemma IssuerSeesCarriedViewExactly(st: State, db: Db, n: Name, change: Change)
    requires Sound(st) && Formed(st) && change.InPlace? && AlterProceeds(st, db, n, change)
    requires !Drifts(st, db, n, change) && Usable(st, OverlayKey(db, n)) && Listed(st, Alter(db, n, change))
    ensures n in Next(st, Alter(db, n, change)).stored
    ensures View(Next(st, Alter(db, n, change)), db, n) == Rekeyed(View(st, db, n), WayOf(change))
       <==> Undisturbed(st.stored[n].rows, StagedBy(st, db, n), WayOf(change))
  {
    ViewAfterAlter(st, db, n, change);
    var own := OverlayKey(db, n);
    if Judged(st, own) {
      IssuerAdopts(st.stored[n], st.overlays[own], change);
    } else {
      assert own in st.overlays ==> Resolves(st, own);
      NothingStagedIsCarried(st.stored[n], change);
    }
  }

  lemma IssuerAdopts(t: Stored, own: Staging, change: Change)
    requires change.InPlace? && own.dirty && !own.poisoned && Takes(change.how, own.ov) && change.halts(own.ov).None?
    requires Staged(t.schema, own.ov) && Lists(t.schema, change.how) && Accepts(t, Merged(t.rows, own.ov), change)
    ensures ViewCarried(t.rows, own.ov, Carried(t.schema, change, own).ov, WayOf(change)) <==>
            Undisturbed(t.rows, own.ov, WayOf(change))
  {
    assert Carried(t.schema, change, own).ov == Adopted(t.schema, change.how, own.ov);
    AdoptionIsExact(t.schema, t.rows, own.ov, change.how);
  }

  lemma OneForeignAlter(st: State, db: Db, k: OverlayKey, change: Change)
    requires k in st.overlays && db != k.db
    requires AlterProceeds(st, db, k.table, change) && !Drifts(st, db, k.table, change) &&
             Listed(st, Alter(db, k.table, change))
    ensures var step := Alter(db, k.table, change);
            && Run(st, [step]) == Next(st, step) && TrackRun(st, [step], k) == k
            && Images(st, [step], k) == FilledAll(WayOf(change), st.overlays[k].ov)
            && LeftAlone(st, [step], k) && Ordinary(st, [step])
  {
    var step := Alter(db, k.table, change);
    assert [step][..0] == [];
    assert LeftAlone(st, [], k) && Ordinary(st, []);
  }

  /** Another connection re-collates the key: every live row staged here commits as it was staged, found under the new
      comparison. */
  lemma RecollatedRowsCommit(st: State, db: Db, k: OverlayKey, change: Change, failing: set<Name>, j: Key)
    requires Sound(st) && Formed(st) && k in st.overlays && st.overlays[k].dirty && db != k.db
    requires change.InPlace? && change.how == SetCollation(change.how.after, change.how.scan)
    requires AlterProceeds(st, db, k.table, change) && !Drifts(st, db, k.table, change) &&
             Listed(st, Alter(db, k.table, change))
    requires Commits(Next(st, Alter(db, k.table, change)), k.db, failing)
    requires j in st.overlays[k].ov && st.overlays[k].ov[j].Live?
    ensures var after := Next(Next(st, Alter(db, k.table, change)), Commit(k.db, failing)).stored;
            && k.table in after && after[k.table].schema == change.how.after
            && Present(after[k.table], st.overlays[k].ov[j].row)
  {
    OneForeignAlter(st, db, k, change);
    NothingVanishesFromCommit(st, [Alter(db, k.table, change)], k, failing);
    assert FilledAll(WayOf(change), st.overlays[k].ov)[j] == st.overlays[k].ov[j];
  }

  /** Another connection makes a key column NOT NULL: every live row staged here commits with the default filled in. */
  lemma BackfilledRowsCommit(st: State, db: Db, k: OverlayKey, pos: nat, fill: Value, change: Change,
                             failing: set<Name>, j: Key)
    requires Sound(st) && Formed(st) && k in st.overlays && st.overlays[k].dirty && db != k.db
    requires k.table in st.stored && pos < |st.stored[k.table].schema.pk| && change.InPlace?
    requires change.how == SetKeyNotNull(st.stored[k.table].schema, pos, fill, change.how.scan)
    requires AlterProceeds(st, db, k.table, change) && !Drifts(st, db, k.table, change) &&
             Listed(st, Alter(db, k.table, change))
    requires Commits(Next(st, Alter(db, k.table, change)), k.db, failing)
    requires j in st.overlays[k].ov && st.overlays[k].ov[j].Live?
    ensures var after := Next(Next(st, Alter(db, k.table, change)), Commit(k.db, failing)).stored;
            var s := st.stored[k.table].schema;
            && k.table in after && after[k.table].schema == s
            && Present(after[k.table], FillCell(s.pk[pos].index, fill, st.overlays[k].ov[j].row))
  {
    OneForeignAlter(st, db, k, change);
    NothingVanishesFromCommit(st, [Alter(db, k.table, change)], k, failing);
    var s := st.stored[k.table].schema;
    assert FilledAll(WayOf(change), st.overlays[k].ov)[j] ==
        Live(FillCell(s.pk[pos].index, fill, st.overlays[k].ov[j].row));
  }
}
