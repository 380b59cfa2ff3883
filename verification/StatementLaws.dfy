/** What each statement does to every connection, said of the rows alone: what is refused, what is poisoned, what is
    carried, and who sees what. */
module StatementLaws {
  import opened Rows
  import opened MergedView
  import opened MergeScan
  import opened OverlayMigration
  import opened PkRekey
  import opened TableLifecycle

  // ---- ALTER ------------------------------------------------------------------------------------

  /** The row a change makes of a row. */
  function NewRow(change: Change, row: Row): Row {
    if change.InPlace? then change.how.fill(row) else row
  }

  /** The key the changed row has under the changed schema. */
  function Landing(change: Change, row: Row): Key {
    KeyOf(SchemaAfter(change), NewRow(change, row))
  }

  ghost predicate RowsApart(change: Change, t: Table) {
    forall j, k :: j in t && k in t && j != k ==> Landing(change, t[j]) != Landing(change, t[k])
  }

  ghost predicate RowsLegal(change: Change, t: Table) {
    change.InPlace? ==> forall k :: k in t ==> change.how.legal(t[k])
  }

  /** What an overlay's live rows are, as a table. */
  function LiveRows(ov: Overlay): Table {
    map k | k in ov && ov[k].Live? :: ov[k].row
  }

  lemma LandingIsKey(change: Change, row: Row)
    ensures WayOf(change).key(Live(row)) == Landing(change, row)
    ensures WayOf(change).fill(row) == NewRow(change, row)
  {
  }

  lemma ApartIsDistinct(change: Change, t: Table)
    ensures RowsApart(change, t) <==> Distinct(t, WayOf(change))
  {
    forall k | k in t ensures WayOf(change).key(Live(t[k])) == Landing(change, t[k]) {
      LandingIsKey(change, t[k]);
    }
  }

  /** A change takes an overlay exactly when its live rows are legal and stay apart. */
  lemma TakesExactly(change: Change, ov: Overlay)
    requires change.InPlace?
    ensures Takes(change.how, ov) <==> RowsLegal(change, LiveRows(ov)) && RowsApart(change, LiveRows(ov))
  {
    var live := LiveRows(ov);
    forall k | k in live ensures WayOf(change).key(ov[k]) == Landing(change, live[k]) {
      LandingIsKey(change, live[k]);
    }
    assert forall k :: k in ov && ov[k].Live? <==> k in live;
  }

  /** An ALTER goes ahead exactly when the table is there, its own grounds to refuse do not apply, no two committed rows
      and no two rows the issuer sees land on one key, every row it sees is legal, and the change is one in place when
      the issuer has rows staged. An issuer whose overlay is poisoned is judged by the committed rows. */
  lemma AlterHappensExactly(st: State, db: Db, n: Name, change: Change)
    requires n in st.stored && Sound(st)
    ensures var usable := Usable(st, OverlayKey(db, n));
            var sees := if usable then View(st, db, n) else st.stored[n].rows;
            AlterProceeds(st, db, n, change) <==>
            && !change.refuses(st.stored[n], sees)
            && RowsApart(change, st.stored[n].rows) && RowsApart(change, sees) && RowsLegal(change, sees)
            && (usable && OverlayKey(db, n) in st.overlays && st.overlays[OverlayKey(db, n)].dirty ==> change.InPlace?)
  {
    var own := OverlayKey(db, n);
    var sees := IssuerRows(st, db, n);
    IssuerSees(st, db, n);
    ApartIsDistinct(change, st.stored[n].rows);
    ApartIsDistinct(change, sees);
    if Judged(st, own) && change.InPlace? {
      TakesExactly(change, st.overlays[own].ov);
      LiveRowsAreSeen(st.stored[n].rows, st.overlays[own].ov, change);
    }
  }

  lemma IssuerSees(st: State, db: Db, n: Name)
    requires n in st.stored && Sound(st)
    ensures IssuerRows(st, db, n) ==
            if Usable(st, OverlayKey(db, n)) then View(st, db, n) else st.stored[n].rows
  {
    var own := OverlayKey(db, n);
    if own in st.overlays {
      assert Resolves(st, own);
    }
    NothingStagedShowsCommitted(st.stored[n].rows);
  }

  lemma LiveRowsAreSeen(base: Table, ov: Overlay, change: Change)
    ensures RowsLegal(change, Merged(base, ov)) ==> RowsLegal(change, LiveRows(ov))
    ensures RowsApart(change, Merged(base, ov)) ==> RowsApart(change, LiveRows(ov))
  {
    var live, m := LiveRows(ov), Merged(base, ov);
    assert forall k :: k in live ==> k in m && m[k] == live[k];
  }

  /** One illegal row in the issuer's own overlay, or two that would meet, leave everything as it was. */
  lemma IllegalOwnRowRefuses(st: State, db: Db, n: Name, change: Change)
    requires Judged(st, OverlayKey(db, n)) && change.InPlace?
    requires var live := LiveRows(st.overlays[OverlayKey(db, n)].ov);
             !RowsLegal(change, live) || !RowsApart(change, live)
    ensures Next(st, Alter(db, n, change)) == st
  {
    TakesExactly(change, st.overlays[OverlayKey(db, n)].ov);
  }

  ghost predicate ComesFrom(change: Change, t: Table, row: Row) {
    exists k :: k in t && row == NewRow(change, t[k])
  }

  /** The table afterwards: the changed schema, every row changed and at its own key, and nothing else. Other tables are
      as they were. */
  lemma AlterRewritesTable(st: State, db: Db, n: Name, change: Change)
    requires AlterProceeds(st, db, n, change)
    ensures var now := Next(st, Alter(db, n, change));
            && n in now.stored && now.stored == st.stored[n := now.stored[n]] && now.connected == st.connected
            && Rewritten(st.stored[n], change, now.stored[n])
  {
    AlterUnfolds(st, db, n, change);
    ApartIsDistinct(change, st.stored[n].rows);
    RowsAreRewritten(st.stored[n], change);
  }

  ghost predicate Rewritten(t: Stored, change: Change, now: Stored) {
    && now.schema == SchemaAfter(change)
    && (forall k :: k in t.rows ==> Present(now, NewRow(change, t.rows[k])))
    && (forall q :: q in now.rows ==> ComesFrom(change, t.rows, now.rows[q]))
  }

  lemma RowsAreRewritten(t: Stored, change: Change)
    requires RowsApart(change, t.rows)
    ensures Rewritten(t, change, Altered(t, change))
  {
    forall k | k in t.rows ensures Present(Altered(t, change), NewRow(change, t.rows[k])) {
      RowIsRewritten(t, change, k);
    }
    forall q | q in Altered(t, change).rows ensures ComesFrom(change, t.rows, Altered(t, change).rows[q]) {
      RowIsTraced(t, change, q);
    }
  }

  lemma RowIsTraced(t: Stored, change: Change, q: Key)
    requires RowsApart(change, t.rows) && q in Altered(t, change).rows
    ensures ComesFrom(change, t.rows, Altered(t, change).rows[q])
  {
    var k :| k in t.rows && WayOf(change).key(Live(t.rows[k])) == q;
    RowIsRewritten(t, change, k);
  }

  lemma RowIsRewritten(t: Stored, change: Change, k: Key)
    requires RowsApart(change, t.rows) && k in t.rows
    ensures Present(Altered(t, change), NewRow(change, t.rows[k]))
    ensures WayOf(change).key(Live(t.rows[k])) == Landing(change, t.rows[k])
  {
    ApartIsDistinct(change, t.rows);
    LandingIsKey(change, t.rows[k]);
    RekeyedAt(t.rows, WayOf(change), k);
  }

  /** Which of a table's dirty overlays an ALTER poisons: all of them for a new primary key; otherwise those with an
      illegal live row, with two live rows that would meet, or whose staging table stops part of the way. */
  lemma AlterPoisonsExactly(st: State, db: Db, k: OverlayKey, change: Change)
    requires AlterProceeds(st, db, k.table, change) && !Drifts(st, db, k.table, change)
    requires k in st.overlays && st.overlays[k].dirty && !st.overlays[k].poisoned
    ensures var now, ov := Next(st, Alter(db, k.table, change)), st.overlays[k].ov;
            && k in now.overlays && now.overlays[k].dirty
            && (now.overlays[k].poisoned <==>
                change.NewPrimaryKey? || !RowsLegal(change, LiveRows(ov)) || !RowsApart(change, LiveRows(ov))
                || change.halts(ov).Some?)
  {
    AlterIs(st, db, k.table, change);
    if change.InPlace? {
      TakesExactly(change, st.overlays[k].ov);
    }
  }

  /** At every ALTER of its table along the run, each staged live row, as carried so far, was legal. */
  ghost predicate LegalAlong(st: State, steps: seq<Step>, k: OverlayKey)
    requires k in st.overlays
  {
    steps != [] ==>
      var before, last := steps[..|steps| - 1], steps[|steps| - 1];
      && LegalAlong(st, before, k)
      && (Changes(Run(st, before), last, TrackRun(st, before, k)) ==>
            last.change.InPlace? && RowsLegal(last.change, LiveRows(Images(st, before, k))))
  }

  lemma HeldAreLegal(s: Schema, change: Change, images: Overlay, ov: Overlay)
    requires change.InPlace? && Holds(s, images, ov) && Takes(change.how, ov)
    ensures RowsLegal(change, LiveRows(images))
  {
    TakesExactly(change, ov);
    forall j | j in LiveRows(images) ensures change.how.legal(LiveRows(images)[j]) {
      assert Holding(s, images, ov, j);
      assert KeyOf(s, images[j].row) in LiveRows(ov);
    }
  }

  /** What a commit publishes came from rows that every ALTER on the way allowed: an overlay no statement of the run
      poisoned held only legal rows at each of them. */
  lemma {:induction false} PublishedRowsWereLegal(st: State, steps: seq<Step>, k: OverlayKey)
    requires Sound(st) && Formed(st) && Ordinary(st, steps)
    requires k in st.overlays && st.overlays[k].dirty && LeftAlone(st, steps, k) && !FateRun(st, steps, k).poisoned
    ensures LegalAlong(st, steps, k)
  {
    if steps != [] {
      var before, last := steps[..|steps| - 1], steps[|steps| - 1];
      var mid, at, s := Run(st, before), TrackRun(st, before, k), FateRun(st, before, k);
      StagedRowsSurvive(st, before, k);
      PublishedRowsWereLegal(st, before, k);
      if Changes(mid, last, at) {
        ChangeTakes(mid, last, at, s);
        ImagesAreHeld(st, before, k);
        HeldAreLegal(mid.stored[at.table].schema, last.change, Images(st, before, k), s.ov);
      }
    }
  }

  /** A connection that can still commit after an ALTER had only legal rows staged. */
  lemma CommittedWereLegal(st: State, db: Db, k: OverlayKey, change: Change, failing: set<Name>)
    requires k in st.overlays && st.overlays[k].dirty
    requires AlterProceeds(st, db, k.table, change) && !Drifts(st, db, k.table, change)
    requires Commits(Next(st, Alter(db, k.table, change)), k.db, failing)
    ensures RowsLegal(change, LiveRows(st.overlays[k].ov))
  {
    AlterKeepsShape(st, db, k.table, change);
    assert SameFlags(st.overlays[k], Next(st, Alter(db, k.table, change)).overlays[k]);
    AlterPoisonsExactly(st, db, k, change);
  }

  /** Another connection alters the table in place, and this one then commits: every live row staged here was legal, and
      is in the table as the change makes it. */
  lemma StagedRowsCommitChanged(st: State, db: Db, k: OverlayKey, change: Change, failing: set<Name>, j: Key)
    requires Sound(st) && Formed(st) && k in st.overlays && st.overlays[k].dirty && db != k.db && change.InPlace?
    requires AlterProceeds(st, db, k.table, change) && !Drifts(st, db, k.table, change)
    requires Listed(st, Alter(db, k.table, change)) && Commits(Next(st, Alter(db, k.table, change)), k.db, failing)
    requires j in st.overlays[k].ov && st.overlays[k].ov[j].Live?
    ensures var after := Next(Next(st, Alter(db, k.table, change)), Commit(k.db, failing)).stored;
            var row := st.overlays[k].ov[j].row;
            && k.table in after && after[k.table].schema == change.how.after
            && Present(after[k.table], change.how.fill(row)) && change.how.legal(row)
  {
    OneForeignAlter(st, db, k, change);
    NothingVanishesFromCommit(st, [Alter(db, k.table, change)], k, failing);
    assert FilledAll(WayOf(change), st.overlays[k].ov)[j] == Live(change.how.fill(st.overlays[k].ov[j].row));
    CommittedWereLegal(st, db, k, change, failing);
    assert LiveRows(st.overlays[k].ov)[j] == st.overlays[k].ov[j].row;
  }

  /** Another connection makes a column NOT NULL with no default to fill it: what was staged here commits as it was, and
      has a value there. */
  lemma NotNullRowsCommit(st: State, db: Db, k: OverlayKey, at: nat, change: Change, failing: set<Name>, j: Key)
    requires Sound(st) && Formed(st) && k in st.overlays && st.overlays[k].dirty && db != k.db
    requires k.table in st.stored && change.InPlace?
    requires change.how == SetNotNull(st.stored[k.table].schema, at, change.how.scan)
    requires AlterProceeds(st, db, k.table, change) && !Drifts(st, db, k.table, change)
    requires Listed(st, Alter(db, k.table, change)) && Commits(Next(st, Alter(db, k.table, change)), k.db, failing)
    requires j in st.overlays[k].ov && st.overlays[k].ov[j].Live?
    ensures var after := Next(Next(st, Alter(db, k.table, change)), Commit(k.db, failing)).stored;
            var row := st.overlays[k].ov[j].row;
            k.table in after && Present(after[k.table], row) && !Cell(row, at).Null?
  {
    StagedRowsCommitChanged(st, db, k, change, failing, j);
    NotNullKeepsRows(st.stored[k.table].schema, at, change.how.scan, st.overlays[k].ov[j].row);
  }

  lemma NotNullKeepsRows(s: Schema, at: nat, scan: Overlay -> seq<Slot>, row: Row)
    ensures SetNotNull(s, at, scan).fill(row) == row
    ensures SetNotNull(s, at, scan).legal(row) <==> !Cell(row, at).Null?
  {
    assert WithRewrite(row, at, v => v) == row;
  }

  // ---- the other statements ---------------------------------------------------------------------

  /** Another connection's uncommitted work is never seen. */
  lemma UncommittedIsUnseen(st: State, step: Step, db: Db, n: Name)
    requires (step.Write? || step.Open? || step.Clear?) && step.db != db && n in st.stored
    ensures var now := Next(st, step); now.stored == st.stored && View(now, db, n) == View(st, db, n)
  {
  }

  /** Through any run of other connections' writes, opens and rollbacks a connection sees what it saw. */
  lemma {:induction false} UncommittedStaysUnseen(st: State, steps: seq<Step>, db: Db, n: Name)
    requires n in st.stored
    requires forall i :: 0 <= i < |steps| ==>
                           (steps[i].Write? || steps[i].Open? || steps[i].Clear?) && steps[i].db != db
    ensures Run(st, steps).stored == st.stored && View(Run(st, steps), db, n) == View(st, db, n)
  {
    if steps != [] {
      var before := steps[..|steps| - 1];
      UncommittedStaysUnseen(st, before, db, n);
      UncommittedIsUnseen(Run(st, before), steps[|steps| - 1], db, n);
    }
  }

  /** A connection sees its own writes, unless its overlay is poisoned: then they are refused. */
  lemma OwnWritesAreSeen(st: State, db: Db, n: Name, ov: Overlay)
    requires n in st.stored
    ensures var now := Next(st, Write(db, n, ov));
            if OverlayKey(db, n) in st.overlays && st.overlays[OverlayKey(db, n)].poisoned then now == st
            else now.stored == st.stored && View(now, db, n) == Merged(st.stored[n].rows, ov)
  {
  }

  /** A rollback drops what is staged, poison and all: the connection sees the committed rows again, its other overlays
      and everyone else's are as they were. */
  lemma RollbackShowsCommitted(st: State, db: Db, tables: set<Name>)
    ensures var now := Next(st, Clear(db, tables));
            && now.stored == st.stored
            && (forall n :: n in tables ==> OverlayKey(db, n) !in now.overlays)
            && (forall n :: n in tables && n in st.stored ==> View(now, db, n) == st.stored[n].rows)
            && (forall k: OverlayKey :: k.db != db || k.table !in tables ==>
                              (k in now.overlays <==> k in st.overlays)
                              && (k in st.overlays ==> now.overlays[k] == st.overlays[k]))
  {
    forall n | n in tables && n in st.stored ensures View(Next(st, Clear(db, tables)), db, n) == st.stored[n].rows {
      NothingStagedShowsCommitted(st.stored[n].rows);
    }
  }

  /** A rollback of every table unblocks a connection: it can commit, and that changes no table. */
  lemma RollbackUnblocks(st: State, db: Db, tables: set<Name>, failing: set<Name>)
    requires Sound(st) && forall k :: k in st.overlays && k.db == db ==> k.table in tables
    ensures var now := Next(st, Clear(db, tables));
            Commits(now, db, failing) && Next(now, Commit(db, failing)).stored == st.stored
  {
    SoundStep(st, Clear(db, tables));
    var now := Next(st, Clear(db, tables));
    CommitPublishesViews(now, db, failing, {});
    RollbackShowsCommitted(st, db, tables);
    forall n | n in st.stored ensures View(now, db, n) == st.stored[n].rows {
      NothingStagedShowsCommitted(st.stored[n].rows);
    }
  }

  /** What a commit changes for another connection: it sees its own staged entries over the rows the committer saw. */
  lemma CommitShowsOthers(st: State, db: Db, other: Db, n: Name, failing: set<Name>)
    requires Sound(st) && Commits(st, db, failing) && other != db && n in st.stored
    ensures var now := Next(st, Commit(db, failing));
            n in now.stored && View(now, other, n) == Merged(View(st, db, n), StagedBy(st, other, n))
  {
    CommitPublishesViews(st, db, failing, failing);
  }

  /** Opening a table stages nothing: a new overlay is empty, clean and unpoisoned, an old one stays, and the connection
      sees what it saw. */
  lemma OpenStagesNothing(st: State, db: Db, n: Name)
    requires n in st.stored
    ensures var now, own := Next(st, Open(db, n)), OverlayKey(db, n);
            && now.stored == st.stored && n in now.connected && own in now.overlays
            && (own in st.overlays ==> now.overlays == st.overlays)
            && (own !in st.overlays ==> now.overlays == st.overlays[own := now.overlays[own]]
                                        && !now.overlays[own].dirty && !now.overlays[own].poisoned)
            && View(now, db, n) == View(st, db, n)
  {
  }

  lemma CreatedIsEmpty(st: State, n: Name, schema: Schema)
    ensures var now := Next(st, Create(n, schema));
            if n in st.stored then now == st
            else && now.stored == st.stored[n := Stored(schema, map[])] && n in now.connected
                 && now.overlays == st.overlays
  {
  }

  /** A dropped table is gone. Its issuer's overlay goes with it, and so do clean ones; another connection's staged rows
      stay, poisoned. */
  lemma DroppedIsGone(st: State, db: Db, n: Name)
    requires n in st.stored
    ensures var now := Next(st, Drop(db, n));
            && now.stored == st.stored - {n} && n !in now.connected
            && OverlayKey(db, n) !in now.overlays
            && (forall k :: k in st.overlays && k.table == n && k.db != db ==>
                              if st.overlays[k].dirty
                              then k in now.overlays && now.overlays[k] == st.overlays[k].(poisoned := true)
                              else k !in now.overlays)
            && (forall k :: k in st.overlays && k.table != n ==> k in now.overlays && now.overlays[k] == st.overlays[k])
  {
  }

  /** A renamed table is found under its new name only, with all it held, and so is what a connection has staged. */
  lemma RenamedIsMoved(st: State, n: Name, m: Name, db: Db)
    requires n in st.stored && m !in st.stored && OverlayKey(db, m) !in st.overlays
    ensures var now := Next(st, Rename(n, m));
            && now.stored == (st.stored - {n})[m := st.stored[n]]
            && OverlayKey(db, n) !in now.overlays
            && View(now, db, m) == View(st, db, n)
  {
    var now := Next(st, Rename(n, m));
    assert now.stored == (st.stored - {n})[m := st.stored[n]];
    if OverlayKey(db, n) in st.overlays {
      assert TableLifecycle.Moved(OverlayKey(db, n), n, m) in RenamedKeys(st.overlays, n, m);
    }
    forall k | k in st.overlays ensures TableLifecycle.Moved(k, n, m) != OverlayKey(db, n) {
    }
  }
}
