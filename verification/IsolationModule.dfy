/** The isolation module itself: its maps, updated in place by commit, drop, rename and alter. */
module IsolationModule {
  import opened Rows
  import opened MergedView
  import opened MergeScan
  import opened Flush
  import OverlayMigration
  import PkRekey
  import opened TableLifecycle

  /** What a table holds once its open transaction commits. */
  ghost function Due(under: UnderlyingTable): Table
    reads under
  {
    if under.pending.Some? then under.pending.value else under.committed
  }

  class Isolation {
    /** The underlying module's tables, whether or not one is open here. */
    var tables: map<Name, UnderlyingTable>
    var connected: set<Name>
    var overlays: map<OverlayKey, Staging>

    ghost function Handles(): set<UnderlyingTable>
      reads this`tables
    {
      set n | n in tables :: tables[n]
    }

    ghost function Contents(): map<Name, Stored>
      reads this`tables, Handles()
    {
      map n | n in tables :: Stored(tables[n].schema, tables[n].committed)
    }

    ghost function Abs(): State
      reads this, Handles()
    {
      State(Contents(), connected, overlays)
    }

    /** One handle per table. */
    ghost predicate Apart()
      reads this`tables
    {
      forall m, n :: m in tables && n in tables && m != n ==> tables[m] != tables[n]
    }

    /** Between transactions no underlying table has one open. */
    ghost predicate Idle()
      reads this`tables, Handles()
    {
      forall n :: n in tables ==> tables[n].pending.None?
    }

    ghost predicate Valid()
      reads this, Handles()
    {
      Apart() && Idle() && Sound(Abs()) && Formed(Abs())
    }

    constructor ()
      ensures Valid() && Abs() == EMPTY
    {
      tables, connected, overlays := map[], {}, map[];
    }

    // ---- commit ---------------------------------------------------------------------------------

    /** Gathers the connection's overlays to apply; refuses at a poisoned one, or a dirty one with no open
        table. */
    method GatherEntries(db: Db) returns (ok: bool, entries: seq<OverlayKey>)
      ensures ok <==> Commits(Abs(), db, {})
      ensures ok ==> forall k :: k in entries <==> k in overlays && k.db == db && overlays[k].dirty
      ensures ok ==> forall i, j :: 0 <= i < j < |entries| ==> entries[i] != entries[j]
    {
      entries := [];
      var left := overlays.Keys;
      while left != {}
        invariant left <= overlays.Keys
        invariant forall k :: k in overlays && k !in left && k.db == db ==>
                  !overlays[k].poisoned && (overlays[k].dirty ==> k.table in connected)
        invariant forall k :: k in entries <==> k in overlays && k !in left && k.db == db && overlays[k].dirty
        invariant forall i, j :: 0 <= i < j < |entries| ==> entries[i] != entries[j]
        decreases |left|
      {
        var k :| k in left;
        left := left - {k};
        if k.db == db {
          if overlays[k].poisoned || (overlays[k].dirty && k.table !in connected) {
            return false, [];
          }
          if overlays[k].dirty {
            entries := entries + [k];
          }
        }
      }
      ok := true;
    }

    /** The entries name open tables, each once, with overlays keyed as the table keys its rows. */
    ghost predicate Ready(db: Db, entries: seq<OverlayKey>)
      reads this, Handles()
    {
      && (forall k :: k in entries ==>
         k.db == db && k in overlays && k.table in tables && Staged(tables[k.table].schema, overlays[k].ov))
      && (forall i, j :: 0 <= i < j < |entries| ==> entries[i] != entries[j])
      && (forall n :: n in tables ==> Keyed(tables[n].schema, tables[n].committed))
    }

    /** The first `i` entries are applied and uncommitted; no other table has a transaction open. */
    ghost predicate Applied(entries: seq<OverlayKey>, i: nat)
      requires i <= |entries|
      reads this, Handles()
    {
      && (forall j :: 0 <= j < i ==> entries[j] in overlays && entries[j].table in tables
                                     && tables[entries[j].table].pending ==
                                        Some(Merged(tables[entries[j].table].committed, overlays[entries[j]].ov)))
      && (forall n :: n in tables && (forall j :: 0 <= j < i ==> entries[j].table != n) ==> tables[n].pending.None?)
    }

    /** Phase 1: every overlay applied, nothing committed. The first failure undoes them all. */
    method ApplyAll(db: Db, entries: seq<OverlayKey>) returns (ok: bool)
      requires Apart() && Idle() && Ready(db, entries)
      modifies Handles()`pending, Handles()`writesLeft
      ensures if ok then Applied(entries, |entries|) else Idle()
      ensures (forall n :: n in tables ==> old(tables[n].writesLeft).None?) ==> ok
    {
      for i := 0 to |entries|
        invariant Ready(db, entries) && Applied(entries, i)
        invariant (forall n :: n in tables ==> old(tables[n].writesLeft).None?) ==> forall n :: n in tables ==>
                  tables[n].writesLeft.None?
        modifies Handles()`pending, Handles()`writesLeft
      {
        var k := entries[i];
        assert k in entries;
        FreshEntry(db, entries, i);
        var applied := ApplyOverlayToUnderlying(tables[k.table], overlays[k].ov);
        if !applied {
          RollbackAll(entries, i + 1);
          return false;
        }
      }
      ok := true;
    }

    lemma FreshEntry(db: Db, entries: seq<OverlayKey>, i: nat)
      requires Ready(db, entries) && i < |entries|
      ensures forall j :: 0 <= j < |entries| && j != i ==> entries[j].table != entries[i].table
    {
      forall j | 0 <= j < |entries| && j != i ensures entries[j].table != entries[i].table {
        assert entries[j] in entries && entries[i] in entries && entries[j] != entries[i];
      }
    }

    method RollbackAll(entries: seq<OverlayKey>, begun: nat)
      requires begun <= |entries| && forall j :: 0 <= j < begun ==> entries[j].table in tables
      requires forall n :: n in tables && (forall j :: 0 <= j < begun ==> entries[j].table != n) ==>
               tables[n].pending.None?
      modifies Handles()`pending
      ensures Idle()
    {
      for i := 0 to begun
        invariant forall n :: n in tables && (forall j :: i <= j < begun ==> entries[j].table != n) ==>
                  tables[n].pending.None?
        modifies Handles()`pending
      {
        tables[entries[i].table].Rollback();
      }
    }

    /** Phase 2: every applied table commits. */
    method CommitAll(entries: seq<OverlayKey>)
      requires forall j :: 0 <= j < |entries| ==> entries[j].table in tables
      requires forall n :: n in tables && (forall j :: 0 <= j < |entries| ==> entries[j].table != n) ==>
               tables[n].pending.None?
      modifies Handles()`pending, Handles()`committed
      ensures Idle()
      ensures forall n :: n in tables ==> tables[n].committed == old(Due(tables[n]))
    {
      for i := 0 to |entries|
        invariant forall n :: n in tables ==> Due(tables[n]) == old(Due(tables[n]))
        invariant forall n :: n in tables && (forall j :: i <= j < |entries| ==> entries[j].table != n) ==>
                  tables[n].pending.None?
        modifies Handles()`pending, Handles()`committed
      {
        tables[entries[i].table].Commit();
      }
    }

    /** Drops every overlay of the connection. */
    method ReleaseOverlays(db: Db)
      modifies this`overlays
      ensures overlays == Without(old(overlays), db)
    {
      ghost var was := overlays;
      var left := overlays.Keys;
      while left != {}
        invariant left <= was.Keys
        invariant overlays == map k | k in was && (k in left || k.db != db) :: was[k]
        modifies this`overlays
        decreases |left|
      {
        var k :| k in left;
        left := left - {k};
        if k.db == db {
          overlays := overlays - {k};
        }
      }
    }

    /** Both phases: the tables hold what the connection saw, or what they held. */
    method FlushAll(db: Db, entries: seq<OverlayKey>) returns (ok: bool)
      requires Apart() && Idle() && Ready(db, entries)
      requires forall k :: k in entries <==> k in overlays && k.db == db && overlays[k].dirty
      modifies Handles()`pending, Handles()`committed, Handles()`writesLeft
      ensures Idle() && Contents() == if ok then Flushed(old(Abs()), db) else old(Contents())
      ensures (forall n :: n in tables ==> old(tables[n].writesLeft).None?) ==> ok
    {
      ghost var was := Abs();
      ok := ApplyAll(db, entries);
      assert Abs() == was;
      if ok {
        AppliedIsFlushed(db, entries, was);
        CommitAll(entries);
        StoredIs(Flushed(was, db));
      }
    }

    /** The whole transaction at once: every table's contents become the connection's view of it and exactly
        its overlays go, or nothing changes. While storage does not fail, only poison refuses. */
    method CommitConnectionOverlays(db: Db) returns (ok: bool)
      requires Valid()
      modifies this`overlays, Handles()`pending, Handles()`committed, Handles()`writesLeft
      ensures Valid()
      ensures ok ==> Commits(old(Abs()), db, {}) && Abs() == Next(old(Abs()), Commit(db, {}))
      ensures !ok ==> Abs() == old(Abs())
      ensures (forall n :: n in tables ==> old(tables[n].writesLeft).None?) ==> (ok <==> Commits(old(Abs()), db, {}))
    {
      ghost var was := Abs();
      var clean, entries := GatherEntries(db);
      if !clean {
        return false;
      }
      GatheredAreReady(db, entries);
      ok := FlushAndRelease(db, entries);
      if ok {
        CommitIs(was, db);
        StillValid(was, Commit(db, {}));
      }
    }

    /** Both phases, then the connection's overlays go; a failure leaves everything as it was. */
    method FlushAndRelease(db: Db, entries: seq<OverlayKey>) returns (ok: bool)
      requires Apart() && Idle() && Ready(db, entries)
      requires forall k :: k in entries <==> k in overlays && k.db == db && overlays[k].dirty
      modifies this`overlays, Handles()`pending, Handles()`committed, Handles()`writesLeft
      ensures Idle()
      ensures Contents() == if ok then Flushed(old(Abs()), db) else old(Contents())
      ensures overlays == if ok then Without(old(overlays), db) else old(overlays)
      ensures (forall n :: n in tables ==> old(tables[n].writesLeft).None?) ==> ok
    {
      ok := FlushAll(db, entries);
      if ok {
        ghost var stored := Contents();
        ReleaseOverlays(db);
        assert Contents() == stored;
      }
    }

    /** A method that carries out a step leaves the module valid. */
    lemma StillValid(was: State, step: Step)
      requires Sound(was) && Formed(was) && Admissible(was, step) && Apart() && Idle() && Abs() == Next(was, step)
      ensures Valid()
    {
      SoundStep(was, step);
      FormedStep(was, step);
    }

    lemma GatheredAreReady(db: Db, entries: seq<OverlayKey>)
      requires Valid() && Commits(Abs(), db, {})
      requires forall k :: k in entries <==> k in overlays && k.db == db && overlays[k].dirty
      requires forall i, j :: 0 <= i < j < |entries| ==> entries[i] != entries[j]
      ensures Ready(db, entries)
    {
      var st := Abs();
      assert forall n :: n in tables ==> st.stored[n] == Stored(tables[n].schema, tables[n].committed);
      forall k | k in entries ensures k.table in tables && Staged(tables[k.table].schema, overlays[k].ov) {
        assert Resolves(st, k);
      }
    }

    lemma AppliedIsFlushed(db: Db, entries: seq<OverlayKey>, st: State)
      requires st == Abs() && Applied(entries, |entries|)
      requires forall k :: k in entries <==> k in overlays && k.db == db && overlays[k].dirty
      ensures Flushed(st, db).Keys == tables.Keys
      ensures forall n :: n in tables ==> Flushed(st, db)[n] == Stored(tables[n].schema, Due(tables[n]))
    {
      forall n | n in tables ensures Flushed(st, db)[n] == Stored(tables[n].schema, Due(tables[n])) {
        var k := OverlayKey(db, n);
        if k in overlays && overlays[k].dirty {
          var j :| 0 <= j < |entries| && entries[j] == k;
        } else {
          assert forall j :: 0 <= j < |entries| ==> entries[j] in entries && entries[j] != k;
        }
      }
    }

    lemma StoredIs(stored: map<Name, Stored>)
      requires stored.Keys == tables.Keys
      requires forall n :: n in tables ==> stored[n] == Stored(tables[n].schema, tables[n].committed)
      ensures Contents() == stored
    {
    }

    // ---- create, write, roll back ---------------------------------------------------------------

    method CreateTable(n: Name, s: Schema)
      requires Valid()
      modifies this
      ensures Valid() && Abs() == Next(old(Abs()), Create(n, s))
    {
      ghost var was := Abs();
      if n in tables {
        return;
      }
      var under := new UnderlyingTable(s, map[]);
      tables, connected := tables[n := under], connected + {n};
      assert Contents() == was.stored[n := Stored(s, map[])];
      StillValid(was, Create(n, s));
    }

    /** A statement connects to its table, then stages; a poisoned overlay refuses it. */
    method ConnectAndWrite(db: Db, n: Name, staged: Overlay) returns (ok: bool)
      requires Valid() && (n in tables ==> Staged(tables[n].schema, staged))
      modifies this
      ensures Valid() && Abs() == Next(old(Abs()), Write(db, n, staged))
      ensures ok <==> n in tables && Usable(old(Abs()), OverlayKey(db, n))
    {
      ghost var was := Abs();
      var k := OverlayKey(db, n);
      if n !in tables || (k in overlays && overlays[k].poisoned) {
        return false;
      }
      connected := connected + {n};
      overlays := overlays[k := Staging(staged, true, false)];
      StillValid(was, Write(db, n, staged));
      ok := true;
    }

    /** A connection's rollback clears the overlays of the tables it registered, poison and all. */
    method ClearOverlays(db: Db, names: set<Name>)
      requires Valid()
      modifies this`overlays
      ensures Valid() && Abs() == Next(old(Abs()), Clear(db, names))
    {
      ghost var was := Abs();
      ClearEach(db, names);
      StillValid(was, Clear(db, names));
    }

    method ClearEach(db: Db, names: set<Name>)
      modifies this`overlays
      ensures overlays == Cleared(old(overlays), db, names)
    {
      ghost var was := overlays;
      var left := names;
      while left != {}
        invariant left <= names
        invariant overlays == Cleared(was, db, names - left)
        modifies this`overlays
        decreases |left|
      {
        var n :| n in left;
        overlays, left := overlays - {OverlayKey(db, n)}, left - {n};
      }
      assert names - left == names;
    }

    // ---- drop and rename ------------------------------------------------------------------------

    /** DROP TABLE: a foreign overlay with staged rows is poisoned, every other overlay of the table goes. */
    method Destroy(db: Db, n: Name)
      requires Valid()
      modifies this
      ensures Valid() && Abs() == Next(old(Abs()), Drop(db, n))
    {
      ghost var was := Abs();
      if n !in tables {
        return;
      }
      RemoveTable(db, n);
      DropIs(was, db, n);
      StillValid(was, Drop(db, n));
    }

    method RemoveTable(db: Db, n: Name)
      requires Apart() && Idle() && n in tables
      modifies this
      ensures Apart() && Idle() && connected == old(connected) - {n}
      ensures Contents() == old(Contents()) - {n} && overlays == DropOverlays(old(overlays), db, n)
    {
      ghost var was := Contents();
      tables, connected := tables - {n}, connected - {n};
      StoredIs(was - {n});
      DropEach(db, n);
      assert Contents() == was - {n};
    }

    method DropEach(db: Db, n: Name)
      modifies this`overlays
      ensures overlays == DropOverlays(old(overlays), db, n)
    {
      ghost var was := overlays;
      var left := overlays.Keys;
      while left != {}
        invariant left <= was.Keys
        invariant Walked(was, DropOverlays(was, db, n), left, overlays)
        modifies this`overlays
        decreases |left|
      {
        var k :| k in left;
        left := left - {k};
        if k.table == n {
          if k.db != db && overlays[k].dirty {
            overlays := overlays[k := overlays[k].(poisoned := true)];
          } else {
            overlays := overlays - {k};
          }
        }
      }
      AllWalked(was, DropOverlays(was, db, n), overlays);
    }

    /** RENAME TABLE: overlays follow the new name one by one; if any moved, the table is opened under it. */
    method RenameTable(n: Name, m: Name)
      requires Valid()
      modifies this
      ensures Valid() && Abs() == Next(old(Abs()), Rename(n, m))
    {
      ghost var was := Abs();
      if n !in tables || m in tables {
        return;
      }
      RekeyMaps(n, m);
      StillValid(was, Rename(n, m));
    }

    method RekeyMaps(n: Name, m: Name)
      requires Apart() && Idle() && n in tables && m !in tables
      modifies this
      ensures Apart() && Idle() && Abs() == Next(old(Abs()), Rename(n, m))
    {
      ghost var was := Abs();
      MoveHandle(n, m);
      ghost var stored := Contents();
      var moved := MoveEach(n, m);
      connected := if moved > 0 then connected - {n} + {m} else connected - {n};
      assert Contents() == stored;
      RenameIs(was, n, m, moved > 0, State(stored, connected, overlays));
    }

    /** The underlying module moves the table to its new name. */
    method MoveHandle(n: Name, m: Name)
      requires Apart() && Idle() && n in tables && m !in tables
      modifies this`tables
      ensures Apart() && Idle() && Contents() == old(Contents())[m := old(Contents())[n]] - {n}
    {
      ghost var was := Contents();
      tables := tables[m := tables[n]] - {n};
      StoredIs(was[m := was[n]] - {n});
    }

    method MoveEach(n: Name, m: Name) returns (moved: nat)
      requires n != m
      modifies this`overlays
      ensures overlays == RenameOverlays(old(overlays), n, m)
      ensures moved > 0 <==> AnyAt(old(overlays), n)
    {
      ghost var was := overlays;
      moved := 0;
      var left := set k | k in overlays && k.table == n;
      ghost var at := left;
      while left != {}
        invariant left <= at && moved == |at| - |left|
        invariant Moving(was, n, m, left, overlays)
        modifies this`overlays
        decreases |left|
      {
        var k :| k in left;
        var value := overlays[k];
        MoveStep(was, n, m, left, overlays, k);
        overlays := (overlays - {k})[OverlayKey(k.db, m) := value];
        left, moved := left - {k}, moved + 1;
      }
      AllMoved(was, n, m, overlays);
      assert AnyAt(was, n) <==> at != {} by {
        if k :| k in was && k.table == n {
          assert k in at;
        }
      }
    }

    // ---- alter ----------------------------------------------------------------------------------

    /** ALTER TABLE. The issuer's own staged rows are judged before anything moves; after the table beneath
        has changed, the issuer's overlay is carried first, then each other connection's, poisoned where it
        cannot follow. */
    method AlterTable(db: Db, n: Name, change: Change) returns (ok: bool)
      requires Valid() && Admissible(Abs(), Alter(db, n, change)) && Listed(Abs(), Alter(db, n, change))
      modifies this
      ensures Valid() && Abs() == Next(old(Abs()), Alter(db, n, change))
      ensures ok <==> AlterProceeds(old(Abs()), db, n, change)
    {
      ghost var was := Abs();
      ok := JudgeAlter(db, n, change);
      assert Abs() == was;
      if ok {
        CarryOut(db, n, change);
      } else {
        RefusedAlter(was, db, n, change);
      }
    }

    method CarryOut(db: Db, n: Name, change: Change)
      requires Valid() && AlterProceeds(Abs(), db, n, change)
      requires Admissible(Abs(), Alter(db, n, change)) && Listed(Abs(), Alter(db, n, change))
      modifies this
      ensures Valid() && Abs() == Next(old(Abs()), Alter(db, n, change))
    {
      ghost var was := Abs();
      ReadyToAlter(db, n, change);
      AlterIs(was, db, n, change);
      PerformAlter(db, n, change);
      assert Abs() == Next(was, Alter(db, n, change));
      StillValid(was, Alter(db, n, change));
    }

    lemma ReadyToAlter(db: Db, n: Name, change: Change)
      requires Valid() && AlterProceeds(Abs(), db, n, change) && Listed(Abs(), Alter(db, n, change))
      ensures n in tables && PkRekey.Distinct(tables[n].committed, WayOf(change)) &&
              Carriable(n, change, tables[n].schema)
      ensures Abs().stored[n].schema == tables[n].schema
    {
      assert Abs().stored[n] == Stored(tables[n].schema, tables[n].committed);
    }

    method PerformAlter(db: Db, n: Name, change: Change)
      requires Apart() && Idle() && n in tables && PkRekey.Distinct(tables[n].committed, WayOf(change))
      requires Carriable(n, change, tables[n].schema)
      modifies this
      ensures Apart() && Idle() && connected == old(connected)
      ensures Contents() == old(Contents())[n := Altered(old(Contents())[n], change)]
      ensures overlays == CarriedAll(old(overlays), old(tables[n].schema), n, change)
    {
      var s := tables[n].schema;
      ChangeBeneath(n, change);
      ghost var stored := Contents();
      CarryEach(db, n, change, s);
      assert Contents() == stored;
    }

    /** Everything that can refuse an ALTER, before anything changes. */
    method JudgeAlter(db: Db, n: Name, change: Change) returns (ok: bool)
      requires Valid() && Listed(Abs(), Alter(db, n, change))
      ensures ok <==> AlterProceeds(Abs(), db, n, change)
    {
      if n !in tables {
        return false;
      }
      var own, t := OverlayKey(db, n), Stored(tables[n].schema, tables[n].committed);
      assert Contents()[n] == t;
      var rows := t.rows;
      if own in overlays && overlays[own].dirty && !overlays[own].poisoned {
        if change.NewPrimaryKey? {
          return false;
        }
        assert Staged(t.schema, overlays[own].ov);
        var taken := OverlayMigration.ValidateOverlayMigration(t.schema, overlays[own].ov, change.how);
        if !taken {
          return false;
        }
        rows := Merged(t.rows, overlays[own].ov);
      }
      ok := Accepts(t, rows, change);
    }

    /** The table beneath carries its own rows to their new keys. */
    method ChangeBeneath(n: Name, change: Change)
      requires Apart() && Idle() && n in tables && PkRekey.Distinct(tables[n].committed, WayOf(change))
      modifies this`tables
      ensures Apart() && Idle() && n in tables
      ensures Contents() == old(Contents())[n := Altered(old(Contents())[n], change)]
    {
      var rows := OverlayMigration.RekeyRows(tables[n].committed, WayOf(change));
      WayFitsOf(change);
      PkRekey.RekeyedIsKeyed(SchemaAfter(change), tables[n].committed, WayOf(change));
      ReplaceHandle(n, SchemaAfter(change), rows);
    }

    method ReplaceHandle(n: Name, s: Schema, rows: Table)
      requires Apart() && Idle() && n in tables && Keyed(s, rows)
      modifies this`tables
      ensures Apart() && Idle() && n in tables && Contents() == old(Contents())[n := Stored(s, rows)]
    {
      ghost var was := Contents();
      var under := new UnderlyingTable(s, rows);
      tables := tables[n := under];
      StoredIs(was[n := Stored(s, rows)]);
    }

    /** Overlays of the table that can be used are keyed as the table was, and the staging tables list them. */
    ghost predicate Carriable(n: Name, change: Change, s: Schema)
      reads this`overlays
    {
      && (change.InPlace? ==> OverlayMigration.Lists(s, change.how))
      && (forall k :: k in overlays && k.table == n && !overlays[k].poisoned ==> Staged(s, overlays[k].ov))
    }

    /** The issuer's overlay first, then the others, each on its own. */
    method CarryEach(db: Db, n: Name, change: Change, s: Schema)
      requires Carriable(n, change, s)
      modifies this`overlays
      ensures overlays == CarriedAll(old(overlays), s, n, change)
    {
      ghost var was := overlays;
      ghost var goal := CarriedAll(was, s, n, change);
      var own := OverlayKey(db, n);
      var left := overlays.Keys;
      if own in overlays {
        CarryOverlay(own, change, s);
        left := left - {own};
      }
      while left != {}
        invariant left <= was.Keys
        invariant Walked(was, goal, left, overlays)
        modifies this`overlays
        decreases |left|
      {
        var k :| k in left;
        left := left - {k};
        if k.table == n {
          CarryOverlay(k, change, s);
        }
      }
      AllWalked(was, goal, overlays);
    }

    /** Poisoned overlays are skipped and clean ones have nothing to carry. Staged rows that the change cannot
        take, or takes only part of the way, poison the overlay; any other is migrated entry by entry. */
    method CarryOverlay(k: OverlayKey, change: Change, s: Schema)
      requires k in overlays && (!overlays[k].poisoned ==> Staged(s, overlays[k].ov))
      requires change.InPlace? ==> OverlayMigration.Lists(s, change.how)
      modifies this`overlays
      ensures overlays == old(overlays)[k := Carried(s, change, old(overlays)[k])]
    {
      var now := overlays[k];
      if now.dirty && !now.poisoned {
        if change.NewPrimaryKey? {
          now := now.(poisoned := true);
        } else {
          var taken := OverlayMigration.ValidateOverlayMigration(s, now.ov, change.how);
          if !taken {
            now := now.(poisoned := true);
          } else if change.halts(now.ov).Some? {
            now := now.(ov := change.halts(now.ov).value, poisoned := true);
          } else {
            var staging := new PkRekey.StagingTable(s, now.ov);
            OverlayMigration.MigrateOverlayForward(staging, change.how);
            now := now.(ov := staging.slots);
          }
        }
      }
      overlays := overlays[k := now];
    }
  }

  lemma RefusedAlter(st: State, db: Db, n: Name, change: Change)
    requires !AlterProceeds(st, db, n, change)
    ensures Next(st, Alter(db, n, change)) == st
  {
  }

  lemma DropIs(st: State, db: Db, n: Name)
    requires n in st.stored
    ensures Next(st, Drop(db, n)) == State(st.stored - {n}, st.connected - {n}, DropOverlays(st.overlays, db, n))
  {
  }

  lemma CommitIs(st: State, db: Db)
    requires Commits(st, db, {})
    ensures Next(st, Commit(db, {})) == State(Flushed(st, db), st.connected, Without(st.overlays, db))
  {
  }

  lemma RenameIs(was: State, n: Name, m: Name, moved: bool, now: State)
    requires n in was.stored && m !in was.stored && now.stored == was.stored[m := was.stored[n]] - {n}
    requires now.connected == if moved then was.connected - {n} + {m} else was.connected - {n}
    requires now.overlays == RenameOverlays(was.overlays, n, m)
    requires moved <==> AnyAt(was.overlays, n)
    ensures now == Next(was, Rename(n, m))
  {
  }

  ghost predicate AnyAt(overlays: map<OverlayKey, Staging>, n: Name) {
    exists k :: k in overlays && k.table == n
  }

  /** `now` is `goal` away from the keys left to visit, and as it was on them. */
  ghost predicate Walked(was: map<OverlayKey, Staging>, goal: map<OverlayKey, Staging>, left: set<OverlayKey>,
                         now: map<OverlayKey, Staging>) {
    && (forall k :: k in left ==> k in was && k in now && now[k] == was[k])
    && (forall k :: k !in left ==> (k in now <==> k in goal) && (k in now && k in goal ==> now[k] == goal[k]))
  }

  lemma AllWalked(was: map<OverlayKey, Staging>, goal: map<OverlayKey, Staging>, now: map<OverlayKey, Staging>)
    requires Walked(was, goal, {}, now)
    ensures now == goal
  {
    forall k ensures k in now <==> k in goal {
      assert k !in {};
    }
  }

  /** A rename with the overlays in `left` still to move. */
  ghost predicate Moving(was: map<OverlayKey, Staging>, n: Name, m: Name, left: set<OverlayKey>, now: map<OverlayKey,
                         Staging>) {
    && (forall k :: k in left ==> k in was && k.table == n)
    && (forall k :: k in now <==> if k.table == n then k in left
                                  else if k.table == m && OverlayKey(k.db, n) in was &&
                                      OverlayKey(k.db, n) !in left then true
                                  else k in was)
    && (forall k :: k in now ==> now[k] == if k.table == m && OverlayKey(k.db, n) in was && OverlayKey(k.db, n) !in left
                                           then was[OverlayKey(k.db, n)] else was[k])
  }

  lemma MoveStep(was: map<OverlayKey, Staging>, n: Name, m: Name, left: set<OverlayKey>, now: map<OverlayKey,
                 Staging>, k: OverlayKey)
    requires n != m && Moving(was, n, m, left, now) && k in left
    ensures k in now && Moving(was, n, m, left - {k}, (now - {k})[OverlayKey(k.db, m) := now[k]])
  {
  }

  lemma AllMoved(was: map<OverlayKey, Staging>, n: Name, m: Name, now: map<OverlayKey, Staging>)
    requires n != m && Moving(was, n, m, {}, now)
    ensures now == RenameOverlays(was, n, m)
  {
    forall k ensures k in now <==> k in RenamedKeys(was, n, m) {
      if k in now {
        var j := if k.table == m && OverlayKey(k.db, n) in was then OverlayKey(k.db, n) else k;
        assert j in was && TableLifecycle.Moved(j, n, m) == k;
      }
    }
  }
}
