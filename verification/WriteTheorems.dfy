/** The staged write agrees with the plain one, exactly when, and what every write keeps. */
module WriteTheorems {
  import opened Rows
  import opened MergedView
  import opened WriteRules

  // ---- the verdict ------------------------------------------------------------------------------

  /** Evicted rows are rows of the table outside the writer's own keys. */
  ghost predicate Evictable(s: Schema, t: Table, self: set<Key>, rows: seq<Row>) {
    forall r :: r in rows ==> KeyOf(s, r) in t && t[KeyOf(s, r)] == r && KeyOf(s, r) !in self
  }

  lemma {:induction false} JudgeEvicts(s: Schema, i: nat, t: Table, row: Row, self: set<Key>, or: Option<Action>)
    requires i <= |s.uniques| && Keyed(s, t)
    ensures Evictable(s, t, self, Judge(s, i, t, row, self, or).evicted)
    decreases |s.uniques| - i
  {
    if i < |s.uniques| {
      var hit := Conflicting(s, s.uniques[i], t, row, self);
      if hit == {} {
        JudgeEvicts(s, i + 1, t, row, self, or);
      } else {
        forall k | k in hit { JudgeEvicts(s, i + 1, t - {k}, row, self, or); }
      }
    }
  }

  /** Nothing `row` clashes with is left once the verdict is clear. */
  ghost predicate Unopposed(s: Schema, i: nat, t: Table, row: Row, self: set<Key>) {
    forall j, k :: i <= j < |s.uniques| && k in t && k !in self ==> !Clash(s, s.uniques[j], row, t[k])
  }

  lemma {:induction false} JudgeClears(s: Schema, i: nat, t: Table, row: Row, self: set<Key>, or: Option<Action>)
    requires i <= |s.uniques| && Keyed(s, t) && Satisfies(s, t)
    ensures var v := Judge(s, i, t, row, self, or);
            v.Clear? ==> Unopposed(s, i, t - KeysOf(s, v.evicted), row, self)
    decreases |s.uniques| - i
  {
    if i < |s.uniques| {
      if Conflicting(s, s.uniques[i], t, row, self) == {} {
        JudgePasses(s, i, t, row, self, or);
        JudgeClears(s, i + 1, t, row, self, or);
        var v := Judge(s, i + 1, t, row, self, or);
        if v.Clear? {
          UnopposedHere(s, i, t, row, self, KeysOf(s, v.evicted));
        }
      } else if Judge(s, i, t, row, self, or).Clear? {
        var k := JudgedConflict(s, i, t, row, self, or);
        JudgeClearsEvicting(s, i, t, row, self, or, k);
      }
    }
  }

  /** A constraint with nothing in the way has no say. */
  lemma JudgePasses(s: Schema, i: nat, t: Table, row: Row, self: set<Key>, or: Option<Action>)
    requires i < |s.uniques| && Conflicting(s, s.uniques[i], t, row, self) == {}
    ensures Judge(s, i, t, row, self, or) == Judge(s, i + 1, t, row, self, or)
  {
  }

  /** The conflict a clear verdict evicted first. */
  lemma JudgedConflict(s: Schema, i: nat, t: Table, row: Row, self: set<Key>, or: Option<Action>) returns (k: Key)
    requires i < |s.uniques| && Judge(s, i, t, row, self, or).Clear? && Conflicting(s, s.uniques[i], t, row, self) != {}
    ensures k in Conflicting(s, s.uniques[i], t, row, self)
    ensures Judge(s, i, t, row, self, or) == Prefixed([t[k]], Judge(s, i + 1, t - {k}, row, self, or))
  {
    var hit := Conflicting(s, s.uniques[i], t, row, self);
    k :| k in hit && Judge(s, i, t, row, self, or) == Prefixed([t[k]], Judge(s, i + 1, t - {k}, row, self, or));
  }

  lemma UnopposedHere(s: Schema, i: nat, t: Table, row: Row, self: set<Key>, gone: set<Key>)
    requires i < |s.uniques| && Conflicting(s, s.uniques[i], t, row, self) == {} &&
             Unopposed(s, i + 1, t - gone, row, self)
    ensures Unopposed(s, i, t - gone, row, self)
  {
    var u := t - gone;
    forall h, j | i <= h < |s.uniques| && j in u && j !in self ensures !Clash(s, s.uniques[h], row, u[j]) {
      assert j !in Conflicting(s, s.uniques[i], t, row, self);
    }
  }

  lemma {:induction false} JudgeClearsEvicting(s: Schema, i: nat, t: Table, row: Row, self: set<Key>,
                                               or: Option<Action>, k: Key)
    requires i < |s.uniques| && Keyed(s, t) && Satisfies(s, t)
    requires k in Conflicting(s, s.uniques[i], t, row, self)
    ensures var rest := Judge(s, i + 1, t - {k}, row, self, or);
            rest.Clear? ==> Unopposed(s, i, t - KeysOf(s, [t[k]] + rest.evicted), row, self)
    decreases |s.uniques| - i, 0
  {
    var rest := Judge(s, i + 1, t - {k}, row, self, or);
    if rest.Clear? {
      var gone := KeysOf(s, rest.evicted);
      assert Unopposed(s, i + 1, t - {k} - gone, row, self) by {
        SubtableSatisfies(s, t, {k});
        JudgeClears(s, i + 1, t - {k}, row, self, or);
      }
      assert KeysOf(s, [t[k]] + rest.evicted) == {k} + gone by {
        KeysOfPrefixed(s, t[k], rest.evicted);
      }
      UnopposedFromNext(s, i, t, row, self, k, gone);
    }
  }

  lemma UnopposedFromNext(s: Schema, i: nat, t: Table, row: Row, self: set<Key>, k: Key, gone: set<Key>)
    requires i < |s.uniques| && Satisfies(s, t)
    requires k in Conflicting(s, s.uniques[i], t, row, self)
    requires Unopposed(s, i + 1, t - {k} - gone, row, self)
    ensures Unopposed(s, i, t - ({k} + gone), row, self)
  {
    var u := t - ({k} + gone);
    forall h, j | i <= h < |s.uniques| && j in u && j !in self ensures !Clash(s, s.uniques[h], row, u[j]) {
      if h == i {
        if Clash(s, s.uniques[i], row, u[j]) {
          AtMostOneConflict(s, i, t, row, self, j, k);
        }
      } else {
        assert j in t - {k} - gone;
      }
    }
  }

  lemma KeysOfPrefixed(s: Schema, r: Row, rows: seq<Row>)
    ensures KeysOf(s, [r] + rows) == {KeyOf(s, r)} + KeysOf(s, rows)
  {
    var all := [r] + rows;
    assert forall i :: 0 <= i < |rows| ==> all[i + 1] == rows[i];
    forall k | k in KeysOf(s, rows) ensures k in KeysOf(s, all) {
      var i :| 0 <= i < |rows| && KeyOf(s, rows[i]) == k;
      assert KeyOf(s, all[i + 1]) == k;
    }
    assert KeyOf(s, all[0]) == KeyOf(s, r);
  }

  /** Fewer rows means fewer conflicts. */
  lemma SubtableSatisfies(s: Schema, t: Table, gone: set<Key>)
    requires Satisfies(s, t)
    ensures Satisfies(s, t - gone)
  {
    forall i, j, k | 0 <= i < |s.uniques| && j in t - gone && k in t - gone && j != k
      ensures !Clash(s, s.uniques[i], (t - gone)[j], (t - gone)[k])
    {
      assert !Clash(s, s.uniques[i], t[j], t[k]);
    }
  }

  // ---- evictions --------------------------------------------------------------------------------

  lemma EvictHides(s: Schema, base: Table, ov: Overlay, row: Row)
    requires WellFormed(s) && Staged(s, ov)
    ensures Staged(s, Evict(s, ov, row))
    ensures Merged(base, Evict(s, ov, row)) == Merged(base, ov) - {KeyOf(s, row)}
  {
    MarkerRowKeepsKey(s, PkOf(s, row));
    MarkerHides(base, ov, KeyOf(s, row), MarkerRow(s, PkOf(s, row)));
  }

  lemma {:induction false} EvictAllHides(s: Schema, base: Table, ov: Overlay, rows: seq<Row>)
    requires WellFormed(s) && Staged(s, ov)
    ensures Staged(s, EvictAll(s, ov, rows))
    ensures Merged(base, EvictAll(s, ov, rows)) == Merged(base, ov) - KeysOf(s, rows)
    decreases |rows|
  {
    var m := Merged(base, ov);
    if rows == [] {
      assert m - {} == m;
    } else {
      EvictHides(s, base, ov, rows[0]);
      EvictAllHides(s, base, Evict(s, ov, rows[0]), rows[1..]);
      assert KeysOf(s, rows) == {KeyOf(s, rows[0])} + KeysOf(s, rows[1..]) by {
        KeysOfPrefixed(s, rows[0], rows[1..]);
        assert [rows[0]] + rows[1..] == rows;
      }
      GoneTwice(m, KeyOf(s, rows[0]), KeysOf(s, rows[1..]));
    }
  }

  lemma GoneTwice(m: Table, k: Key, gone: set<Key>)
    ensures (m - {k}) - gone == m - ({k} + gone)
  {
  }

  lemma {:induction false} EvictAllElsewhere(s: Schema, ov: Overlay, rows: seq<Row>, k: Key)
    requires k !in KeysOf(s, rows)
    ensures k in EvictAll(s, ov, rows) <==> k in ov
    ensures k in ov ==> EvictAll(s, ov, rows)[k] == ov[k]
    decreases |rows|
  {
    if rows != [] {
      assert [rows[0]] + rows[1..] == rows;
      KeysOfPrefixed(s, rows[0], rows[1..]);
      EvictAllElsewhere(s, Evict(s, ov, rows[0]), rows[1..], k);
    }
  }

  // ---- when a staged write means the plain write ------------------------------------------------

  /** A live staged row sits at the key a moving row aims for, and the write may not displace it. The
      layer leaves this conflict to the staging table, which meets it after the old slot is a marker. */
  predicate DeferredConflict(s: Schema, ov: Overlay, op: Op, or: Option<Action>) {
    && op.Update? && Identity(s, op.target) != KeyOf(s, op.row)
    && KeyOf(s, op.row) in ov && ov[KeyOf(s, op.row)].Live? && !PkAction(s, or).Replace?
  }

  /** A committed row, seen through no staged entry, already stops the write at its key. */
  predicate StoppedByKey(s: Schema, base: Table, ov: Overlay, op: Op, or: Option<Action>) {
    match op
    case Delete(_) => true
    case Insert(row) =>
      var k := KeyOf(s, row);
      !PkAction(s, or).Replace? && (CommittedAt(base, ov, k).Some? || (k in ov && ov[k].Live?))
    case Update(target, row) =>
      var n := KeyOf(s, row);
      Identity(s, target) != n && !PkAction(s, or).Replace? && CommittedAt(base, ov, n).Some?
  }

  function SelfKeys(s: Schema, op: Op): set<Key> {
    match op
    case Delete(target) => {Identity(s, target)}
    case Insert(row) => {KeyOf(s, row)}
    case Update(target, row) => {Identity(s, target), KeyOf(s, row)}
  }

  /** The writes that leave the connection seeing something the plain table would not hold: one
      constraint evicts and a later one stops the write, or a deferred key conflict surfaces after
      the old slot (or an evicted row) is already gone. */
  ghost predicate Diverges(s: Schema, base: Table, ov: Overlay, op: Op, or: Option<Action>) {
    && !StoppedByKey(s, base, ov, op, or)
    && var m := Merged(base, ov);
       var v := Judge(s, 0, m, op.row, SelfKeys(s, op), or);
       if v.Stop? then v.evicted != []
       else DeferredConflict(s, ov, op, or) && (Identity(s, op.target) in m || v.evicted != [])
  }

  /** Nothing a same-key write leaves unchanged can bring a new conflict. */
  lemma {:induction false} UnchangedColumnsAreClear(s: Schema, i: nat, m: Table, k: Key, row: Row, or: Option<Action>)
    requires WellFormed(s) && Satisfies(s, m) && i <= |s.uniques|
    requires k in m && !UniqueColumnsChanged(s, m[k], row)
    ensures Judge(s, i, m, row, {k}, or) == Clear([])
    decreases |s.uniques| - i
  {
    if i < |s.uniques| {
      var uc := s.uniques[i];
      assert !RelevantChange(uc, m[k], row);
      assert Applies(uc, row) ==> Applies(uc, m[k]);
      forall j | j in m && j != k ensures !Clash(s, uc, row, m[j]) {
        assert !Clash(s, uc, m[k], m[j]);
      }
      assert Conflicting(s, uc, m, row, {k}) == {};
      UnchangedColumnsAreClear(s, i + 1, m, k, row, or);
    }
  }

  lemma NoEvictionNoChange(s: Schema, m: Table, self: set<Key>, rows: seq<Row>)
    requires Evictable(s, m, self, rows)
    ensures m - KeysOf(s, rows) == m <==> rows == []
  {
    if rows != [] {
      assert rows[0] in rows;
      assert KeyOf(s, rows[0]) in KeysOf(s, rows);
      assert KeyOf(s, rows[0]) !in m - KeysOf(s, rows);
    }
  }

  /** Evictions followed by the row itself, seen through the merge. */
  lemma PlacedIsMerged(s: Schema, base: Table, ov: Overlay, rows: seq<Row>, row: Row)
    requires WellFormed(s) && Staged(s, ov)
    ensures var placed := EvictAll(s, ov, rows)[KeyOf(s, row) := Live(row)];
            Staged(s, placed) && Merged(base, placed) == (Merged(base, ov) - KeysOf(s, rows))[KeyOf(s, row) := row]
  {
    EvictAllHides(s, base, ov, rows);
    LiveShows(base, EvictAll(s, ov, rows), KeyOf(s, row), row);
  }

  ghost predicate Agrees(s: Schema, base: Table, ov: Overlay, op: Op, or: Option<Action>) {
    Merged(base, Stage(s, base, ov, op, or).0) == Plain(s, Merged(base, ov), op, or).0
  }

  lemma DeleteAgrees(s: Schema, base: Table, ov: Overlay, target: Pk)
    ensures Merged(base, StageDelete(s, ov, target).0) == Merged(base, ov) - {Identity(s, target)}
  {
    var k := Identity(s, target);
    if k in ov {
      MarkerHides(base, ov, k, ov[k].row);
    } else {
      MarkerHides(base, ov, k, MarkerRow(s, target));
    }
  }

  lemma InsertAgrees(s: Schema, base: Table, ov: Overlay, row: Row, or: Option<Action>)
    requires WellFormed(s) && Keyed(s, base) && Staged(s, ov)
    ensures Agrees(s, base, ov, Insert(row), or) <==> !Diverges(s, base, ov, Insert(row), or)
  {
    var m, k := Merged(base, ov), KeyOf(s, row);
    if !StoppedByKey(s, base, ov, Insert(row), or) {
      var v := Judge(s, 0, m, row, {k}, or);
      MergedIsKeyed(s, base, ov);
      JudgeEvicts(s, 0, m, row, {k}, or);
      InsertShows(s, base, ov, row, or);
      if v.Stop? {
        NoEvictionNoChange(s, m, {k}, v.evicted);
      }
    }
  }

  /** What an insert that no key stops leaves the connection and the plain table holding. */
  lemma InsertShows(s: Schema, base: Table, ov: Overlay, row: Row, or: Option<Action>)
    requires WellFormed(s) && Staged(s, ov) && !StoppedByKey(s, base, ov, Insert(row), or)
    ensures var m, k := Merged(base, ov), KeyOf(s, row);
            var v := Judge(s, 0, m, row, {k}, or);
            var left := m - KeysOf(s, v.evicted);
            && Merged(base, Stage(s, base, ov, Insert(row), or).0) == (if v.Clear? then left[k := row] else left)
            && Plain(s, m, Insert(row), or).0 == (if v.Clear? then left[k := row] else m)
  {
    var m, k := Merged(base, ov), KeyOf(s, row);
    var v := Judge(s, 0, m, row, {k}, or);
    EvictAllHides(s, base, ov, v.evicted);
    PlacedIsMerged(s, base, ov, v.evicted, row);
    DropThenPut(m, k, KeysOf(s, v.evicted), row);
  }

  lemma DropThenPut(m: Table, k: Key, gone: set<Key>, row: Row)
    ensures (m - {k} - gone)[k := row] == (m - gone)[k := row]
    ensures m - {k} - gone == m - gone - {k}
    ensures m - {} == m
  {
  }

  lemma UnchangedInPlaceAgrees(s: Schema, base: Table, ov: Overlay, target: Pk, row: Row, or: Option<Action>)
    requires WellFormed(s) && Keyed(s, base) && Staged(s, ov) && Satisfies(s, Merged(base, ov))
    requires Identity(s, target) == KeyOf(s, row)
    requires KeyOf(s, row) in ov && ov[KeyOf(s, row)].Live? && !UniqueColumnsChanged(s, ov[KeyOf(s, row)].row, row)
    ensures Agrees(s, base, ov, Update(target, row), or) && !Diverges(s, base, ov, Update(target, row), or)
  {
    var m, k := Merged(base, ov), KeyOf(s, row);
    assert SelfKeys(s, Update(target, row)) == {k};
    assert Judge(s, 0, m, row, {k}, or) == Clear([]) by { UnchangedColumnsAreClear(s, 0, m, k, row, or); }
    LiveShows(base, ov, k, row);
    assert KeysOf(s, []) == {};
    DropThenPut(m, k, {}, row);
  }

  lemma JudgedInPlaceAgrees(s: Schema, base: Table, ov: Overlay, target: Pk, row: Row, or: Option<Action>)
    requires WellFormed(s) && Keyed(s, base) && Staged(s, ov)
    requires Identity(s, target) == KeyOf(s, row)
    requires !(KeyOf(s, row) in ov && ov[KeyOf(s, row)].Live? && !UniqueColumnsChanged(s, ov[KeyOf(s, row)].row, row))
    ensures Agrees(s, base, ov, Update(target, row), or) <==> !Diverges(s, base, ov, Update(target, row), or)
  {
    var m, k := Merged(base, ov), KeyOf(s, row);
    assert SelfKeys(s, Update(target, row)) == {k};
    var v := Judge(s, 0, m, row, {k}, or);
    assert Evictable(s, m, {k}, v.evicted) by {
      MergedIsKeyed(s, base, ov);
      JudgeEvicts(s, 0, m, row, {k}, or);
    }
    if v.Stop? {
      NoEvictionNoChange(s, m, {k}, v.evicted);
      EvictAllHides(s, base, ov, v.evicted);
    } else {
      PlacedIsMerged(s, base, ov, v.evicted, row);
      DropThenPut(m, k, KeysOf(s, v.evicted), row);
    }
  }

  /** The old slot marked, the new row placed. */
  lemma MovedIsMerged(s: Schema, base: Table, ov: Overlay, target: Pk, row: Row)
    requires WellFormed(s) && Staged(s, ov) && Identity(s, target) != KeyOf(s, row)
    ensures var marked := ov[Identity(s, target) := Marker(MarkerRow(s, target))];
            && Staged(s, marked) && Staged(s, marked[KeyOf(s, row) := Live(row)])
            && Merged(base, marked) == Merged(base, ov) - {Identity(s, target)}
            && Merged(base, marked[KeyOf(s, row) := Live(row)]) ==
               (Merged(base, ov) - {Identity(s, target)})[KeyOf(s, row) := row]
  {
    MarkerRowKeepsKey(s, target);
    var marked := ov[Identity(s, target) := Marker(MarkerRow(s, target))];
    MarkerHides(base, ov, Identity(s, target), MarkerRow(s, target));
    LiveShows(base, marked, KeyOf(s, row), row);
  }

  lemma MoveAgrees(s: Schema, base: Table, ov: Overlay, target: Pk, row: Row, or: Option<Action>)
    requires WellFormed(s) && Keyed(s, base) && Staged(s, ov)
    requires Identity(s, target) != KeyOf(s, row)
    ensures Agrees(s, base, ov, Update(target, row), or) <==> !Diverges(s, base, ov, Update(target, row), or)
  {
    var m, k, n := Merged(base, ov), Identity(s, target), KeyOf(s, row);
    if !StoppedByKey(s, base, ov, Update(target, row), or) {
      var v := Judge(s, 0, m, row, {k, n}, or);
      MergedIsKeyed(s, base, ov);
      JudgeEvicts(s, 0, m, row, {k, n}, or);
      if v.Clear? {
        MoveClearAgrees(s, base, ov, target, row, or, v.evicted);
      } else {
        NoEvictionNoChange(s, m, {k, n}, v.evicted);
        EvictAllHides(s, base, ov, v.evicted);
      }
    }
  }

  /** What a move that no constraint stops leaves staged. */
  lemma MoveStages(s: Schema, base: Table, ov: Overlay, target: Pk, row: Row, or: Option<Action>, evicted: seq<Row>)
    requires Identity(s, target) != KeyOf(s, row)
    requires !StoppedByKey(s, base, ov, Update(target, row), or)
    requires Judge(s, 0, Merged(base, ov), row, {Identity(s, target), KeyOf(s, row)}, or) == Clear(evicted)
    requires KeyOf(s, row) !in KeysOf(s, evicted)
    ensures var marked := EvictAll(s, ov, evicted)[Identity(s, target) := Marker(MarkerRow(s, target))];
            Stage(s, base, ov, Update(target, row), or).0 ==
            if DeferredConflict(s, ov, Update(target, row), or) then marked else marked[KeyOf(s, row) := Live(row)]
  {
    EvictAllElsewhere(s, ov, evicted, KeyOf(s, row));
  }

  lemma MoveClearAgrees(s: Schema, base: Table, ov: Overlay, target: Pk, row: Row, or: Option<Action>,
                        evicted: seq<Row>)
    requires WellFormed(s) && Keyed(s, base) && Staged(s, ov)
    requires Identity(s, target) != KeyOf(s, row)
    requires !StoppedByKey(s, base, ov, Update(target, row), or)
    requires Judge(s, 0, Merged(base, ov), row, {Identity(s, target), KeyOf(s, row)}, or) == Clear(evicted)
    requires Evictable(s, Merged(base, ov), {Identity(s, target), KeyOf(s, row)}, evicted)
    ensures Agrees(s, base, ov, Update(target, row), or) <==> !Diverges(s, base, ov, Update(target, row), or)
  {
    var m, k, n := Merged(base, ov), Identity(s, target), KeyOf(s, row);
    MoveShows(s, base, ov, target, row, or, evicted);
    PlainMove(s, base, ov, target, row, or, evicted);
    NothingLost(s, m, {k, n}, k, evicted);
  }

  /** What the plain table holds after the same move. */
  lemma PlainMove(s: Schema, base: Table, ov: Overlay, target: Pk, row: Row, or: Option<Action>, evicted: seq<Row>)
    requires Identity(s, target) != KeyOf(s, row)
    requires !StoppedByKey(s, base, ov, Update(target, row), or)
    requires Judge(s, 0, Merged(base, ov), row, {Identity(s, target), KeyOf(s, row)}, or) == Clear(evicted)
    ensures var m := Merged(base, ov);
            Plain(s, m, Update(target, row), or).0 ==
            if DeferredConflict(s, ov, Update(target, row), or) then m
            else (m - {Identity(s, target)} - KeysOf(s, evicted))[KeyOf(s, row) := row]
  {
  }

  /** What a cleared move leaves the connection seeing: the old row and the evicted ones gone, and the row at its new
      key unless a live staged row there keeps it out. */
  lemma MoveShows(s: Schema, base: Table, ov: Overlay, target: Pk, row: Row, or: Option<Action>, evicted: seq<Row>)
    requires WellFormed(s) && Keyed(s, base) && Staged(s, ov)
    requires Identity(s, target) != KeyOf(s, row)
    requires !StoppedByKey(s, base, ov, Update(target, row), or)
    requires Judge(s, 0, Merged(base, ov), row, {Identity(s, target), KeyOf(s, row)}, or) == Clear(evicted)
    requires Evictable(s, Merged(base, ov), {Identity(s, target), KeyOf(s, row)}, evicted)
    ensures var left := Merged(base, ov) - {Identity(s, target)} - KeysOf(s, evicted);
            Merged(base, Stage(s, base, ov, Update(target, row), or).0) ==
            if DeferredConflict(s, ov, Update(target, row), or) then left else left[KeyOf(s, row) := row]
  {
    var m, k := Merged(base, ov), Identity(s, target);
    var ov' := EvictAll(s, ov, evicted);
    assert Staged(s, ov') && Merged(base, ov') == m - KeysOf(s, evicted) by { EvictAllHides(s, base, ov, evicted); }
    MoveStages(s, base, ov, target, row, or, evicted);
    MovedIsMerged(s, base, ov', target, row);
    DropThenPut(m, k, KeysOf(s, evicted), row);
  }

  lemma NothingLost(s: Schema, m: Table, self: set<Key>, k: Key, rows: seq<Row>)
    requires Evictable(s, m, self, rows)
    ensures m - {k} - KeysOf(s, rows) == m <==> k !in m && rows == []
  {
    NoEvictionNoChange(s, m, self, rows);
    if k in m {
      assert k !in m - {k} - KeysOf(s, rows);
    } else {
      assert m - {k} == m;
    }
  }

  /** A staged write shows the connection what the plain table would hold, if and only if it is not one
      of the writes named by `Diverges`. */
  lemma StageMeansPlainExactly(s: Schema, base: Table, ov: Overlay, op: Op, or: Option<Action>)
    requires WellFormed(s) && Keyed(s, base) && Staged(s, ov) && Satisfies(s, Merged(base, ov))
    ensures Merged(base, Stage(s, base, ov, op, or).0) == Plain(s, Merged(base, ov), op, or).0
       <==> !Diverges(s, base, ov, op, or)
  {
    match op
    case Delete(target) => DeleteAgrees(s, base, ov, target);
    case Insert(row) => InsertAgrees(s, base, ov, row, or);
    case Update(target, row) =>
      if Identity(s, target) == KeyOf(s, row) {
        if KeyOf(s, row) in ov && ov[KeyOf(s, row)].Live? && !UniqueColumnsChanged(s, ov[KeyOf(s, row)].row, row) {
          UnchangedInPlaceAgrees(s, base, ov, target, row, or);
        } else {
          JudgedInPlaceAgrees(s, base, ov, target, row, or);
        }
      } else {
        MoveAgrees(s, base, ov, target, row, or);
      }
  }

  // ---- what every write keeps -------------------------------------------------------------------

  lemma PutSatisfies(s: Schema, t: Table, n: Key, row: Row)
    requires Satisfies(s, t) && Unopposed(s, 0, t, row, {n})
    ensures Satisfies(s, t[n := row])
  {
    var u := t[n := row];
    forall i, j, k | 0 <= i < |s.uniques| && j in u && k in u && j != k ensures !Clash(s, s.uniques[i], u[j], u[k]) {
      if j == n {
        assert !Clash(s, s.uniques[i], row, t[k]);
      } else if k == n {
        assert !Clash(s, s.uniques[i], row, t[j]);
      } else {
        assert !Clash(s, s.uniques[i], t[j], t[k]);
      }
    }
  }

  lemma SettledSatisfies(s: Schema, m: Table, row: Row, self: set<Key>, or: Option<Action>)
    requires Keyed(s, m) && Satisfies(s, m) && KeyOf(s, row) in self
    requires Judge(s, 0, m, row, self, or).Clear?
    ensures var gone := KeysOf(s, Judge(s, 0, m, row, self, or).evicted);
            Satisfies(s, (m - gone - (self - {KeyOf(s, row)}))[KeyOf(s, row) := row])
  {
    var n, gone := KeyOf(s, row), KeysOf(s, Judge(s, 0, m, row, self, or).evicted);
    var t := m - gone - (self - {n});
    assert Satisfies(s, t) by {
      SubtableSatisfies(s, m, gone);
      SubtableSatisfies(s, m - gone, self - {n});
    }
    assert Unopposed(s, 0, m - gone, row, self) by { JudgeClears(s, 0, m, row, self, or); }
    forall j, k | 0 <= j < |s.uniques| && k in t && k !in {n} ensures !Clash(s, s.uniques[j], row, t[k]) {
      assert k in m - gone && k !in self;
    }
    PutSatisfies(s, t, n, row);
  }

  ghost predicate KeepsAll(s: Schema, base: Table, ov: Overlay) {
    Staged(s, ov) && Satisfies(s, Merged(base, ov))
  }

  lemma DeleteKeeps(s: Schema, base: Table, ov: Overlay, target: Pk)
    requires WellFormed(s) && KeepsAll(s, base, ov)
    ensures KeepsAll(s, base, StageDelete(s, ov, target).0)
  {
    MarkerRowKeepsKey(s, target);
    DeleteAgrees(s, base, ov, target);
    SubtableSatisfies(s, Merged(base, ov), {Identity(s, target)});
  }

  lemma EvictionsKeep(s: Schema, base: Table, ov: Overlay, rows: seq<Row>)
    requires WellFormed(s) && KeepsAll(s, base, ov)
    ensures KeepsAll(s, base, EvictAll(s, ov, rows))
  {
    EvictAllHides(s, base, ov, rows);
    SubtableSatisfies(s, Merged(base, ov), KeysOf(s, rows));
  }

  lemma PlacedKeeps(s: Schema, base: Table, ov: Overlay, row: Row, or: Option<Action>)
    requires WellFormed(s) && Keyed(s, base) && KeepsAll(s, base, ov)
    requires Judge(s, 0, Merged(base, ov), row, {KeyOf(s, row)}, or).Clear?
    ensures KeepsAll(s, base,
            EvictAll(s, ov,
            Judge(s, 0, Merged(base, ov), row, {KeyOf(s, row)}, or).evicted)[KeyOf(s, row) := Live(row)])
  {
    var m, k := Merged(base, ov), KeyOf(s, row);
    var evicted := Judge(s, 0, m, row, {k}, or).evicted;
    MergedIsKeyed(s, base, ov);
    SettledSatisfies(s, m, row, {k}, or);
    PlacedIsMerged(s, base, ov, evicted, row);
    assert {k} - {k} == {};
    DropThenPut(m - KeysOf(s, evicted), k, {}, row);
  }

  lemma MoveKeeps(s: Schema, base: Table, ov: Overlay, target: Pk, row: Row, or: Option<Action>)
    requires WellFormed(s) && Keyed(s, base) && KeepsAll(s, base, ov)
    requires Identity(s, target) != KeyOf(s, row)
    ensures KeepsAll(s, base, Stage(s, base, ov, Update(target, row), or).0)
  {
    var m, k, n := Merged(base, ov), Identity(s, target), KeyOf(s, row);
    if !StoppedByKey(s, base, ov, Update(target, row), or) {
      var v := Judge(s, 0, m, row, {k, n}, or);
      EvictionsKeep(s, base, ov, v.evicted);
      if v.Clear? {
        MoveClearKeeps(s, base, ov, target, row, or, v.evicted);
      }
    }
  }

  lemma MoveClearKeeps(s: Schema, base: Table, ov: Overlay, target: Pk, row: Row, or: Option<Action>, evicted: seq<Row>)
    requires WellFormed(s) && Keyed(s, base) && KeepsAll(s, base, ov)
    requires Identity(s, target) != KeyOf(s, row)
    requires !StoppedByKey(s, base, ov, Update(target, row), or)
    requires Judge(s, 0, Merged(base, ov), row, {Identity(s, target), KeyOf(s, row)}, or) == Clear(evicted)
    ensures KeepsAll(s, base, Stage(s, base, ov, Update(target, row), or).0)
  {
    var m, k, n := Merged(base, ov), Identity(s, target), KeyOf(s, row);
    var gone := KeysOf(s, evicted);
    assert Keyed(s, m) && Evictable(s, m, {k, n}, evicted) by {
      MergedIsKeyed(s, base, ov);
      JudgeEvicts(s, 0, m, row, {k, n}, or);
    }
    MoveStages(s, base, ov, target, row, or, evicted);
    assert Staged(s, EvictAll(s, ov, evicted)) && Merged(base, EvictAll(s, ov, evicted)) == m - gone by {
      EvictAllHides(s, base, ov, evicted);
    }
    MovedIsMerged(s, base, EvictAll(s, ov, evicted), target, row);
    assert Satisfies(s, (m - gone - {k})[n := row]) by {
      SettledSatisfies(s, m, row, {k, n}, or);
      assert {k, n} - {n} == {k};
    }
    assert Satisfies(s, m - gone - {k}) by {
      SubtableSatisfies(s, m, gone);
      SubtableSatisfies(s, m - gone, {k});
    }
  }

  /** From a view that satisfies every UNIQUE constraint, every write, refused ones included, leaves one
      that does, and every staged entry stays at its own key. */
  lemma StageKeepsUniques(s: Schema, base: Table, ov: Overlay, op: Op, or: Option<Action>)
    requires WellFormed(s) && Keyed(s, base) && Staged(s, ov) && Satisfies(s, Merged(base, ov))
    ensures Staged(s, Stage(s, base, ov, op, or).0)
    ensures Satisfies(s, Merged(base, Stage(s, base, ov, op, or).0))
  {
    match op
    case Delete(target) => DeleteKeeps(s, base, ov, target);
    case Insert(row) =>
      if !StoppedByKey(s, base, ov, op, or) {
        JudgedPutKeeps(s, base, ov, row, or);
      }
    case Update(target, row) =>
      if Identity(s, target) != KeyOf(s, row) {
        MoveKeeps(s, base, ov, target, row, or);
      } else {
        InPlaceKeeps(s, base, ov, target, row, or);
      }
  }

  lemma InPlaceKeeps(s: Schema, base: Table, ov: Overlay, target: Pk, row: Row, or: Option<Action>)
    requires WellFormed(s) && Keyed(s, base) && Staged(s, ov) && Satisfies(s, Merged(base, ov))
    requires Identity(s, target) == KeyOf(s, row)
    ensures Staged(s, StageInPlace(s, base, ov, target, row, or).0)
    ensures Satisfies(s, Merged(base, StageInPlace(s, base, ov, target, row, or).0))
  {
    if KeyOf(s, row) in ov && ov[KeyOf(s, row)].Live? && !UniqueColumnsChanged(s, ov[KeyOf(s, row)].row, row) {
      UnchangedColumnsAreClear(s, 0, Merged(base, ov), KeyOf(s, row), row, or);
      PlacedKeeps(s, base, ov, row, or);
    } else {
      JudgedPutKeeps(s, base, ov, row, or);
    }
  }

  lemma JudgedPutKeeps(s: Schema, base: Table, ov: Overlay, row: Row, or: Option<Action>)
    requires WellFormed(s) && Keyed(s, base) && KeepsAll(s, base, ov)
    ensures var v := Judge(s, 0, Merged(base, ov), row, {KeyOf(s, row)}, or);
            && KeepsAll(s, base, EvictAll(s, ov, v.evicted))
            && (v.Clear? ==> KeepsAll(s, base, EvictAll(s, ov, v.evicted)[KeyOf(s, row) := Live(row)]))
  {
    var v := Judge(s, 0, Merged(base, ov), row, {KeyOf(s, row)}, or);
    EvictionsKeep(s, base, ov, v.evicted);
    if v.Clear? {
      PlacedKeeps(s, base, ov, row, or);
    }
  }

  // ---- whole runs -------------------------------------------------------------------------------

  datatype Write = Write(op: Op, or: Option<Action>)

  ghost function StageAll(s: Schema, base: Table, ov: Overlay, ws: seq<Write>): Overlay
    decreases |ws|
  {
    if ws == [] then ov else StageAll(s, base, Stage(s, base, ov, ws[0].op, ws[0].or).0, ws[1..])
  }

  ghost function PlainAll(s: Schema, t: Table, ws: seq<Write>): Table
    decreases |ws|
  {
    if ws == [] then t else PlainAll(s, Plain(s, t, ws[0].op, ws[0].or).0, ws[1..])
  }

  ghost predicate NoneDiverges(s: Schema, base: Table, ov: Overlay, ws: seq<Write>)
    decreases |ws|
  {
    ws != [] ==>
      && !Diverges(s, base, ov, ws[0].op, ws[0].or)
      && NoneDiverges(s, base, Stage(s, base, ov, ws[0].op, ws[0].or).0, ws[1..])
  }

  /** Over any run of writes under any conflict actions, the connection sees at every point what one
      plain keyed table would hold, and the UNIQUE constraints hold throughout. */
  lemma {:induction false} RunMeansPlain(s: Schema, base: Table, ov: Overlay, ws: seq<Write>)
    requires WellFormed(s) && Keyed(s, base) && Staged(s, ov) && Satisfies(s, Merged(base, ov))
    requires NoneDiverges(s, base, ov, ws)
    ensures Merged(base, StageAll(s, base, ov, ws)) == PlainAll(s, Merged(base, ov), ws)
    ensures Staged(s, StageAll(s, base, ov, ws)) && Satisfies(s, Merged(base, StageAll(s, base, ov, ws)))
    decreases |ws|
  {
    if ws != [] {
      var next := Stage(s, base, ov, ws[0].op, ws[0].or).0;
      StageMeansPlainExactly(s, base, ov, ws[0].op, ws[0].or);
      StageKeepsUniques(s, base, ov, ws[0].op, ws[0].or);
      RunMeansPlain(s, base, next, ws[1..]);
    }
  }

  /** No constraint that replaces by default comes before one that does not. */
  predicate ReplacersLast(s: Schema) {
    forall i, j :: 0 <= i < j < |s.uniques| && s.uniques[i].onConflict == Some(Replace) ==>
        s.uniques[j].onConflict == Some(Replace)
  }

  /** Under a statement action, or with the replacing constraints declared last, a stopped write has
      evicted nothing. */
  lemma {:induction false} NothingEvictedBeforeStop(s: Schema, i: nat, t: Table, row: Row, self: set<Key>,
                                                    or: Option<Action>)
    requires i <= |s.uniques| && (or.Some? || ReplacersLast(s))
    ensures var v := Judge(s, i, t, row, self, or); v.Stop? ==> v.evicted == []
    decreases |s.uniques| - i
  {
    if i < |s.uniques| {
      var hit := Conflicting(s, s.uniques[i], t, row, self);
      if hit == {} {
        NothingEvictedBeforeStop(s, i + 1, t, row, self, or);
      } else if Effective(or, s.uniques[i].onConflict).Replace? {
        forall k | k in hit ensures Judge(s, i + 1, t - {k}, row, self, or).Clear? {
          AllReplacersClear(s, i + 1, t - {k}, row, self, or);
        }
      }
    }
  }

  lemma {:induction false} AllReplacersClear(s: Schema, i: nat, t: Table, row: Row, self: set<Key>, or: Option<Action>)
    requires i <= |s.uniques|
    requires forall j :: i <= j < |s.uniques| ==> Effective(or, s.uniques[j].onConflict).Replace?
    ensures Judge(s, i, t, row, self, or).Clear?
    decreases |s.uniques| - i
  {
    if i < |s.uniques| {
      var hit := Conflicting(s, s.uniques[i], t, row, self);
      if hit == {} {
        AllReplacersClear(s, i + 1, t, row, self, or);
      } else {
        forall k | k in hit { AllReplacersClear(s, i + 1, t - {k}, row, self, or); }
      }
    }
  }

  /** The two assumptions under which no write diverges, both checkable before the call. */
  lemma OrdinaryWritesNeverDiverge(s: Schema, base: Table, ov: Overlay, op: Op, or: Option<Action>)
    requires or.Some? || ReplacersLast(s)
    requires !DeferredConflict(s, ov, op, or)
    ensures !Diverges(s, base, ov, op, or)
  {
    if !op.Delete? {
      NothingEvictedBeforeStop(s, 0, Merged(base, ov), op.row, SelfKeys(s, op), or);
    }
  }

  // ---- what the writer is told ------------------------------------------------------------------

  lemma MoveAnswer(s: Schema, base: Table, ov: Overlay, target: Pk, row: Row, or: Option<Action>)
    requires WellFormed(s) && Keyed(s, base) && Staged(s, ov)
    requires Identity(s, target) != KeyOf(s, row) && !DeferredConflict(s, ov, Update(target, row), or)
    ensures Stage(s, base, ov, Update(target, row), or).1 == Plain(s, Merged(base, ov), Update(target, row), or).1
  {
    var m, k, n := Merged(base, ov), Identity(s, target), KeyOf(s, row);
    if !StoppedByKey(s, base, ov, Update(target, row), or) {
      var v := Judge(s, 0, m, row, {k, n}, or);
      if v.Clear? {
        assert n !in KeysOf(s, v.evicted) by {
          MergedIsKeyed(s, base, ov);
          JudgeEvicts(s, 0, m, row, {k, n}, or);
        }
        ClearedMoveAnswer(s, base, ov, target, row, or, v.evicted);
      }
    }
  }

  lemma ClearedMoveAnswer(s: Schema, base: Table, ov: Overlay, target: Pk, row: Row, or: Option<Action>,
                          evicted: seq<Row>)
    requires Identity(s, target) != KeyOf(s, row) && !DeferredConflict(s, ov, Update(target, row), or)
    requires !StoppedByKey(s, base, ov, Update(target, row), or)
    requires Judge(s, 0, Merged(base, ov), row, {Identity(s, target), KeyOf(s, row)}, or) == Clear(evicted)
    requires KeyOf(s, row) !in KeysOf(s, evicted)
    ensures Stage(s, base, ov, Update(target, row), or).1 == Plain(s, Merged(base, ov), Update(target, row), or).1
  {
    EvictAllElsewhere(s, ov, evicted, KeyOf(s, row));
  }

  /** The answer, the evicted rows and the displaced row reported are those of the plain write. */
  lemma AnswersAgree(s: Schema, base: Table, ov: Overlay, op: Op, or: Option<Action>)
    requires WellFormed(s) && Keyed(s, base) && Staged(s, ov) && Satisfies(s, Merged(base, ov))
    requires !DeferredConflict(s, ov, op, or)
    ensures Stage(s, base, ov, op, or).1 == Plain(s, Merged(base, ov), op, or).1
  {
    if op.Update? {
      var k, n := Identity(s, op.target), KeyOf(s, op.row);
      if k != n {
        MoveAnswer(s, base, ov, op.target, op.row, or);
      } else {
        InPlaceAnswer(s, base, ov, op.target, op.row, or);
      }
    } else if op.Insert? {
      InsertAnswer(s, base, ov, op.row, or);
    }
  }

  lemma InPlaceAnswer(s: Schema, base: Table, ov: Overlay, target: Pk, row: Row, or: Option<Action>)
    requires WellFormed(s) && Keyed(s, base) && Staged(s, ov) && Satisfies(s, Merged(base, ov))
    requires Identity(s, target) == KeyOf(s, row)
    ensures StageInPlace(s, base, ov, target, row, or).1 == Plain(s, Merged(base, ov), Update(target, row), or).1
  {
    var n := KeyOf(s, row);
    assert {n, n} == {n};
    if n in ov && ov[n].Live? && !UniqueColumnsChanged(s, ov[n].row, row) {
      UnchangedColumnsAreClear(s, 0, Merged(base, ov), n, row, or);
    }
  }

  lemma InsertAnswer(s: Schema, base: Table, ov: Overlay, row: Row, or: Option<Action>)
    requires Keyed(s, base) && Staged(s, ov)
    ensures StageInsert(s, base, ov, row, or).1 == Plain(s, Merged(base, ov), Insert(row), or).1
  {
  }

  /** After a clear verdict the staging table, which re-checks UNIQUE over its own live rows, finds
      nothing in the way either: its own action on a UNIQUE conflict never applies. */
  lemma StagingUniqueCheckIsInert(s: Schema, base: Table, ov: Overlay, row: Row, self: set<Key>, or: Option<Action>,
                                  i: nat, k: Key)
    requires WellFormed(s) && Keyed(s, base) && Staged(s, ov) && Satisfies(s, Merged(base, ov))
    requires Judge(s, 0, Merged(base, ov), row, self, or).Clear? && i < |s.uniques|
    requires var ov' := EvictAll(s, ov, Judge(s, 0, Merged(base, ov), row, self, or).evicted);
             k in ov' && ov'[k].Live? && k !in self
    ensures !Clash(s, s.uniques[i], row, EvictAll(s, ov, Judge(s, 0, Merged(base, ov), row, self, or).evicted)[k].row)
  {
    var evicted := Judge(s, 0, Merged(base, ov), row, self, or).evicted;
    EvictAllHides(s, base, ov, evicted);
    MergedIsKeyed(s, base, ov);
    JudgeClears(s, 0, Merged(base, ov), row, self, or);
    assert k in Merged(base, EvictAll(s, ov, evicted));
  }

  // ---- the two ways it does diverge -------------------------------------------------------------

  function Bare(uniques: seq<Unique>): Schema {
    Schema(3, [Column(0, NeverText, "BINARY")], None, uniques, (c, v) => v)
  }

  function Cells(a: int, b: int, c: int): Row {
    [Num(a), Num(b), Num(c)]
  }

  lemma CellsKey(uniques: seq<Unique>, a: int, b: int, c: int)
    ensures KeyOf(Bare(uniques), Cells(a, b, c)) == [Num(a)] == Identity(Bare(uniques), [Num(a)])
  {
  }

  /** Moving row 1 onto key 2 while a row staged at key 2 is live: the write is refused, or under IGNORE
      skipped with no error, yet row 1 is gone from the connection's view. */
  lemma MoveOntoStagedRowLosesTheRow(or: Option<Action>)
    requires or != Some(Replace)
    ensures var s := Bare([]);
            var base := map[[Num(1)] := Cells(1, 0, 0)];
            var ov := map[[Num(2)] := Live(Cells(2, 0, 0))];
            var after := Stage(s, base, ov, Update([Num(1)], Cells(2, 5, 5)), or);
            && after.1 == Denial(PkAction(s, or), Cells(2, 0, 0))
            && [Num(1)] in Merged(base, ov) && [Num(1)] !in Merged(base, after.0)
  {
    var s := Bare([]);
    CellsKey([], 1, 0, 0);
    CellsKey([], 2, 0, 0);
    CellsKey([], 2, 5, 5);
    var base := map[[Num(1)] := Cells(1, 0, 0)];
    var ov := map[[Num(2)] := Live(Cells(2, 0, 0))];
    assert Judge(s, 0, Merged(base, ov), Cells(2, 5, 5), {[Num(1)], [Num(2)]}, or) == Clear([]);
    MoveStages(s, base, ov, [Num(1)], Cells(2, 5, 5), or, []);
  }

  function On(column: nat, action: Option<Action>): Unique {
    Unique([Column(column, NeverText, "BINARY")], row => true, {}, action, false)
  }

  /** A constraint that replaces by default, then one that does not. */
  function TwoRules(last: Option<Action>): seq<Unique> {
    [On(1, Some(Replace)), On(2, last)]
  }

  const TWO_ROWS: Table := map[[Num(1)] := Cells(1, 7, 1), [Num(2)] := Cells(2, 2, 8)]

  lemma TwoRulesVerdict(last: Option<Action>)
    requires last != Some(Replace)
    ensures var v := Judge(Bare(TwoRules(last)), 0, TWO_ROWS, Cells(3, 7, 8), {[Num(3)]}, None);
            v.Stop? && v.evicted == [Cells(1, 7, 1)] && v.answer == Denial(Effective(None, last), Cells(2, 2, 8))
  {
    var rules := TwoRules(last);
    var s, row, self := Bare(rules), Cells(3, 7, 8), {[Num(3)]};
    assert On(1, Some(Replace)).columns[0].index == 1;
    assert Clash(s, rules[0], row, Cells(1, 7, 1));
    assert !SameOn(s.folds, rules[0].columns, row, Cells(2, 2, 8)) by {
      assert Cell(row, 1) == Num(7) && Cell(Cells(2, 2, 8), 1) == Num(2);
    }
    assert Conflicting(s, rules[0], TWO_ROWS, row, self) == {[Num(1)]};
    var rest := TWO_ROWS - {[Num(1)]};
    assert Clash(s, rules[1], row, Cells(2, 2, 8));
    assert Conflicting(s, rules[1], rest, row, self) == {[Num(2)]};
    assert Judge(s, 1, rest, row, self, None).Stop?;
  }

  /** One constraint replaces by default, the next refuses or ignores: nothing is written, yet the row the
      first constraint evicted stays evicted. */
  lemma StopAfterEvictionKeepsTheEviction(last: Option<Action>)
    requires last != Some(Replace)
    ensures var after := Stage(Bare(TwoRules(last)), TWO_ROWS, map[], Insert(Cells(3, 7, 8)), None);
            && after.1 == Denial(Effective(None, last), Cells(2, 2, 8))
            && [Num(1)] in Merged(TWO_ROWS, map[]) && [Num(1)] !in Merged(TWO_ROWS, after.0)
  {
    var s := Bare(TwoRules(last));
    var none: Overlay := map[];
    CellsKey(TwoRules(last), 1, 7, 1);
    CellsKey(TwoRules(last), 3, 7, 8);
    assert Merged(TWO_ROWS, none) == TWO_ROWS;
    TwoRulesVerdict(last);
    assert EvictAll(s, none, [Cells(1, 7, 1)]) == Evict(s, none, Cells(1, 7, 1));
  }
}
