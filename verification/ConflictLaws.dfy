/** What a write answers when it meets a row, said of the staged write and of the plain one alike: which action
    decides, what is reported, and what the connection sees afterwards. */
module ConflictLaws {
  import opened Rows
  import opened MergedView
  import opened WriteRules
  import opened WriteTheorems

  /** The statement's action decides; without one the declared action does; with neither the write aborts. */
  predicate Decides(statement: Option<Action>, declared: Option<Action>, a: Action) {
    match statement
    case Some(b) => a == b
    case None => if declared.Some? then a == declared.value else a == Abort
  }

  /** Constraint `i` is the first one `row` meets a row under, and `k` is where. */
  ghost predicate FirstClash(s: Schema, t: Table, row: Row, self: set<Key>, i: nat, k: Key) {
    && i < |s.uniques| && k in t && k !in self && Clash(s, s.uniques[i], row, t[k])
    && (forall h, j :: 0 <= h < i && j in t && j !in self ==> !Clash(s, s.uniques[h], row, t[j]))
  }

  /** The write's own key lets it through: it is free, or the row's own. */
  ghost predicate KeyLetsThrough(s: Schema, m: Table, op: Op) {
    match op
    case Insert(row) => KeyOf(s, row) !in m
    case Update(target, row) => KeyOf(s, row) == Identity(s, target) || KeyOf(s, row) !in m
    case Delete(_) => false
  }

  // ---- the verdict ------------------------------------------------------------------------------

  lemma {:induction false} UnopposedIsClear(s: Schema, i: nat, t: Table, row: Row, self: set<Key>, or: Option<Action>)
    requires i <= |s.uniques| && Unopposed(s, i, t, row, self)
    ensures Judge(s, i, t, row, self, or) == Clear([])
    decreases |s.uniques| - i
  {
    if i < |s.uniques| {
      assert Conflicting(s, s.uniques[i], t, row, self) == {};
      UnopposedIsClear(s, i + 1, t, row, self, or);
    }
  }

  ghost predicate NothingMet(s: Schema, h: nat, t: Table, row: Row, self: set<Key>) {
    h < |s.uniques| ==> Conflicting(s, s.uniques[h], t, row, self) == {}
  }

  lemma EarlierMeetNothing(s: Schema, t: Table, row: Row, self: set<Key>, i: nat, k: Key, h: nat)
    requires FirstClash(s, t, row, self, i, k) && h < i
    ensures NothingMet(s, h, t, row, self)
  {
  }

  lemma {:induction false} JudgeSkips(s: Schema, h: nat, i: nat, t: Table, row: Row, self: set<Key>, or: Option<Action>)
    requires h <= i <= |s.uniques| && forall g: nat :: h <= g < i ==> NothingMet(s, g, t, row, self)
    ensures Judge(s, h, t, row, self, or) == Judge(s, i, t, row, self, or)
    decreases i - h
  {
    if h < i {
      assert NothingMet(s, h, t, row, self);
      JudgePasses(s, h, t, row, self, or);
      JudgeSkips(s, h + 1, i, t, row, self, or);
    }
  }

  lemma JudgeReaches(s: Schema, i: nat, t: Table, row: Row, self: set<Key>, or: Option<Action>, k: Key)
    requires FirstClash(s, t, row, self, i, k)
    ensures Judge(s, 0, t, row, self, or) == Judge(s, i, t, row, self, or)
  {
    forall h: nat | h < i ensures NothingMet(s, h, t, row, self) {
      EarlierMeetNothing(s, t, row, self, i, k, h);
    }
    JudgeSkips(s, 0, i, t, row, self, or);
  }

  lemma ClashIsAlone(s: Schema, t: Table, row: Row, self: set<Key>, i: nat, k: Key)
    requires Satisfies(s, t) && FirstClash(s, t, row, self, i, k)
    ensures Conflicting(s, s.uniques[i], t, row, self) == {k}
  {
    forall j | j in Conflicting(s, s.uniques[i], t, row, self) ensures j == k {
      AtMostOneConflict(s, i, t, row, self, j, k);
    }
  }

  lemma FirstClashStops(s: Schema, t: Table, row: Row, self: set<Key>, or: Option<Action>, i: nat, k: Key, a: Action)
    requires Satisfies(s, t) && FirstClash(s, t, row, self, i, k) && Decides(or, s.uniques[i].onConflict, a)
    ensures a.Ignore? ==> Judge(s, 0, t, row, self, or) == Stop([], Skipped)
    ensures a.Abort? || a.Fail? || a.Rollback? ==> Judge(s, 0, t, row, self, or) == Stop([], Refused(a, t[k]))
  {
    JudgeReaches(s, i, t, row, self, or, k);
    ClashIsAlone(s, t, row, self, i, k);
  }

  lemma OnlyClashIsEvicted(s: Schema, t: Table, row: Row, self: set<Key>, or: Option<Action>, i: nat, k: Key)
    requires Satisfies(s, t) && FirstClash(s, t, row, self, i, k) && Decides(or, s.uniques[i].onConflict, Replace)
    requires Unopposed(s, 0, t - {k}, row, self)
    ensures Judge(s, 0, t, row, self, or) == Clear([t[k]])
  {
    JudgeReaches(s, i, t, row, self, or, k);
    ClashIsAlone(s, t, row, self, i, k);
    UnopposedIsClear(s, i + 1, t - {k}, row, self, or);
  }

  // ---- nothing in the way -----------------------------------------------------------------------

  lemma EvictNothing(s: Schema, ov: Overlay)
    ensures EvictAll(s, ov, []) == ov && KeysOf(s, []) == {}
  {
  }

  /** The key whose row the write takes the place of. */
  function OldKey(s: Schema, op: Op): Key {
    if op.Insert? then KeyOf(s, op.row) else Identity(s, op.target)
  }

  /** The table after the row that was at `from` stands at its own key. */
  function Put(t: Table, from: Key, key: Key, row: Row): Table {
    (t - {from})[key := row]
  }

  /** A row inserted at a free key with no clash is there, and nothing else has changed. */
  lemma FreeInsertIsWritten(s: Schema, base: Table, ov: Overlay, row: Row, or: Option<Action>)
    requires WellFormed(s) && Staged(s, ov)
    requires KeyOf(s, row) !in Merged(base, ov) && Unopposed(s, 0, Merged(base, ov), row, {KeyOf(s, row)})
    ensures Merged(base, Stage(s, base, ov, Insert(row), or).0) == Merged(base, ov)[KeyOf(s, row) := row]
    ensures Stage(s, base, ov, Insert(row), or).1 == Written([], None)
    ensures Plain(s, Merged(base, ov), Insert(row), or) == (Merged(base, ov)[KeyOf(s, row) := row], Written([], None))
  {
    var m, k := Merged(base, ov), KeyOf(s, row);
    UnopposedIsClear(s, 0, m, row, {k}, or);
    EvictNothing(s, ov);
    LiveShows(base, ov, k, row);
    assert m - {} == m;
  }

  /** A row updated with no clash stands at its key, the old one gone, and nothing else has changed. */
  lemma FreeUpdateIsWritten(s: Schema, base: Table, ov: Overlay, target: Pk, row: Row, or: Option<Action>)
    requires WellFormed(s) && Keyed(s, base) && Staged(s, ov) && Satisfies(s, Merged(base, ov))
    requires Identity(s, target) == KeyOf(s, row) || KeyOf(s, row) !in Merged(base, ov)
    requires Unopposed(s, 0, Merged(base, ov), row, {Identity(s, target), KeyOf(s, row)})
    ensures var m, n := Merged(base, ov), KeyOf(s, row);
            && Merged(base, Stage(s, base, ov, Update(target, row), or).0) == Put(m, Identity(s, target), n, row)
            && Stage(s, base, ov, Update(target, row), or).1 == Written([], None)
            && Plain(s, m, Update(target, row), or) == (Put(m, Identity(s, target), n, row), Written([], None))
  {
    var m, k, n := Merged(base, ov), Identity(s, target), KeyOf(s, row);
    UnopposedIsClear(s, 0, m, row, {k, n}, or);
    PlainUpdateIsPut(s, m, target, row, or);
    LandsAsPlain(s, base, ov, Update(target, row), or, []);
  }

  /** What a plain update puts in place once nothing clashes. */
  lemma PlainUpdateIsPut(s: Schema, t: Table, target: Pk, row: Row, or: Option<Action>)
    requires Identity(s, target) == KeyOf(s, row) || KeyOf(s, row) !in t || Decides(or, s.pkDefault, Replace)
    requires Judge(s, 0, t, row, {Identity(s, target), KeyOf(s, row)}, or) == Clear([])
    ensures var k, n := Identity(s, target), KeyOf(s, row);
            Plain(s, t, Update(target, row), or) ==
            (Put(t, k, n, row), Written([], if k != n && n in t then Some(t[n]) else None))
  {
    assert KeysOf(s, []) == {};
    assert t - {Identity(s, target)} - {} == t - {Identity(s, target)};
  }

  /** A write its own key lets through, and the constraints clear, lands as it does on the plain table. */
  lemma LandsAsPlain(s: Schema, base: Table, ov: Overlay, op: Op, or: Option<Action>, evicted: seq<Row>)
    requires WellFormed(s) && Keyed(s, base) && Staged(s, ov) && Satisfies(s, Merged(base, ov)) && !op.Delete?
    requires Judge(s, 0, Merged(base, ov), op.row, SelfKeys(s, op), or) == Clear(evicted)
    requires KeyLetsThrough(s, Merged(base, ov), op) || Decides(or, s.pkDefault, Replace)
    ensures Merged(base, Stage(s, base, ov, op, or).0) == Plain(s, Merged(base, ov), op, or).0
    ensures Stage(s, base, ov, op, or).1 == Plain(s, Merged(base, ov), op, or).1
  {
    assert !DeferredConflict(s, ov, op, or);
    StageMeansPlainExactly(s, base, ov, op, or);
    AnswersAgree(s, base, ov, op, or);
  }

  /** A deleted key is gone, and nothing else has changed. */
  lemma DeleteIsRemoved(s: Schema, base: Table, ov: Overlay, target: Pk, or: Option<Action>)
    ensures Merged(base, Stage(s, base, ov, Delete(target), or).0) == Merged(base, ov) - {Identity(s, target)}
    ensures Stage(s, base, ov, Delete(target), or).1 == Removed
    ensures Plain(s, Merged(base, ov), Delete(target), or) == (Merged(base, ov) - {Identity(s, target)}, Removed)
  {
    DeleteAgrees(s, base, ov, target);
  }

  // ---- a key already held -----------------------------------------------------------------------

  /** An insert onto a key the view holds. IGNORE and the refusing actions leave everything staged as it was and say
      so; REPLACE writes the row and reports the one it displaced. */
  lemma HeldKeyDecidesInsert(s: Schema, base: Table, ov: Overlay, row: Row, or: Option<Action>, a: Action)
    requires WellFormed(s) && Staged(s, ov) && KeyOf(s, row) in Merged(base, ov) && Decides(or, s.pkDefault, a)
    ensures a.Ignore? ==> Stage(s, base, ov, Insert(row), or) == (ov, Skipped)
    ensures a.Abort? || a.Fail? || a.Rollback? ==>
              Stage(s, base, ov, Insert(row), or) == (ov, Refused(a, Merged(base, ov)[KeyOf(s, row)]))
    ensures a.Replace? && Unopposed(s, 0, Merged(base, ov), row, {KeyOf(s, row)}) ==>
              && Merged(base, Stage(s, base, ov, Insert(row), or).0) == Merged(base, ov)[KeyOf(s, row) := row]
              && Stage(s, base, ov, Insert(row), or).1 == Written([], Some(Merged(base, ov)[KeyOf(s, row)]))
  {
    var m, k := Merged(base, ov), KeyOf(s, row);
    if a.Replace? && Unopposed(s, 0, m, row, {k}) {
      UnopposedIsClear(s, 0, m, row, {k}, or);
      EvictNothing(s, ov);
      LiveShows(base, ov, k, row);
    }
  }

  /** A move onto a key the view holds. A committed row there decides at once, and only REPLACE gets past it. */
  lemma HeldKeyDecidesMove(s: Schema, base: Table, ov: Overlay, target: Pk, row: Row, or: Option<Action>, a: Action)
    requires WellFormed(s) && Keyed(s, base) && Staged(s, ov) && Satisfies(s, Merged(base, ov))
    requires Identity(s, target) != KeyOf(s, row) && KeyOf(s, row) in Merged(base, ov) && Decides(or, s.pkDefault, a)
    ensures KeyOf(s, row) !in ov && a.Ignore? ==> Stage(s, base, ov, Update(target, row), or) == (ov, Skipped)
    ensures KeyOf(s, row) !in ov && (a.Abort? || a.Fail? || a.Rollback?) ==>
              Stage(s, base, ov, Update(target, row), or) == (ov, Refused(a, base[KeyOf(s, row)]))
    ensures a.Replace? && Unopposed(s, 0, Merged(base, ov), row, {Identity(s, target), KeyOf(s, row)}) ==>
              && Merged(base, Stage(s, base, ov, Update(target, row), or).0) ==
                 Put(Merged(base, ov), Identity(s, target), KeyOf(s, row), row)
              && Stage(s, base, ov, Update(target, row), or).1 == Written([], Some(Merged(base, ov)[KeyOf(s, row)]))
  {
    var m, k, n := Merged(base, ov), Identity(s, target), KeyOf(s, row);
    if a.Replace? {
      if Unopposed(s, 0, m, row, {k, n}) {
        UnopposedIsClear(s, 0, m, row, {k, n}, or);
        PlainUpdateIsPut(s, m, target, row, or);
        LandsAsPlain(s, base, ov, Update(target, row), or, []);
      }
    } else if n !in ov {
      CommittedRowStopsMove(s, base, ov, target, row, or, a);
    }
  }

  lemma CommittedRowStopsMove(s: Schema, base: Table, ov: Overlay, target: Pk, row: Row, or: Option<Action>, a: Action)
    requires Identity(s, target) != KeyOf(s, row) && KeyOf(s, row) in base && KeyOf(s, row) !in ov
    requires Decides(or, s.pkDefault, a) && !a.Replace?
    ensures Stage(s, base, ov, Update(target, row), or) ==
            (ov, if a.Ignore? then Skipped else Refused(a, base[KeyOf(s, row)]))
  {
  }

  /** A live staged row at the new key decides after the old slot is marked: what is answered is the action's, and the
      moved row is gone from the view. */
  lemma StagedKeyDecidesMove(s: Schema, base: Table, ov: Overlay, target: Pk, row: Row, or: Option<Action>, a: Action)
    requires WellFormed(s) && Keyed(s, base) && Staged(s, ov) && Identity(s, target) != KeyOf(s, row)
    requires KeyOf(s, row) in ov && ov[KeyOf(s, row)].Live? && Decides(or, s.pkDefault, a) && !a.Replace?
    requires Unopposed(s, 0, Merged(base, ov), row, {Identity(s, target), KeyOf(s, row)})
    ensures Merged(base, Stage(s, base, ov, Update(target, row), or).0) == Merged(base, ov) - {Identity(s, target)}
    ensures Stage(s, base, ov, Update(target, row), or).1 ==
            if a.Ignore? then Skipped else Refused(a, ov[KeyOf(s, row)].row)
  {
    var m, k, n := Merged(base, ov), Identity(s, target), KeyOf(s, row);
    UnopposedIsClear(s, 0, m, row, {k, n}, or);
    assert KeysOf(s, []) == {} && m - {k} - {} == m - {k};
    MoveShows(s, base, ov, target, row, or, []);
    DeferredAnswer(s, base, ov, target, row, or, a);
  }

  lemma DeferredAnswer(s: Schema, base: Table, ov: Overlay, target: Pk, row: Row, or: Option<Action>, a: Action)
    requires Identity(s, target) != KeyOf(s, row) && KeyOf(s, row) in ov && ov[KeyOf(s, row)].Live?
    requires Decides(or, s.pkDefault, a) && !a.Replace?
    requires Judge(s, 0, Merged(base, ov), row, {Identity(s, target), KeyOf(s, row)}, or) == Clear([])
    ensures Stage(s, base, ov, Update(target, row), or).1 ==
            if a.Ignore? then Skipped else Refused(a, ov[KeyOf(s, row)].row)
  {
  }

  /** The plain table under the same table of actions, for an insert and for a move. */
  lemma HeldKeyDecidesPlain(s: Schema, t: Table, op: Op, or: Option<Action>, a: Action)
    requires op.Insert? || (op.Update? && Identity(s, op.target) != KeyOf(s, op.row))
    requires KeyOf(s, op.row) in t && Decides(or, s.pkDefault, a)
    ensures a.Ignore? ==> Plain(s, t, op, or) == (t, Skipped)
    ensures a.Abort? || a.Fail? || a.Rollback? ==> Plain(s, t, op, or) == (t, Refused(a, t[KeyOf(s, op.row)]))
    ensures a.Replace? && Unopposed(s, 0, t, op.row, SelfKeys(s, op)) ==>
              Plain(s, t, op, or) ==
              (Put(t, OldKey(s, op), KeyOf(s, op.row), op.row), Written([], Some(t[KeyOf(s, op.row)])))
  {
    if a.Replace? && Unopposed(s, 0, t, op.row, SelfKeys(s, op)) {
      UnopposedIsClear(s, 0, t, op.row, SelfKeys(s, op), or);
      assert KeysOf(s, []) == {};
      if op.Insert? {
        assert (t - {})[KeyOf(s, op.row) := op.row] == Put(t, KeyOf(s, op.row), KeyOf(s, op.row), op.row);
      } else {
        assert t - {Identity(s, op.target)} - {} == t - {Identity(s, op.target)};
      }
    }
  }

  // ---- a UNIQUE constraint in the way -------------------------------------------------------------

  /** The first constraint in the way decides by the statement's action, else its own, else by aborting: IGNORE skips
      and the refusing actions refuse, naming the row in the way, with everything staged as it was. */
  lemma UniqueClashDecides(s: Schema, base: Table, ov: Overlay, op: Op, or: Option<Action>, i: nat, k: Key, a: Action)
    requires WellFormed(s) && Keyed(s, base) && Staged(s, ov) && Satisfies(s, Merged(base, ov))
    requires KeyLetsThrough(s, Merged(base, ov), op)
    requires FirstClash(s, Merged(base, ov), op.row, SelfKeys(s, op), i, k) && Decides(or, s.uniques[i].onConflict, a)
    ensures a.Ignore? ==> Stage(s, base, ov, op, or) == (ov, Skipped)
    ensures a.Abort? || a.Fail? || a.Rollback? ==> Stage(s, base, ov, op, or) == (ov, Refused(a, Merged(base, ov)[k]))
    ensures a.Ignore? ==> Plain(s, Merged(base, ov), op, or) == (Merged(base, ov), Skipped)
    ensures a.Abort? || a.Fail? || a.Rollback? ==>
              Plain(s, Merged(base, ov), op, or) == (Merged(base, ov), Refused(a, Merged(base, ov)[k]))
  {
    var m := Merged(base, ov);
    if !a.Replace? {
      var answer := if a.Ignore? then Skipped else Refused(a, m[k]);
      assert Judge(s, 0, m, op.row, SelfKeys(s, op), or) == Stop([], answer) by {
        FirstClashStops(s, m, op.row, SelfKeys(s, op), or, i, k, a);
      }
      ChangedWhenClashing(s, base, ov, op, i, k);
      StopLeavesStaged(s, base, ov, op, or, answer);
    }
  }

  /** A verdict that stops before evicting leaves everything as it was, staged and plain. */
  lemma StopLeavesStaged(s: Schema, base: Table, ov: Overlay, op: Op, or: Option<Action>, answer: Result)
    requires KeyLetsThrough(s, Merged(base, ov), op)
    requires Judge(s, 0, Merged(base, ov), op.row, SelfKeys(s, op), or) == Stop([], answer)
    requires var n := KeyOf(s, op.row);
             op.Update? && Identity(s, op.target) == n && n in ov && ov[n].Live? ==>
               UniqueColumnsChanged(s, ov[n].row, op.row)
    ensures Stage(s, base, ov, op, or) == (ov, answer)
    ensures Plain(s, Merged(base, ov), op, or) == (Merged(base, ov), answer)
  {
    var n := KeyOf(s, op.row);
    if op.Update? && Identity(s, op.target) == n {
      assert SelfKeys(s, op) == {n};
    }
  }

  /** A write that meets a row is not one whose constrained columns are unchanged. */
  lemma ChangedWhenClashing(s: Schema, base: Table, ov: Overlay, op: Op, i: nat, k: Key)
    requires WellFormed(s) && Satisfies(s, Merged(base, ov)) && !op.Delete?
    requires FirstClash(s, Merged(base, ov), op.row, SelfKeys(s, op), i, k)
    ensures var n := KeyOf(s, op.row);
            op.Update? && Identity(s, op.target) == n && n in ov && ov[n].Live? ==>
              UniqueColumnsChanged(s, ov[n].row, op.row)
  {
    var m, n := Merged(base, ov), KeyOf(s, op.row);
    if op.Update? && Identity(s, op.target) == n && n in ov && ov[n].Live?
       && !UniqueColumnsChanged(s, ov[n].row, op.row) {
      assert SelfKeys(s, op) == {n} && n in m && m[n] == ov[n].row;
      UnchangedColumnsAreClear(s, 0, m, n, op.row, Some(Abort));
      FirstClashStops(s, m, op.row, {n}, Some(Abort), i, k, Abort);
      assert false;
    }
  }

  /** Under REPLACE the one row in the way goes, the write lands, and the answer names the row that went. */
  lemma ReplaceEvicts(s: Schema, base: Table, ov: Overlay, op: Op, or: Option<Action>, i: nat, k: Key)
    requires WellFormed(s) && Keyed(s, base) && Staged(s, ov) && Satisfies(s, Merged(base, ov))
    requires KeyLetsThrough(s, Merged(base, ov), op)
    requires FirstClash(s, Merged(base, ov), op.row, SelfKeys(s, op), i, k)
    requires Decides(or, s.uniques[i].onConflict, Replace)
    requires Unopposed(s, 0, Merged(base, ov) - {k}, op.row, SelfKeys(s, op))
    ensures var m := Merged(base, ov);
            && Plain(s, m, op, or) == (Put(m - {k}, OldKey(s, op), KeyOf(s, op.row), op.row), Written([m[k]], None))
            && Merged(base, Stage(s, base, ov, op, or).0) == Plain(s, m, op, or).0
            && Stage(s, base, ov, op, or).1 == Written([m[k]], None)
  {
    var m := Merged(base, ov);
    MergedIsKeyed(s, base, ov);
    OnlyClashIsEvicted(s, m, op.row, SelfKeys(s, op), or, i, k);
    EvictedPlain(s, m, op, or, k);
    LandsAsPlain(s, base, ov, op, or, [m[k]]);
  }

  lemma EvictedPlain(s: Schema, m: Table, op: Op, or: Option<Action>, k: Key)
    requires KeyLetsThrough(s, m, op) && k in m && KeyOf(s, m[k]) == k && k !in SelfKeys(s, op)
    requires Judge(s, 0, m, op.row, SelfKeys(s, op), or) == Clear([m[k]])
    ensures Plain(s, m, op, or) == (Put(m - {k}, OldKey(s, op), KeyOf(s, op.row), op.row), Written([m[k]], None))
  {
    assert [m[k]][0] == m[k];
    assert KeysOf(s, [m[k]]) == {k};
    if op.Insert? {
      assert (m - {k})[KeyOf(s, op.row) := op.row] == Put(m - {k}, KeyOf(s, op.row), KeyOf(s, op.row), op.row);
    } else {
      assert m - {Identity(s, op.target)} - {k} == m - {k} - {Identity(s, op.target)};
      assert SelfKeys(s, op) == {Identity(s, op.target), KeyOf(s, op.row)};
    }
  }
}
