/** Rows, key identity and UNIQUE constraints, as every part of the isolation layer sees them.

    A primary key is compared under each column's declared collation, so two spellings can name
    one row. A collation enters only through its folding function: two values are equal under the
    collation exactly when they fold to one value. Folding every primary-key cell gives a row's
    `Key`, its identity.
 */
module Rows {

  datatype Option<+T> = None | Some(value: T)

  datatype Value = Null | Num(n: int) | Text(s: string) | Blob(b: seq<bv8>)

  type Row = seq<Value>

  /** A primary-key tuple as spelled in a row. */
  type Pk = seq<Value>

  /** A folded primary-key tuple: equal keys name the same row. */
  type Key = seq<Value>

  type Table = map<Key, Row>

  datatype Action = Abort | Fail | Rollback | Ignore | Replace

  /** How a column's stored key bytes treat text: never text; text keyed under the declared
      collation; or text keyed under BINARY whatever is declared. */
  datatype Kind = NeverText | Aware | Blind

  datatype Column = Column(index: nat, kind: Kind, collation: string)

  type Folds = (string, Value) -> Value

  /** A UNIQUE constraint. `scope` is its partial predicate (constantly true when it has none) and
      `referenced` the columns that predicate reads. `indexed` says a live index carries it. */
  datatype Unique = Unique(columns: seq<Column>, scope: Row -> bool, referenced: set<nat>,
                           onConflict: Option<Action>, indexed: bool)

  datatype Schema = Schema(width: nat, pk: seq<Column>, pkDefault: Option<Action>,
                           uniques: seq<Unique>, folds: Folds)

  /** A cell past the row's end reads as NULL. */
  function Cell(row: Row, i: nat): Value {
    if i < |row| then row[i] else Null
  }

  /** The class of `v` under the comparison a column declares. */
  function Fold(f: Folds, c: Column, v: Value): Value {
    if c.kind.NeverText? then v else f(c.collation, v)
  }

  function PkOf(s: Schema, row: Row): Pk {
    seq(|s.pk|, i requires 0 <= i < |s.pk| => Cell(row, s.pk[i].index))
  }

  function Identity(s: Schema, pk: Pk): Key {
    seq(|s.pk|, i requires 0 <= i < |s.pk| => Fold(s.folds, s.pk[i], Cell(pk, i)))
  }

  function KeyOf(s: Schema, row: Row): Key {
    Identity(s, PkOf(s, row))
  }

  ghost predicate DependsOnlyOn(scope: Row -> bool, referenced: set<nat>) {
    forall a: Row, b: Row :: (forall c :: c in referenced ==> Cell(a, c) == Cell(b, c)) ==> scope(a) == scope(b)
  }

  ghost predicate WellFormed(s: Schema) {
    && (forall i :: 0 <= i < |s.pk| ==> s.pk[i].index < s.width)
    && (forall i, j :: 0 <= i < j < |s.pk| ==> s.pk[i].index != s.pk[j].index)
    && (forall v :: s.folds("BINARY", v) == v)
    && (forall i :: 0 <= i < |s.uniques| ==> DependsOnlyOn(s.uniques[i].scope, s.uniques[i].referenced))
  }

  /** Every row sits at its own key. */
  ghost predicate Keyed(s: Schema, t: Table) {
    forall k :: k in t ==> KeyOf(s, t[k]) == k
  }

  /** No two rows share a key. */
  ghost predicate RowsOnce(s: Schema, rows: seq<Row>) {
    forall i, j :: 0 <= i < j < |rows| ==> KeyOf(s, rows[i]) != KeyOf(s, rows[j])
  }

  // ---- deletion-marker rows ---------------------------------------------------------------------

  /** NULL everywhere except the primary-key cells, which carry `pk`. */
  function MarkerRow(s: Schema, pk: Pk): (row: Row)
    ensures |row| == s.width
  {
    Stamp(s, pk, seq(s.width, i => Null), |s.pk|)
  }

  /** `row` with the first `n` primary-key cells written in order. */
  function Stamp(s: Schema, pk: Pk, row: Row, n: nat): (r: Row)
    requires n <= |s.pk|
    ensures |r| == |row|
  {
    if n == 0 then row
    else
      var before := Stamp(s, pk, row, n - 1);
      var at := s.pk[n - 1].index;
      if at < |before| then before[at := Cell(pk, n - 1)] else before
  }

  lemma {:induction false} StampWrites(s: Schema, pk: Pk, row: Row, n: nat)
    requires WellFormed(s) && |row| == s.width && n <= |s.pk|
    ensures forall i :: 0 <= i < n ==> Cell(Stamp(s, pk, row, n), s.pk[i].index) == Cell(pk, i)
  {
    if n > 0 {
      StampWrites(s, pk, row, n - 1);
    }
  }

  /** A marker minted from a key tuple names exactly that key. */
  lemma MarkerRowKeepsKey(s: Schema, pk: Pk)
    requires WellFormed(s)
    ensures KeyOf(s, MarkerRow(s, pk)) == Identity(s, pk)
  {
    StampWrites(s, pk, seq(s.width, i => Null), |s.pk|);
    assert forall i :: 0 <= i < |s.pk| ==> PkOf(s, MarkerRow(s, pk))[i] == Cell(pk, i);
  }

  // ---- UNIQUE constraints -----------------------------------------------------------------------

  /** Both rows hold a value at every constrained column, and the values are equal there. */
  predicate SameOn(f: Folds, columns: seq<Column>, a: Row, b: Row) {
    forall i :: 0 <= i < |columns| ==>
                  && Cell(a, columns[i].index) != Null
                  && Cell(b, columns[i].index) != Null
                  && Fold(f, columns[i], Cell(a, columns[i].index)) == Fold(f, columns[i], Cell(b, columns[i].index))
  }

  /** `row` takes part in the constraint: no NULL among its columns, and inside the predicate. */
  predicate Applies(uc: Unique, row: Row) {
    (forall i :: 0 <= i < |uc.columns| ==> Cell(row, uc.columns[i].index) != Null) && uc.scope(row)
  }

  /** Two rows the constraint forbids side by side. */
  predicate Clash(s: Schema, uc: Unique, a: Row, b: Row) {
    Applies(uc, a) && Applies(uc, b) && SameOn(s.folds, uc.columns, a, b)
  }

  ghost predicate Satisfies(s: Schema, t: Table) {
    forall i, j, k :: 0 <= i < |s.uniques| && j in t && k in t && j != k ==> !Clash(s, s.uniques[i], t[j], t[k])
  }

  /** Rows of `t`, outside the writer's own keys, that `row` may not stand beside. */
  ghost function Conflicting(s: Schema, uc: Unique, t: Table, row: Row, self: set<Key>): set<Key> {
    set k | k in t && k !in self && Clash(s, uc, row, t[k])
  }

  /** A row outside a constraint's partial predicate, or with a NULL in a constrained column, is neither stopped by the
      constraint nor in anyone's way. */
  lemma OutsideIsNeverInConflict(s: Schema, uc: Unique, t: Table, row: Row, self: set<Key>)
    ensures !uc.scope(row) || HasNull(uc, row) ==> Conflicting(s, uc, t, row, self) == {}
    ensures forall k :: k in t && (!uc.scope(t[k]) || HasNull(uc, t[k])) ==> k !in Conflicting(s, uc, t, row, self)
  {
  }

  predicate HasNull(uc: Unique, row: Row) {
    exists i :: 0 <= i < |uc.columns| && Cell(row, uc.columns[i].index).Null?
  }

  /** A row inside the predicate with a value in every constrained column meets exactly the rows that share those
      values, each under its column's declared comparison, and are inside the predicate too. */
  lemma ConflictsExactly(s: Schema, uc: Unique, t: Table, row: Row, self: set<Key>, k: Key)
    requires k in t && k !in self && uc.scope(row)
    requires forall i :: 0 <= i < |uc.columns| ==> !Cell(row, uc.columns[i].index).Null?
    ensures k in Conflicting(s, uc, t, row, self) <==>
              && uc.scope(t[k])
              && forall i :: 0 <= i < |uc.columns| ==>
                   var c := uc.columns[i];
                   var a, b := Cell(row, c.index), Cell(t[k], c.index);
                   !b.Null? && if c.kind.NeverText? then a == b else s.folds(c.collation, a) == s.folds(c.collation, b)
  {
  }

  /** Two rows are one row exactly when their key cells are equal, each under its column's declared comparison. */
  lemma SameKeyExactly(s: Schema, a: Row, b: Row)
    ensures KeyOf(s, a) == KeyOf(s, b) <==>
              forall i :: 0 <= i < |s.pk| ==>
                var c := s.pk[i];
                var x, y := Cell(a, c.index), Cell(b, c.index);
                if c.kind.NeverText? then x == y else s.folds(c.collation, x) == s.folds(c.collation, y)
  {
    assert forall i :: 0 <= i < |s.pk| ==> KeyOf(s, a)[i] == Fold(s.folds, s.pk[i], Cell(a, s.pk[i].index));
    assert forall i :: 0 <= i < |s.pk| ==> KeyOf(s, b)[i] == Fold(s.folds, s.pk[i], Cell(b, s.pk[i].index));
  }

  /** In a table that satisfies its constraints a new row meets at most one row per constraint. */
  lemma AtMostOneConflict(s: Schema, i: nat, t: Table, row: Row, self: set<Key>, j: Key, k: Key)
    requires i < |s.uniques| && Satisfies(s, t)
    requires j in Conflicting(s, s.uniques[i], t, row, self) && k in Conflicting(s, s.uniques[i], t, row, self)
    ensures j == k
  {
    if j != k {
      assert !Clash(s, s.uniques[i], t[j], t[k]);
      assert SameOn(s.folds, s.uniques[i].columns, t[j], t[k]);
      assert false;
    }
  }

  // ---- the index seek behind a UNIQUE check -----------------------------------------------------

  /** The bytes an index keys a column under: type-native, the declared collation, or BINARY. */
  function KeyedFold(f: Folds, c: Column, v: Value): Value {
    if c.kind.Aware? then f(c.collation, v) else v
  }

  /** The gate on replacing the full scan by an index seek: every constrained column must be keyed
      under the collation the check compares under. */
  predicate CanSeek(uc: Unique) {
    uc.indexed && forall i :: 0 <= i < |uc.columns| ==>
        uc.columns[i].collation == "BINARY" || !uc.columns[i].kind.Blind?
  }

  predicate SameIndexKey(f: Folds, columns: seq<Column>, a: Row, b: Row) {
    forall i :: 0 <= i < |columns| ==>
                  KeyedFold(f, columns[i], Cell(a, columns[i].index)) ==
                      KeyedFold(f, columns[i], Cell(b, columns[i].index))
  }

  /** Under the gate no clashing row can sit outside the sought index key. */
  lemma SeekCoversClashes(s: Schema, uc: Unique, a: Row, b: Row)
    requires WellFormed(s) && CanSeek(uc) && SameOn(s.folds, uc.columns, a, b)
    ensures SameIndexKey(s.folds, uc.columns, a, b)
  {
    forall i | 0 <= i < |uc.columns|
      ensures KeyedFold(s.folds, uc.columns[i], Cell(a, uc.columns[i].index))
           == KeyedFold(s.folds, uc.columns[i], Cell(b, uc.columns[i].index))
    {
      var c := uc.columns[i];
      assert Fold(s.folds, c, Cell(a, c.index)) == Fold(s.folds, c, Cell(b, c.index));
    }
  }
}
