/** A connection's staged writes over a shared committed table, and what the two mean together. */
module MergedView {
  import opened Rows

  /** One staged entry: a row, or a marker for a deletion. A marker keeps a row image too: the
      key cells alone when minted for a committed row, the old staged row otherwise. */
  datatype Slot = Live(row: Row) | Marker(row: Row)

  type Overlay = map<Key, Slot>

  ghost predicate Staged(s: Schema, ov: Overlay) {
    forall k :: k in ov ==> KeyOf(s, ov[k].row) == k
  }

  /** The connection's view: staged rows, plus committed rows no staged entry names. */
  function Merged(base: Table, ov: Overlay): Table {
    map k | k in base.Keys + ov.Keys && (k in ov ==> ov[k].Live?) :: if k in ov then ov[k].row else base[k]
  }

  /** A connection that has staged nothing sees the committed table. */
  lemma NothingStagedShowsCommitted(base: Table)
    ensures Merged(base, map[]) == base
  {
  }

  lemma MergedIsKeyed(s: Schema, base: Table, ov: Overlay)
    requires Keyed(s, base) && Staged(s, ov)
    ensures Keyed(s, Merged(base, ov))
  {
  }

  lemma MarkerHides(base: Table, ov: Overlay, k: Key, row: Row)
    ensures Merged(base, ov[k := Marker(row)]) == Merged(base, ov) - {k}
  {
  }

  lemma LiveShows(base: Table, ov: Overlay, k: Key, row: Row)
    ensures Merged(base, ov[k := Live(row)]) == Merged(base, ov)[k := row]
  {
  }
}
