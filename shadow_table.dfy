/**
 * `ShadowTableChanges`: the section and row changes the main feed list
 * applies to its table view, and their projections onto index paths. Swift
 * sets are unordered, so the projected arrays, whose order the source
 * leaves open, are modelled as sets, and rows as natural numbers.
 */
module ShadowTable {
  import opened Wrappers

  datatype IndexPath = IndexPath(row: int, section: int)

  /** `Move(from, to)`, a row moving within a section. */
  datatype Move = Move(from: int, to: int)

  datatype RowChanges = RowChanges(
    section: int,
    deletes: Option<set<nat>>,
    inserts: Option<set<nat>>,
    reloads: Option<set<nat>>,
    moves: Option<set<Move>>)

  datatype ShadowTableChanges = ShadowTableChanges(
    deletes: Option<set<nat>>,
    inserts: Option<set<nat>>,
    moves: Option<set<Move>>,
    rowChanges: Option<seq<RowChanges>>)

  /** `s?.isEmpty ?? true`. */
  predicate NoneOrEmpty<T>(s: Option<set<T>>) {
    s.GetOr({}) == {}
  }

  /** `RowChanges.isEmpty`: no deletes, inserts or moves; reloads do not count. */
  predicate IsEmpty(rc: RowChanges) {
    NoneOrEmpty(rc.deletes) && NoneOrEmpty(rc.inserts) && NoneOrEmpty(rc.moves)
  }

  /** Empty exactly when each of deletes, inserts and moves is nil or empty, whatever the reloads. */
  lemma IsEmptyIff(rc: RowChanges, reloads: Option<set<nat>>)
    ensures IsEmpty(rc) <==>
      (rc.deletes.None? || rc.deletes.value == {}) && (rc.inserts.None? || rc.inserts.value == {}) && (rc.moves.None? || rc.moves.value == {})
    ensures IsEmpty(rc) == IsEmpty(rc.(reloads := reloads))
  {
  }

  function PathsIn(rows: set<nat>, section: int): set<IndexPath> {
    set r | r in rows :: IndexPath(r, section)
  }

  /** Each row gives its own path, so there are as many paths as rows. */
  lemma {:induction false} PathsInCount(rows: set<nat>, section: int)
    ensures |PathsIn(rows, section)| == |rows|
    decreases |rows|
  {
    if rows != {} {
      var x :| x in rows;
      var rest := rows - {x};
      PathsInCount(rest, section);
      assert PathsIn(rows, section) == PathsIn(rest, section) + {IndexPath(x, section)};
      assert IndexPath(x, section) !in PathsIn(rest, section);
    }
  }

  /** The shared shape of `deleteIndexPaths`, `insertIndexPaths` and `reloadIndexPaths`. */
  function RowPaths(rows: Option<set<nat>>, section: int): (r: Option<set<IndexPath>>)
    ensures r.None? <==> rows.None?
    ensures r.Some? ==> |r.value| == |rows.value|
    ensures r.Some? ==> forall p :: p in r.value <==> p.row in rows.value && p.section == section
  {
    match rows
    case None => None
    case Some(s) => PathsInCount(s, section); Some(PathsIn(s, section))
  }

  function DeleteIndexPaths(rc: RowChanges): Option<set<IndexPath>> {
    RowPaths(rc.deletes, rc.section)
  }

  function InsertIndexPaths(rc: RowChanges): Option<set<IndexPath>> {
    RowPaths(rc.inserts, rc.section)
  }

  function ReloadIndexPaths(rc: RowChanges): Option<set<IndexPath>> {
    RowPaths(rc.reloads, rc.section)
  }

  function PathPairs(moves: set<Move>, section: int): set<(IndexPath, IndexPath)> {
    set m | m in moves :: (IndexPath(m.from, section), IndexPath(m.to, section))
  }

  /** Each move gives its own pair of paths. */
  lemma {:induction false} PathPairsCount(moves: set<Move>, section: int)
    ensures |PathPairs(moves, section)| == |moves|
    decreases |moves|
  {
    if |moves| > 0 {
      var m :| m in moves;
      var rest := moves - {m};
      PathPairsCount(rest, section);
      var pair := (IndexPath(m.from, section), IndexPath(m.to, section));
      assert PathPairs(moves, section) == PathPairs(rest, section) + {pair};
      assert pair !in PathPairs(rest, section);
    }
  }

  /** `moveIndexPaths`: each move as a pair of paths, from and to, in the changes' section. */
  function MoveIndexPaths(rc: RowChanges): (r: Option<set<(IndexPath, IndexPath)>>)
    ensures r.None? <==> rc.moves.None?
    ensures r.Some? ==> |r.value| == |rc.moves.value|
    ensures r.Some? ==> forall a, b :: (a, b) in r.value <==>
      Move(a.row, b.row) in rc.moves.value && a.section == rc.section && b.section == rc.section
  {
    match rc.moves
    case None => None
    case Some(s) => PathPairsCount(s, rc.section); Some(PathPairs(s, rc.section))
  }
}
