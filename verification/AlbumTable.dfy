/** What the table of `renameAlbumFiles` says: row by row, the old name
    of a moved file and where it went, relative to the album folder. */
module AlbumTable {
  import Text
  import Dict
  import Ordering
  import RenameCommon
  import opened AlbumFiles
  import AlbumRun

  /** Row `i` reports move `i`: the old file name, and the new path relative
      to the album folder. Every move is of a file with a title, to a
      different path. */
  predicate Paired(env: FilesEnv, rows: seq<Ordering.StrRow>, moves: seq<Move>) {
    |rows| == |moves| && RowsShowMoves(env, rows, moves) && MovesTitled(env, moves)
  }

  /** Each row names its move's source and, under the album folder, its target. */
  predicate RowsShowMoves(env: FilesEnv, rows: seq<Ordering.StrRow>, moves: seq<Move>)
    requires |rows| == |moves|
  {
    forall i :: 0 <= i < |rows| ==> Shows(env, rows[i], moves[i])
  }

  predicate Shows(env: FilesEnv, row: Ordering.StrRow, m: Move) {
    m.target == Text.PathJoin(env.folderPath, row.3) && row.2 == OldName(env.naming, m.source)
  }

  /** Each move is of a titled file to a different path. */
  predicate MovesTitled(env: FilesEnv, moves: seq<Move>) {
    forall i :: 0 <= i < |moves| ==> Titled(env, moves[i])
  }

  predicate Titled(env: FilesEnv, m: Move) {
    RenameCommon.Truthy(env.tagsOf(m.source).title) && m.source != m.target
  }

  lemma FileStepPaired(env: FilesEnv, st: FilesState, disc: int, totalTracks: nat, track: int, filePath: string)
    requires Paired(env, st.rows, st.moves)
    ensures var r := FileStep(env, st, disc, totalTracks, track, filePath);
      Paired(env, r.rows, r.moves)
  {
    var e := TrackRef(disc, totalTracks, track, filePath);
    var p := PlanOf(env, e);
    if p.Go? {
      AlbumRun.TitledPlan(env, e);
      RowShowsMove(env, e);
    }
    ActPaired(env, st, p);
  }

  /** The row of a titled file shows its move to its new path. */
  lemma RowShowsMove(env: FilesEnv, e: TrackRef)
    requires HasTitle(env, e.filePath)
    ensures Shows(env, RowOf(env, e), Move(e.filePath, NewPathOf(env, e)))
  {
    Text.PathJoinAssoc(env.folderPath, DiscFolderNameOf(env, e), NewNameOf(env, e));
  }

  /** A plan whose row shows its move, of a titled file, keeps the table
      paired with the moves. */
  lemma ActPaired(env: FilesEnv, st: FilesState, p: FilePlan)
    requires Paired(env, st.rows, st.moves)
    requires p.Go? ==> Shows(env, p.row, Move(p.source, p.target)) && RenameCommon.Truthy(env.tagsOf(p.source).title)
    ensures var r := Act(st, p);
      Paired(env, r.rows, r.moves)
  {
    if p.Go? && p.source != p.target && p.target !in st.existing + {p.folder} {
      PairedSnoc(env, st.rows, st.moves, p.row, Move(p.source, p.target));
    }
  }

  lemma PairedSnoc(env: FilesEnv, rows: seq<Ordering.StrRow>, moves: seq<Move>, row: Ordering.StrRow, m: Move)
    requires Paired(env, rows, moves)
    requires Shows(env, row, m) && Titled(env, m)
    ensures Paired(env, rows + [row], moves + [m])
  {
    var rs, ms := rows + [row], moves + [m];
    forall i | 0 <= i < |rs|
      ensures Shows(env, rs[i], ms[i]) && Titled(env, ms[i])
    {
      if i < |rows| {
        assert rs[i] == rows[i] && ms[i] == moves[i];
      }
    }
  }

  lemma {:induction false} TracksRunPaired(env: FilesEnv, st: FilesState, disc: int, totalTracks: nat, tracks: Dict.Dict<string>)
    requires Paired(env, st.rows, st.moves)
    ensures var r := TracksRun(env, st, disc, totalTracks, tracks);
      Paired(env, r.rows, r.moves)
    decreases |tracks|
  {
    if |tracks| > 0 {
      FileStepPaired(env, st, disc, totalTracks, tracks[0].0, tracks[0].1);
      TracksRunPaired(env, FileStep(env, st, disc, totalTracks, tracks[0].0, tracks[0].1), disc, totalTracks, tracks[1..]);
    }
  }

  lemma {:induction false} DiscsRunPaired(env: FilesEnv, st: FilesState, ds: Dict.Dict<Dict.Dict<string>>)
    requires Paired(env, st.rows, st.moves)
    ensures var r := DiscsRun(env, st, ds);
      Paired(env, r.rows, r.moves)
    decreases |ds|
  {
    if |ds| > 0 {
      TracksRunPaired(env, st, ds[0].0, |ds[0].1|, ds[0].1);
      DiscsRunPaired(env, TracksRun(env, st, ds[0].0, |ds[0].1|, ds[0].1), ds[1..]);
    }
  }

  /** The printed table has one row per move, each naming the file's old
      name and where it went, relative to the album folder; only files with
      a title are moved, and never onto themselves. */
  lemma RunAlbumReport(
    naming: Naming, folderPath: string, folderTrackData: Dict.Dict<Dict.Dict<string>>,
    tagsOf: string -> TrackTags, properCount: (int, int) -> string, clean: string -> string,
    noMove: bool, existing: set<string>)
    ensures var r := AlbumRun.RunAlbum(naming, folderPath, folderTrackData, tagsOf, properCount, clean, noMove, existing);
      && |r.table| == |r.moves|
      && (forall row :: row in r.table ==>
            exists i :: (0 <= i < |r.moves| && r.moves[i].target == Text.PathJoin(folderPath, row.3)
              && row.2 == OldName(naming, r.moves[i].source)))
      && (forall m :: m in r.moves ==> RenameCommon.Truthy(tagsOf(m.source).title) && m.source != m.target)
  {
    var env := AlbumEnv(naming, folderPath, folderTrackData, tagsOf, properCount, clean, noMove);
    var st := DiscsRun(env, FilesState(existing, [], []), folderTrackData);
    DiscsRunPaired(env, FilesState(existing, [], []), folderTrackData);
    var r := AlbumRun.RunAlbum(naming, folderPath, folderTrackData, tagsOf, properCount, clean, noMove, existing);
    assert r.table == Ordering.SortStrRows(st.rows) && r.moves == st.moves;
    ReportOfPaired(env, st.rows, st.moves, r.table);
  }

  /** A reordering of paired rows still shows the moves. */
  lemma ReportOfPaired(env: FilesEnv, rows: seq<Ordering.StrRow>, moves: seq<Move>, table: seq<Ordering.StrRow>)
    requires Paired(env, rows, moves) && multiset(table) == multiset(rows)
    ensures |table| == |moves|
    ensures forall row :: row in table ==> exists i :: 0 <= i < |moves| && Shows(env, row, moves[i])
    ensures forall m :: m in moves ==> Titled(env, m)
  {
    assert |table| == |rows| by {
      assert |multiset(table)| == |multiset(rows)|;
    }
    forall row | row in table
      ensures exists i :: 0 <= i < |moves| && Shows(env, row, moves[i])
    {
      assert row in multiset(rows);
      var i :| 0 <= i < |rows| && rows[i] == row;
      assert Shows(env, row, moves[i]);
    }
  }
}
