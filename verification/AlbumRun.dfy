/** The `renameAlbumFiles` loop as one run over the album's files: the
    nested loop is the run over `AlbumEntries`, and that run is the run
    over the files' plans. From the run over plans follow which moves are
    made, and that every file that is sure to move is moved. */
module AlbumRun {
  import Dict
  import Ordering
  import opened AlbumFiles

  /** The tracks of a disc are its run of files. */
  lemma {:induction false} TracksRunSteps(env: FilesEnv, st: FilesState, disc: int, totalTracks: nat, tracks: Dict.Dict<string>)
    ensures TracksRun(env, st, disc, totalTracks, tracks) == Steps(env, st, TrackEntries(disc, totalTracks, tracks))
    decreases |tracks|
  {
    if |tracks| > 0 {
      var es := TrackEntries(disc, totalTracks, tracks);
      assert es[1..] == TrackEntries(disc, totalTracks, tracks[1..]);
      TracksRunSteps(env, FileStep(env, st, disc, totalTracks, tracks[0].0, tracks[0].1), disc, totalTracks, tracks[1..]);
    }
  }

  /** Running two runs of files in turn is running them joined. */
  lemma {:induction false} StepsAppend(env: FilesEnv, st: FilesState, a: seq<TrackRef>, b: seq<TrackRef>)
    ensures Steps(env, st, a + b) == Steps(env, Steps(env, st, a), b)
    decreases |a|
  {
    if |a| == 0 {
      assert a + b == b;
    } else {
      assert (a + b)[0] == a[0] && (a + b)[1..] == a[1..] + b;
      StepsAppend(env, EntryStep(env, st, a[0]), a[1..], b);
    }
  }

  /** The discs, in turn, are the album's run of files. */
  lemma {:induction false} DiscsRunSteps(env: FilesEnv, st: FilesState, ds: Dict.Dict<Dict.Dict<string>>)
    ensures DiscsRun(env, st, ds) == Steps(env, st, AlbumEntries(ds))
    decreases |ds|
  {
    if |ds| > 0 {
      var head := TrackEntries(ds[0].0, |ds[0].1|, ds[0].1);
      TracksRunSteps(env, st, ds[0].0, |ds[0].1|, ds[0].1);
      StepsAppend(env, st, head, AlbumEntries(ds[1..]));
      DiscsRunSteps(env, TracksRun(env, st, ds[0].0, |ds[0].1|, ds[0].1), ds[1..]);
    }
  }
  /** A run of plans only appends moves. */
  lemma {:induction false} RunGrow(st: FilesState, ps: seq<FilePlan>)
    ensures var r := RunPlans(st, ps);
      |st.moves| <= |r.moves| && r.moves[..|st.moves|] == st.moves
    decreases |ps|
  {
    if |ps| > 0 {
      var st1 := Act(st, ps[0]);
      ActOutcome(st, ps[0]);
      RunGrow(st1, ps[1..]);
      assert st1.moves[..|st.moves|] == st.moves;
    }
  }

  /** A run of plans leaves only paths that existed or that it can make. */
  lemma {:induction false} RunExisting(st: FilesState, ps: seq<FilePlan>)
    ensures RunPlans(st, ps).existing <= st.existing + MadeByAll(ps)
    decreases |ps|
  {
    if |ps| > 0 {
      ActOutcome(st, ps[0]);
      RunExisting(Act(st, ps[0]), ps[1..]);
    }
  }

  /** Every move a run of plans makes is one that a plan asks for. */
  lemma {:induction false} RunPlanned(st: FilesState, ps: seq<FilePlan>)
    ensures var r := RunPlans(st, ps);
      forall k :: |st.moves| <= k < |r.moves| ==> PlannedBy(ps, r.moves[k])
    decreases |ps|
  {
    if |ps| > 0 {
      var st1 := Act(st, ps[0]);
      var r := RunPlans(st1, ps[1..]);
      ActOutcome(st, ps[0]);
      RunPlanned(st1, ps[1..]);
      RunGrow(st1, ps[1..]);
      forall k | |st.moves| <= k < |r.moves|
        ensures PlannedBy(ps, r.moves[k])
      {
        if k < |st1.moves| {
          assert r.moves[k] == st1.moves[k];
        }
        PlannedByCons(ps, r.moves[k]);
      }
    }
  }

  /** A move the first plan or a later one asks for is asked for by the run. */
  lemma PlannedByCons(ps: seq<FilePlan>, m: Move)
    requires |ps| > 0
    requires (ps[0].Go? && m == Move(ps[0].source, ps[0].target)) || PlannedBy(ps[1..], m)
    ensures PlannedBy(ps, m)
  {
    if ps[0].Go? && m == Move(ps[0].source, ps[0].target) {
      assert ps[0] in ps;
    } else {
      var p :| p in ps[1..] && p.Go? && m == Move(p.source, p.target);
      assert p in ps;
    }
  }

  /** The plan of file `k` is carried out when its target is none of `base`, a
      superset of the paths at the start, nor a path an earlier plan can
      make, nor its disc folder. */
  lemma {:induction false} RunMovesFree(st: FilesState, ps: seq<FilePlan>, k: nat, base: set<string>)
    requires k < |ps| && st.existing <= base && FreeAt(base, ps, k)
    ensures Move(ps[k].source, ps[k].target) in RunPlans(st, ps).moves
    decreases k
  {
    var st1 := Act(st, ps[0]);
    ActOutcome(st, ps[0]);
    if k == 0 {
      assert ps[..0] == [];
      RunGrow(st1, ps[1..]);
      var r := RunPlans(st1, ps[1..]);
      assert r.moves[..|st1.moves|][|st.moves|] == Move(ps[0].source, ps[0].target);
    } else {
      assert ps[..k][1..] == ps[1..][..k - 1];
      assert ps[1..][k - 1] == ps[k];
      RunMovesFree(st1, ps[1..], k - 1, base + MadeBy(ps[0]));
    }
  }

  // ---------------------------------------------------------------------------
  // From plans back to files

  /** The run over files is the run over their plans. */
  lemma {:induction false} StepsRun(env: FilesEnv, st: FilesState, es: seq<TrackRef>)
    ensures Steps(env, st, es) == RunPlans(st, Plans(env, es))
    decreases |es|
  {
    if |es| > 0 {
      assert Plans(env, es)[1..] == Plans(env, es[1..]);
      StepsRun(env, EntryStep(env, st, es[0]), es[1..]);
    }
  }

  /** What the plans of a run of files can make is what its turns can make. */
  lemma {:induction false} PlansProduced(env: FilesEnv, es: seq<TrackRef>)
    ensures MadeByAll(Plans(env, es)) == Produced(env, es)
    decreases |es|
  {
    if |es| > 0 {
      assert Plans(env, es)[1..] == Plans(env, es[1..]);
      PlansProduced(env, es[1..]);
    }
  }

  /** A move the plans ask for is of a titled file to its new path. */
  lemma PlannedOf(env: FilesEnv, es: seq<TrackRef>, m: Move)
    requires PlannedBy(Plans(env, es), m)
    ensures Planned(env, es, m)
  {
    var ps := Plans(env, es);
    var p :| p in ps && p.Go? && m == Move(p.source, p.target);
    var k :| 0 <= k < |ps| && ps[k] == p;
    assert es[k] in es;
  }

  /** A file free at its turn has a plan free at its turn, moving it to its
      new path. */
  lemma FreeOf(env: FilesEnv, existing: set<string>, es: seq<TrackRef>, k: nat)
    requires k < |es| && FreeAtTurn(env, existing, es, k)
    ensures FreeAt(existing, Plans(env, es), k)
    ensures Plans(env, es)[k].source == es[k].filePath && Plans(env, es)[k].target == NewPathOf(env, es[k])
  {
    var ps := Plans(env, es);
    TitledPlan(env, es[k]);
    PlansPrefix(env, es, k);
    PlansProduced(env, es[..k]);
  }

  lemma TitledPlan(env: FilesEnv, e: TrackRef)
    requires HasTitle(env, e.filePath)
    ensures PlanOf(env, e) == Go(e.filePath, DiscFolderPathOf(env, e), NewPathOf(env, e), RowOf(env, e))
  {
  }

  /** The plans of the first files are the first plans. */
  lemma PlansPrefix(env: FilesEnv, es: seq<TrackRef>, k: nat)
    requires k <= |es|
    ensures Plans(env, es)[..k] == Plans(env, es[..k])
  {
    var a, b := Plans(env, es)[..k], Plans(env, es[..k]);
    forall j | 0 <= j < k
      ensures a[j] == b[j]
    {
      assert es[..k][j] == es[j];
    }
  }

  /** Every move a run of files makes is of one of its titled files, to
      that file's new path. */
  lemma StepsPlanned(env: FilesEnv, st: FilesState, es: seq<TrackRef>)
    ensures var r := Steps(env, st, es);
      forall k :: |st.moves| <= k < |r.moves| ==> Planned(env, es, r.moves[k])
  {
    var r := Steps(env, st, es);
    StepsRun(env, st, es);
    RunPlanned(st, Plans(env, es));
    forall k | |st.moves| <= k < |r.moves|
      ensures Planned(env, es, r.moves[k])
    {
      PlannedOf(env, es, r.moves[k]);
    }
  }

  /** A file that is sure to move at its turn is moved. */
  lemma StepsMoveFree(env: FilesEnv, st: FilesState, es: seq<TrackRef>)
    ensures var r := Steps(env, st, es);
      forall k :: 0 <= k < |es| && FreeAtTurn(env, st.existing, es, k) ==> Move(es[k].filePath, NewPathOf(env, es[k])) in r.moves
  {
    StepsRun(env, st, es);
    forall k | 0 <= k < |es| && FreeAtTurn(env, st.existing, es, k)
      ensures Move(es[k].filePath, NewPathOf(env, es[k])) in Steps(env, st, es).moves
    {
      FreeOf(env, st.existing, es, k);
      RunMovesFree(st, Plans(env, es), k, st.existing);
    }
  }


  // ---------------------------------------------------------------------------
  // The whole call

  /** The whole loop over `folderTrackData` from an empty table, then
      `tableData.sort()`. Every move takes a titled file of the album to
      its new name in its disc folder, and every titled file is moved
      there when, at its turn, that path differs from its own and is
      neither an existing path nor a folder or new path of an earlier
      file. */
  function RunAlbum(
    naming: Naming, folderPath: string, folderTrackData: Dict.Dict<Dict.Dict<string>>,
    tagsOf: string -> TrackTags, properCount: (int, int) -> string, clean: string -> string,
    noMove: bool, existing: set<string>): (r: FilesResult)
    ensures forall i, j :: 0 <= i < j < |r.table| ==> Ordering.StrRowLe(r.table[i], r.table[j])
    ensures var env := AlbumEnv(naming, folderPath, folderTrackData, tagsOf, properCount, clean, noMove);
      forall m :: m in r.moves ==> Planned(env, AlbumEntries(folderTrackData), m)
    ensures var env := AlbumEnv(naming, folderPath, folderTrackData, tagsOf, properCount, clean, noMove);
      var es := AlbumEntries(folderTrackData);
      forall k :: 0 <= k < |es| && FreeAtTurn(env, existing, es, k) ==> Move(es[k].filePath, NewPathOf(env, es[k])) in r.moves
  {
    var env := AlbumEnv(naming, folderPath, folderTrackData, tagsOf, properCount, clean, noMove);
    var st0 := FilesState(existing, [], []);
    var st := DiscsRun(env, st0, folderTrackData);
    DiscsRunSteps(env, st0, folderTrackData);
    StepsPlanned(env, st0, AlbumEntries(folderTrackData));
    StepsMoveFree(env, st0, AlbumEntries(folderTrackData));
    FilesResult(st.existing, Ordering.SortStrRows(st.rows), st.moves)
  }
}
