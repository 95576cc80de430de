/** The `renameAlbumFiles` loop that Modules/Rename/utils.py and
    Modules/Rename/renameUtils.py share: for each disc, for each track, a
    file with a title gets a new name, built from its track number and
    title, inside its disc folder, and is moved there when that path is
    different and free. The two differ in three details, which `Naming`
    selects: whether "single" means the disc or the whole album has one
    track, whether the extension is cleaned with the name, and whether the
    table shows the old name with its extension. */
module AlbumFiles {
  import opened Wrappers
  import Text
  import Dict
  import Ordering
  import RenameCommon

  /** `PerDisc` is Modules/Rename/utils.py, `WholeAlbum` is
      Modules/Rename/renameUtils.py. */
  datatype Naming = PerDisc | WholeAlbum

  /** The tags read from one file. */
  datatype TrackTags = TrackTags(title: Option<string>, discName: Option<string>)

  /** What stays fixed during one call: the album folder, the tag reader,
      `getProperCount`, `cleanName`, `noMove`, the number of discs and of
      tracks, and which of the two renamers runs. */
  datatype FilesEnv = FilesEnv(
    folderPath: string, tagsOf: string -> TrackTags, properCount: (int, int) -> string,
    clean: string -> string, noMove: bool, totalDiscs: nat, albumTracks: nat, naming: Naming)

  datatype Move = Move(source: string, target: string)

  /** The paths that exist, the table rows so far, and the moves made. */
  datatype FilesState = FilesState(existing: set<string>, rows: seq<Ordering.StrRow>, moves: seq<Move>)

  /** Whether a file is named without its track number. */
  function IsSingle(env: FilesEnv, totalTracks: nat): bool {
    match env.naming
    case PerDisc => totalTracks == 1
    case WholeAlbum => env.albumTracks == 1
  }

  /** The new file name: the title, prefixed by the track number unless
      single, cleaned; `PerDisc` then appends the extension as it was,
      `WholeAlbum` cleans it with the rest. */
  function FileName(naming: Naming, isSingle: bool, trackNumber: string, title: string, extension: string, clean: string -> string): (r: string)
    ensures naming == PerDisc ==> Text.EndsWith(r, extension)
    ensures naming == PerDisc ==> r == clean(if isSingle then title else trackNumber + " - " + title) + extension
    ensures naming == WholeAlbum && isSingle ==> r == clean(title + extension)
    ensures naming == WholeAlbum && !isSingle ==> r == clean(trackNumber + " - " + title + extension)
  {
    var stem := if isSingle then title else trackNumber + " - " + title;
    match naming
    case PerDisc =>
      var name := clean(stem);
      assert (name + extension)[|name|..] == extension;
      name + extension
    case WholeAlbum =>
      assert stem + extension == (if isSingle then title + extension else trackNumber + " - " + title + extension);
      clean(stem + extension)
  }

  /** The old name the table shows. */
  function OldName(naming: Naming, filePath: string): string {
    match naming
    case PerDisc => Text.BaseName(filePath)
    case WholeAlbum => Text.SplitExt(Text.BaseName(filePath)).0
  }

  /** One file of the loop: skipped without a title; else its disc folder
      is made, and it is renamed to the new name there when that path is
      different and free, with a table row for each rename. */
  function FileStep(env: FilesEnv, st: FilesState, disc: int, totalTracks: nat, track: int, filePath: string): FilesState {
    EntryStep(env, st, TrackRef(disc, totalTracks, track, filePath))
  }

  /** A titled file's turn: its disc folder is made, and it is renamed to
      its new path when that differs and is free, with a table row. */
  function Turn(st: FilesState, source: string, folder: string, target: string, row: Ordering.StrRow): FilesState {
    var tried := RenameCommon.TryRename(st.existing + {folder}, source != target, source, target);
    if tried.0 == RenameCommon.Renamed then
      FilesState(tried.1, st.rows + [row], st.moves + [Move(source, target)])
    else FilesState(tried.1, st.rows, st.moves)
  }

  /** A turn moves the file exactly when its target differs and is neither
      an existing path nor its disc folder; afterwards the paths are those
      before, plus at most the folder and the target. */
  lemma TurnOutcome(st: FilesState, source: string, folder: string, target: string, row: Ordering.StrRow)
    ensures var r := Turn(st, source, folder, target, row);
      && (source != target && target !in st.existing + {folder} ==> r.moves == st.moves + [Move(source, target)])
      && (!(source != target && target !in st.existing + {folder}) ==> r.moves == st.moves)
      && r.existing <= st.existing + {folder, target}
  {
  }

  /** The tracks of one disc, in order. */
  function TracksRun(env: FilesEnv, st: FilesState, disc: int, totalTracks: nat, tracks: Dict.Dict<string>): FilesState
    decreases |tracks|
  {
    if |tracks| == 0 then st
    else TracksRun(env, FileStep(env, st, disc, totalTracks, tracks[0].0, tracks[0].1), disc, totalTracks, tracks[1..])
  }

  /** The discs, in order, each with its own track count. */
  function DiscsRun(env: FilesEnv, st: FilesState, ds: Dict.Dict<Dict.Dict<string>>): FilesState
    decreases |ds|
  {
    if |ds| == 0 then st
    else DiscsRun(env, TracksRun(env, st, ds[0].0, |ds[0].1|, ds[0].1), ds[1..])
  }

  datatype FilesResult = FilesResult(existing: set<string>, table: seq<Ordering.StrRow>, moves: seq<Move>)

  /** What one call of `renameAlbumFiles` keeps fixed. */
  function AlbumEnv(
    naming: Naming, folderPath: string, folderTrackData: Dict.Dict<Dict.Dict<string>>,
    tagsOf: string -> TrackTags, properCount: (int, int) -> string, clean: string -> string,
    noMove: bool): FilesEnv
  {
    FilesEnv(folderPath, tagsOf, properCount, clean, noMove, |folderTrackData|, Dict.Size2(folderTrackData), naming)
  }

  // ---------------------------------------------------------------------------
  // The loop as one run over the files

  /** One file of the loop: its disc number, its disc's track count, its
      track number and its path. */
  datatype TrackRef = TrackRef(disc: int, totalTracks: nat, track: int, filePath: string)

  /** The files of one disc, in order. */
  function TrackEntries(disc: int, totalTracks: nat, tracks: Dict.Dict<string>): (r: seq<TrackRef>)
    ensures |r| == |tracks|
    ensures forall k :: 0 <= k < |tracks| ==> r[k] == TrackRef(disc, totalTracks, tracks[k].0, tracks[k].1)
    decreases |tracks|
  {
    if |tracks| == 0 then []
    else [TrackRef(disc, totalTracks, tracks[0].0, tracks[0].1)] + TrackEntries(disc, totalTracks, tracks[1..])
  }

  /** The files of the album, disc by disc, each with its own disc's track
      count. */
  function AlbumEntries(ds: Dict.Dict<Dict.Dict<string>>): (r: seq<TrackRef>)
    ensures |r| == Dict.Size2(ds)
    ensures forall e :: e in r ==> exists i, k :: 0 <= i < |ds| && 0 <= k < |ds[i].1| && e == TrackRef(ds[i].0, |ds[i].1|, ds[i].1[k].0, ds[i].1[k].1)
    decreases |ds|
  {
    if |ds| == 0 then []
    else
      var head, tail := TrackEntries(ds[0].0, |ds[0].1|, ds[0].1), AlbumEntries(ds[1..]);
      assert forall e :: e in tail ==> exists i, k :: 0 <= i < |ds| && 0 <= k < |ds[i].1| && e == TrackRef(ds[i].0, |ds[i].1|, ds[i].1[k].0, ds[i].1[k].1) by {
        forall e | e in tail
          ensures exists i, k :: 0 <= i < |ds| && 0 <= k < |ds[i].1| && e == TrackRef(ds[i].0, |ds[i].1|, ds[i].1[k].0, ds[i].1[k].1)
        {
          var i, k :| 0 <= i < |ds[1..]| && 0 <= k < |ds[1..][i].1| && e == TrackRef(ds[1..][i].0, |ds[1..][i].1|, ds[1..][i].1[k].0, ds[1..][i].1[k].1);
          assert ds[1..][i] == ds[i + 1];
        }
      }
      head + tail
  }

  /** What a file's turn does: nothing without a title; else its disc
      folder is made and it is moved from `source` to `target` when that
      path differs and is free, with table row `row`. */
  datatype FilePlan = Skip | Go(source: string, folder: string, target: string, row: Ordering.StrRow)

  /** The plan of one file of the loop. */
  function PlanOf(env: FilesEnv, e: TrackRef): FilePlan {
    if !HasTitle(env, e.filePath) then Skip
    else Go(e.filePath, DiscFolderPathOf(env, e), NewPathOf(env, e), RowOf(env, e))
  }

  function Act(st: FilesState, p: FilePlan): FilesState {
    match p
    case Skip => st
    case Go(source, folder, target, row) => Turn(st, source, folder, target, row)
  }

  /** The turn of one file of the loop. */
  function EntryStep(env: FilesEnv, st: FilesState, e: TrackRef): FilesState {
    Act(st, PlanOf(env, e))
  }

  /** The loop over a run of files. */
  function Steps(env: FilesEnv, st: FilesState, es: seq<TrackRef>): FilesState
    decreases |es|
  {
    if |es| == 0 then st else Steps(env, EntryStep(env, st, es[0]), es[1..])
  }

  /** The plans of a run of files, one per file. */
  function Plans(env: FilesEnv, es: seq<TrackRef>): (r: seq<FilePlan>)
    ensures |r| == |es|
    ensures forall k :: 0 <= k < |es| ==> r[k] == PlanOf(env, es[k])
    decreases |es|
  {
    if |es| == 0 then [] else [PlanOf(env, es[0])] + Plans(env, es[1..])
  }

  /** The turns of a run of plans. */
  function RunPlans(st: FilesState, ps: seq<FilePlan>): FilesState
    decreases |ps|
  {
    if |ps| == 0 then st else RunPlans(Act(st, ps[0]), ps[1..])
  }

  predicate HasTitle(env: FilesEnv, filePath: string) {
    RenameCommon.Truthy(env.tagsOf(filePath).title)
  }

  /** The name of the disc folder a file goes to. */
  function DiscFolderNameOf(env: FilesEnv, e: TrackRef): string {
    RenameCommon.DiscFolderName(e.disc, env.tagsOf(e.filePath).discName, env.totalDiscs, env.noMove)
  }

  /** The disc folder a file goes to. */
  function DiscFolderPathOf(env: FilesEnv, e: TrackRef): string {
    Text.PathJoin(env.folderPath, DiscFolderNameOf(env, e))
  }

  /** The new name of a titled file, from its track number and title. */
  function NewNameOf(env: FilesEnv, e: TrackRef): string
    requires HasTitle(env, e.filePath)
  {
    FileName(env.naming, IsSingle(env, e.totalTracks), env.properCount(e.track, e.totalTracks),
      env.tagsOf(e.filePath).title.value, Text.SplitExt(Text.BaseName(e.filePath)).1, env.clean)
  }

  /** Where a titled file goes: its new name inside its disc folder. */
  function NewPathOf(env: FilesEnv, e: TrackRef): string
    requires HasTitle(env, e.filePath)
  {
    Text.PathJoin(DiscFolderPathOf(env, e), NewNameOf(env, e))
  }

  /** The table row of a moved file: disc and track numbers, old name, and
      new path under the album folder. */
  function RowOf(env: FilesEnv, e: TrackRef): Ordering.StrRow
    requires HasTitle(env, e.filePath)
  {
    (env.properCount(e.disc, env.totalDiscs), env.properCount(e.track, e.totalTracks),
      OldName(env.naming, e.filePath), Text.PathJoin(DiscFolderNameOf(env, e), NewNameOf(env, e)))
  }

  /** Whether a file is moved at its turn, with `existing` the paths that
      exist then: it has a title, and its new path differs from its own
      and is free once its disc folder is made. */
  predicate MovesNow(env: FilesEnv, existing: set<string>, e: TrackRef) {
    && HasTitle(env, e.filePath)
    && e.filePath != NewPathOf(env, e)
    && NewPathOf(env, e) !in existing + {DiscFolderPathOf(env, e)}
  }

  /** The paths a file's turn can make: its disc folder and its new path. */
  function Made(env: FilesEnv, e: TrackRef): set<string> {
    if HasTitle(env, e.filePath) then {DiscFolderPathOf(env, e), NewPathOf(env, e)} else {}
  }

  /** The paths the turns of a run of files can make. */
  function Produced(env: FilesEnv, es: seq<TrackRef>): set<string>
    decreases |es|
  {
    if |es| == 0 then {} else Made(env, es[0]) + Produced(env, es[1..])
  }

  /** A move of a titled file among `es` to its new path. */
  predicate Planned(env: FilesEnv, es: seq<TrackRef>, m: Move) {
    exists e :: e in es && HasTitle(env, e.filePath) && m == Move(e.filePath, NewPathOf(env, e))
  }

  /** File `k` is sure to move: it has a title, and its new path differs
      from its own, did not exist at the start, is not its disc folder, and
      is no folder or new path of a file before it. */
  predicate FreeAtTurn(env: FilesEnv, existing: set<string>, es: seq<TrackRef>, k: nat)
    requires k < |es|
  {
    && HasTitle(env, es[k].filePath)
    && es[k].filePath != NewPathOf(env, es[k])
    && NewPathOf(env, es[k]) !in existing + Produced(env, es[..k]) + {DiscFolderPathOf(env, es[k])}
  }

  /** A file moves exactly when it has a title and its new path differs
      from its own and is free once its disc folder is made; afterwards the
      paths are those before, plus at most its disc folder and new path. */
  lemma FileStepMoves(env: FilesEnv, st: FilesState, e: TrackRef)
    ensures var r := EntryStep(env, st, e);
      && (MovesNow(env, st.existing, e) ==> r.moves == st.moves + [Move(e.filePath, NewPathOf(env, e))])
      && (!MovesNow(env, st.existing, e) ==> r.moves == st.moves)
      && r.existing <= st.existing + Made(env, e)
  {
    ActOutcome(st, PlanOf(env, e));
  }

  // ---------------------------------------------------------------------------
  // The run over plans

  /** Whether a plan moves its file when `existing` are the paths that
      exist: it is a move to a different path that is neither existing nor
      the disc folder just made. */
  predicate MovesBy(existing: set<string>, p: FilePlan) {
    p.Go? && p.source != p.target && p.target !in existing + {p.folder}
  }

  /** The paths a plan can make. */
  function MadeBy(p: FilePlan): set<string> {
    if p.Go? then {p.folder, p.target} else {}
  }

  /** The paths a run of plans can make. */
  function MadeByAll(ps: seq<FilePlan>): set<string>
    decreases |ps|
  {
    if |ps| == 0 then {} else MadeBy(ps[0]) + MadeByAll(ps[1..])
  }

  /** A move one of the plans asks for. */
  predicate PlannedBy(ps: seq<FilePlan>, m: Move) {
    exists p :: p in ps && p.Go? && m == Move(p.source, p.target)
  }

  /** The plan of file `k` is sure to move its file: its target differs from its
      source and is neither in `existing`, nor a path an earlier plan can
      make, nor its own disc folder. */
  predicate FreeAt(existing: set<string>, ps: seq<FilePlan>, k: nat)
    requires k < |ps|
  {
    && ps[k].Go?
    && ps[k].source != ps[k].target
    && ps[k].target !in existing + MadeByAll(ps[..k]) + {ps[k].folder}
  }

  /** One plan's turn moves the file exactly when `MovesBy` holds, and
      leaves the paths that were there plus at most what the plan makes. */
  lemma ActOutcome(st: FilesState, p: FilePlan)
    ensures var r := Act(st, p);
      && (MovesBy(st.existing, p) ==> r.moves == st.moves + [Move(p.source, p.target)])
      && (!MovesBy(st.existing, p) ==> r.moves == st.moves)
      && r.existing <= st.existing + MadeBy(p)
  {
    if p.Go? {
      TurnOutcome(st, p.source, p.folder, p.target, p.row);
    }
  }

}
