/** Modules/Rename/renameUtils.py, the older renamer: the album folder is
    named by fixed rules rather than a template, and `renameAlbumFiles`
    decides "single" over the whole album and cleans the extension with
    the name. Its `countAudioFiles` is `RenameCommon.CountAudioFiles` and
    its `renameFiles` is `RenameWalk.LegacyRenameFiles`. */
module RenameUtilsLegacy {
  import opened Wrappers
  import Text
  import Dict
  import Ordering
  import PosixPath
  import RenameCommon
  import RenameUtils
  import AlbumFiles
  import AlbumRun

  // ---------------------------------------------------------------------------
  // renameAlbumFolder

  /** The optional segments of a folder name: "[date] " before the album
      and " [catalog]" after it, each only when the value is truthy. */
  function DatePrefix(date: Option<string>): string {
    if RenameCommon.Truthy(date) then "[" + date.value + "] " else ""
  }

  function CatalogSuffix(catalog: Option<string>): string {
    if RenameCommon.Truthy(catalog) then " [" + catalog.value + "]" else ""
  }

  /** The four cases of `renameAlbumFolder`, before `cleanName`. */
  function FolderName(albumName: string, catalog: Option<string>, date: Option<string>): string {
    if RenameCommon.Truthy(catalog) && RenameCommon.Truthy(date) then
      "[" + date.value + "] " + albumName + " [" + catalog.value + "]"
    else if RenameCommon.Truthy(catalog) then albumName + " [" + catalog.value + "]"
    else if RenameCommon.Truthy(date) then "[" + date.value + "] " + albumName
    else albumName
  }

  /** The four cases are one rule: the date segment, the album, and the
      catalog segment, each segment present exactly when its value is. */
  lemma FolderNameSegments(albumName: string, catalog: Option<string>, date: Option<string>)
    ensures FolderName(albumName, catalog, date) == DatePrefix(date) + albumName + CatalogSuffix(catalog)
  {
    if RenameCommon.Truthy(catalog) && RenameCommon.Truthy(date) {
      assert "[" + date.value + "] " + albumName + " [" + catalog.value + "]"
        == ("[" + date.value + "] ") + albumName + (" [" + catalog.value + "]");
    } else if RenameCommon.Truthy(catalog) {
      assert albumName + " [" + catalog.value + "]" == "" + albumName + (" [" + catalog.value + "]");
    } else if RenameCommon.Truthy(date) {
      assert "[" + date.value + "] " + albumName == ("[" + date.value + "] ") + albumName + "";
    } else {
      assert albumName == "" + albumName + "";
    }
  }

  /** `renameAlbumFolder`: no audio file ends it; with `sameFolderName` the
      folder's own name stands in for the album and nothing else can end
      it; otherwise a missing album tag ends it. The cleaned name is tried
      next to the folder, and the folder is renamed when the name differs
      and nothing is there yet. */
  function RenameAlbumFolder(
    folderPath: string, sameFolderName: bool, audio: Option<RenameUtils.AlbumAudio>,
    clean: string -> string, existing: set<string>): (r: RenameUtils.FolderOutcome)
    ensures r.NoAudioFile? <==> audio.None?
    ensures r.NoAlbumName? <==> audio.Some? && !sameFolderName && audio.value.album.None?
    ensures r.Attempted? ==>
      var a := audio.value;
      var albumName := if sameFolderName then Text.BaseName(folderPath) else a.album.value;
      && r.newName == clean(DatePrefix(RenameCommon.ChosenDate(a.fixedDate, a.fixedYear)) + albumName + CatalogSuffix(a.catalog))
      && r.target == Text.PathJoin(PosixPath.DirName(folderPath), r.newName)
      && (r.attempt == RenameCommon.Renamed <==> Text.BaseName(folderPath) != r.newName && r.target !in existing)
      && (r.attempt == RenameCommon.Renamed ==> r.target in r.existing && (folderPath !in r.existing || folderPath == r.target))
      && (r.attempt != RenameCommon.Renamed ==> r.existing == existing)
  {
    if audio.None? then RenameUtils.NoAudioFile
    else
      var a := audio.value;
      var album := if sameFolderName then Some(Text.BaseName(folderPath)) else a.album;
      if album.None? then RenameUtils.NoAlbumName
      else
        var date := RenameCommon.ChosenDate(a.fixedDate, a.fixedYear);
        FolderNameSegments(album.value, a.catalog, date);
        var newName := clean(FolderName(album.value, a.catalog, date));
        var target := Text.PathJoin(PosixPath.DirName(folderPath), newName);
        var (attempt, after) := RenameCommon.TryRename(existing, Text.BaseName(folderPath) != newName, folderPath, target);
        RenameUtils.Attempted(newName, target, attempt, after)
  }

  // ---------------------------------------------------------------------------
  // renameAlbumFiles

  /** `renameAlbumFiles`: a single-track album drops the track number, the
      extension is cleaned with the name, and the table shows the old name
      without its extension. */
  function RenameAlbumFiles(
    folderPath: string, folderTrackData: Dict.Dict<Dict.Dict<string>>,
    tagsOf: string -> AlbumFiles.TrackTags, properCount: (int, int) -> string, clean: string -> string,
    noMove: bool, existing: set<string>): (r: AlbumFiles.FilesResult)
    ensures forall i, j :: 0 <= i < j < |r.table| ==> Ordering.StrRowLe(r.table[i], r.table[j])
    ensures var env := AlbumFiles.AlbumEnv(AlbumFiles.WholeAlbum, folderPath, folderTrackData, tagsOf, properCount, clean, noMove);
      forall m :: m in r.moves ==> AlbumFiles.Planned(env, AlbumFiles.AlbumEntries(folderTrackData), m)
    ensures var env := AlbumFiles.AlbumEnv(AlbumFiles.WholeAlbum, folderPath, folderTrackData, tagsOf, properCount, clean, noMove);
      var es := AlbumFiles.AlbumEntries(folderTrackData);
      forall k :: 0 <= k < |es| && AlbumFiles.FreeAtTurn(env, existing, es, k) ==>
        AlbumFiles.Move(es[k].filePath, AlbumFiles.NewPathOf(env, es[k])) in r.moves
  {
    AlbumRun.RunAlbum(AlbumFiles.WholeAlbum, folderPath, folderTrackData, tagsOf, properCount, clean, noMove, existing)
  }

  // ---------------------------------------------------------------------------
  // organizeAlbum

  /** `organizeAlbum`: the files first, with the table shown, then the
      folder, which sees the paths as the file renames left them. The
      folder is never renamed onto a path that exists after the files. */
  function OrganizeAlbum(
    folderPath: string, sameFolderName: bool, folderTrackData: Dict.Dict<Dict.Dict<string>>,
    tagsOf: string -> AlbumFiles.TrackTags, properCount: (int, int) -> string, clean: string -> string,
    audio: Option<RenameUtils.AlbumAudio>, existing: set<string>): (r: (AlbumFiles.FilesResult, RenameUtils.FolderOutcome))
    ensures forall i, j :: 0 <= i < j < |r.0.table| ==> Ordering.StrRowLe(r.0.table[i], r.0.table[j])
    ensures r.1.NoAudioFile? <==> audio.None?
    ensures r.1.NoAlbumName? <==> audio.Some? && !sameFolderName && audio.value.album.None?
    ensures r.1.Attempted? && r.1.attempt == RenameCommon.Renamed ==>
      r.1.target !in r.0.existing && r.1.target in r.1.existing
  {
    var files := RenameAlbumFiles(folderPath, folderTrackData, tagsOf, properCount, clean, false, existing);
    (files, RenameAlbumFolder(folderPath, sameFolderName, audio, clean, files.existing))
  }
}
