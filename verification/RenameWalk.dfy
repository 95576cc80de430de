/** `renameFilesInternal` and `organizeFiles` of Modules/Rename/utils.py,
    and `renameFiles` of Modules/Rename/renameUtils.py: every audio file
    of a folder with a title is renamed in place, to its cleaned title and
    extension (the older module puts the artist first when there is one),
    and each rename is numbered in a table.
    With `recur`, listed directories are walked too. The code as written
    asks whether the bare listed name is a directory, which is a question
    about the working directory rather than the folder being walked; the
    corrected walk joins the name to the folder first. The file system is
    a listing per folder, a directory test, and the set of paths that
    exist; `cleanName`, `fixDate` and the tag reader enter as parameters. */
module RenameWalk {
  import opened Wrappers
  import Text
  import Ordering
  import RenameCommon

  /** The tags `renameFilesInternal` reads from one file: title, artist,
      and `fixDate` of the date tag and of the "year" tag. */
  datatype FileTags = FileTags(
    title: Option<string>, artist: Option<string>,
    fixedDate: Option<string>, fixedYear: Option<string>)

  /** An optional string as an f-string shows it. */
  function Show(s: Option<string>): string {
    if s.Some? then s.value else "None"
  }

  /** The candidate names of the `names` dictionary, keyed 1 to 4. */
  function NameOption(choice: int, tags: FileTags, extension: string): string
    requires 1 <= choice <= 4
  {
    var title := Show(tags.title);
    var date := RenameCommon.ChosenDate(tags.fixedDate, tags.fixedYear);
    if choice == 1 then
      (if RenameCommon.Truthy(tags.artist) then tags.artist.value + " - " + title + extension else title + extension)
    else if choice == 2 then title + extension
    else if choice == 3 then "[" + Show(date) + "] " + title + extension
    else "[" + RenameCommon.Year(date) + "] " + title + extension
  }

  /** `multiTrackName, singleTrackName`: 2, 2 in Modules/Rename/utils.py
      and 1, 1 in the older Modules/Rename/renameUtils.py. */
  const MultiTrackChoice := 2
  const SingleTrackChoice := 2
  const LegacyMultiTrackChoice := 1
  const LegacySingleTrackChoice := 1

  function NameChoice(legacy: bool, totalTracks: nat): (r: int)
    ensures 1 <= r <= 4
  {
    if legacy then (if totalTracks == 1 then LegacySingleTrackChoice else LegacyMultiTrackChoice)
    else if totalTracks == 1 then SingleTrackChoice else MultiTrackChoice
  }

  /** The name a file should get, whatever the folder's audio count: the
      cleaned title and extension, the extension cleaned with it, and in
      the older module the artist and " - " first when there is an artist. */
  function IntendedName(legacy: bool, tags: FileTags, extension: string, clean: string -> string): string {
    if legacy && RenameCommon.Truthy(tags.artist) then clean(tags.artist.value + " - " + Show(tags.title) + extension)
    else clean(Show(tags.title) + extension)
  }

  /** `cleanName(names[nameChoice])`. */
  function EntryName(legacy: bool, tags: FileTags, extension: string, totalTracks: nat, clean: string -> string): (r: string)
    ensures r == IntendedName(legacy, tags, extension, clean)
  {
    clean(NameOption(NameChoice(legacy, totalTracks), tags, extension))
  }

  /** The file system and the helpers outside this model. `listingOf` is
      `os.listdir`, `isDir` is `os.path.isdir`, `countOf` is
      `countAudioFiles` of a folder; `legacy` selects the older module. */
  datatype WalkEnv = WalkEnv(
    tagsOf: string -> FileTags, clean: string -> string, supported: set<string>,
    listingOf: string -> seq<string>, isDir: string -> bool, countOf: string -> nat,
    recur: bool, legacy: bool)

  /** One rename: in `folder`, `oldName` became `newName`. */
  datatype Renaming = Renaming(folder: string, oldName: string, newName: string)

  /** The paths that exist, the shared `tableData`, and the renames made. */
  datatype WalkState = WalkState(existing: set<string>, table: seq<Ordering.NumberedRow>, renames: seq<Renaming>)

  // ---------------------------------------------------------------------------
  // Which listed entries are walked

  /** As written: `isdir` is asked about the bare listed name, which is walked as a path of
      its own. */
  function SubFolderAsWritten(env: WalkEnv, item: string): (r: Option<string>)
    ensures r.Some? <==> env.recur && env.isDir(item)
    ensures r.Some? ==> r.value == item
  {
    if env.recur && env.isDir(item) then Some(item) else None
  }

  /** Corrected: `isdir` is asked about the entry's path inside the folder, which is walked. */
  function SubFolder(env: WalkEnv, folderPath: string, item: string): (r: Option<string>)
    ensures r.Some? <==> env.recur && env.isDir(Text.PathJoin(folderPath, item))
    ensures r.Some? ==> r.value == Text.PathJoin(folderPath, item)
  {
    var path := Text.PathJoin(folderPath, item);
    if env.recur && env.isDir(path) then Some(path) else None
  }

  /** With only "/m/sub" a directory and the working directory elsewhere,
      the entry "sub" of "/m" is not walked as written, and is when joined. */
  lemma NestedFolderMissed(env: WalkEnv)
    requires env.recur && forall p :: env.isDir(p) <==> p == "/m/sub"
    ensures SubFolderAsWritten(env, "sub") == None
    ensures SubFolder(env, "/m", "sub") == Some("/m/sub")
  {
    assert "sub" != "/m/sub" by {
      assert |"sub"| == 3;
    }
    Text.PathJoinShape("/m", "sub");
    assert Text.JoinSep("/m") == "/";
    assert Text.PathJoin("/m", "sub") == "/m/sub";
  }

  // ---------------------------------------------------------------------------
  // The walk

  /** A listed file is renamed at its turn exactly when its extension is
      supported, it has a title, and its new name differs from its own and
      is free in the folder. */
  predicate RenamedAtTurn(env: WalkEnv, existing: set<string>, folderPath: string, item: string) {
    && RenameCommon.IsAudioName(item, env.supported)
    && RenameCommon.Truthy(env.tagsOf(Text.PathJoin(folderPath, item)).title)
    && item != NewName(env, folderPath, item)
    && Text.PathJoin(folderPath, NewName(env, folderPath, item)) !in existing
  }

  /** The new name of a listed file in `folderPath`. */
  function NewName(env: WalkEnv, folderPath: string, item: string): string {
    EntryName(env.legacy, env.tagsOf(Text.PathJoin(folderPath, item)), Text.SplitExt(item).1, env.countOf(folderPath), env.clean)
  }

  /** One listed file: skipped unless its extension is supported and it has
      a title; renamed when the new name differs and is free, and then
      numbered after the rows already in the table (in the older module the
      number is `renameCount`, which starts at 1 and grows with each row). */
  function FileEntry(env: WalkEnv, st: WalkState, folderPath: string, item: string): (r: WalkState)
    ensures var n := NewName(env, folderPath, item);
      RenamedAtTurn(env, st.existing, folderPath, item) ==>
        r.renames == st.renames + [Renaming(folderPath, item, n)] && r.table == st.table + [(|st.table| + 1, item, n)]
    ensures !RenamedAtTurn(env, st.existing, folderPath, item) ==> r.renames == st.renames && r.table == st.table
  {
    if !RenameCommon.IsAudioName(item, env.supported) then st
    else
      var filePath := Text.PathJoin(folderPath, item);
      var tags := env.tagsOf(filePath);
      if !RenameCommon.Truthy(tags.title) then st
      else
        var newName := NewName(env, folderPath, item);
        var tried := RenameCommon.TryRename(st.existing, item != newName, filePath, Text.PathJoin(folderPath, newName));
        if tried.0 == RenameCommon.Renamed then
          WalkState(tried.1, st.table + [(|st.table| + 1, item, newName)], st.renames + [Renaming(folderPath, item, newName)])
        else WalkState(tried.1, st.table, st.renames)
  }

  /** `renameFilesInternal` on one folder: its listing, in order. `depth`
      bounds how many folders deep the walk goes. */
  function Walk(env: WalkEnv, st: WalkState, folderPath: string, depth: nat, corrected: bool): WalkState
    decreases depth, 1
  {
    Entries(env, st, folderPath, env.listingOf(folderPath), depth, corrected)
  }

  /** The folder a listed entry leads into, tested as written or, with
      `corrected`, after joining it to the folder. */
  function SubOf(env: WalkEnv, folderPath: string, item: string, corrected: bool): Option<string> {
    if corrected then SubFolder(env, folderPath, item) else SubFolderAsWritten(env, item)
  }

  function Entries(env: WalkEnv, st: WalkState, folderPath: string, items: seq<string>, depth: nat, corrected: bool): WalkState
    decreases depth, 0, |items|
  {
    if |items| == 0 then st
    else
      var sub := SubOf(env, folderPath, items[0], corrected);
      var next :=
        if sub.None? then FileEntry(env, st, folderPath, items[0])
        else if depth > 0 then Walk(env, st, sub.value, depth - 1, corrected)
        else st;
      Entries(env, next, folderPath, items[1..], depth, corrected)
  }

  // ---------------------------------------------------------------------------
  // What the table says

  /** Row `i` is numbered `i + 1` and names the old and new name of rename `i`. */
  predicate Numbered(table: seq<Ordering.NumberedRow>, renames: seq<Renaming>) {
    && |table| == |renames|
    && forall i :: 0 <= i < |table| ==> table[i] == (i + 1, renames[i].oldName, renames[i].newName)
  }

  /** Each rename is of a titled audio file to its intended name, and to
      a name that differs. */
  predicate RenamesNamed(env: WalkEnv, renames: seq<Renaming>) {
    forall i :: 0 <= i < |renames| ==> Named(env, renames[i])
  }

  predicate Named(env: WalkEnv, r: Renaming) {
    var tags := env.tagsOf(Text.PathJoin(r.folder, r.oldName));
    && RenameCommon.IsAudioName(r.oldName, env.supported)
    && RenameCommon.Truthy(tags.title)
    && r.newName == IntendedName(env.legacy, tags, Text.SplitExt(r.oldName).1, env.clean)
    && r.oldName != r.newName
  }

  predicate Reported(env: WalkEnv, st: WalkState) {
    Numbered(st.table, st.renames) && RenamesNamed(env, st.renames)
  }

  lemma NumberedSnoc(table: seq<Ordering.NumberedRow>, renames: seq<Renaming>, r: Renaming)
    requires Numbered(table, renames)
    ensures Numbered(table + [(|table| + 1, r.oldName, r.newName)], renames + [r])
  {
    var t, rs := table + [(|table| + 1, r.oldName, r.newName)], renames + [r];
    forall i | 0 <= i < |t|
      ensures t[i] == (i + 1, rs[i].oldName, rs[i].newName)
    {
      if i < |table| {
        assert t[i] == table[i] && rs[i] == renames[i];
      }
    }
  }

  lemma RenamesNamedSnoc(env: WalkEnv, renames: seq<Renaming>, r: Renaming)
    requires RenamesNamed(env, renames) && Named(env, r)
    ensures RenamesNamed(env, renames + [r])
  {
    var rs := renames + [r];
    forall i | 0 <= i < |rs|
      ensures Named(env, rs[i])
    {
      if i < |renames| {
        assert rs[i] == renames[i];
      }
    }
  }

  lemma FileEntryReported(env: WalkEnv, st: WalkState, folderPath: string, item: string)
    requires Reported(env, st)
    ensures Reported(env, FileEntry(env, st, folderPath, item))
  {
    var r := FileEntry(env, st, folderPath, item);
    if r.renames != st.renames {
      var tags := env.tagsOf(Text.PathJoin(folderPath, item));
      var newName := EntryName(env.legacy, tags, Text.SplitExt(item).1, env.countOf(folderPath), env.clean);
      var m := Renaming(folderPath, item, newName);
      assert Named(env, m);
      NumberedSnoc(st.table, st.renames, m);
      RenamesNamedSnoc(env, st.renames, m);
    }
  }

  lemma {:induction false} WalkReported(env: WalkEnv, st: WalkState, folderPath: string, depth: nat, corrected: bool)
    requires Reported(env, st)
    ensures Reported(env, Walk(env, st, folderPath, depth, corrected))
    decreases depth, 1
  {
    EntriesReported(env, st, folderPath, env.listingOf(folderPath), depth, corrected);
  }

  lemma {:induction false} EntriesReported(
    env: WalkEnv, st: WalkState, folderPath: string, items: seq<string>, depth: nat, corrected: bool)
    requires Reported(env, st)
    ensures Reported(env, Entries(env, st, folderPath, items, depth, corrected))
    decreases depth, 0, |items|
  {
    if |items| > 0 {
      var sub := SubOf(env, folderPath, items[0], corrected);
      var next :=
        if sub.None? then FileEntry(env, st, folderPath, items[0])
        else if depth > 0 then Walk(env, st, sub.value, depth - 1, corrected)
        else st;
      if sub.None? {
        FileEntryReported(env, st, folderPath, items[0]);
      } else if depth > 0 {
        WalkReported(env, st, sub.value, depth - 1, corrected);
      }
      EntriesReported(env, next, folderPath, items[1..], depth, corrected);
    }
  }

  /** Without `recur` nothing is walked, and the walk is the same either way. */
  lemma {:induction false} FlatWalksAgree(
    env: WalkEnv, st: WalkState, folderPath: string, items: seq<string>, depth: nat)
    requires !env.recur
    ensures Entries(env, st, folderPath, items, depth, false) == Entries(env, st, folderPath, items, depth, true)
    decreases |items|
  {
    if |items| > 0 {
      FlatWalksAgree(env, FileEntry(env, st, folderPath, items[0]), folderPath, items[1..], depth);
    }
  }

  // ---------------------------------------------------------------------------
  // organizeFiles

  /** `organizeFiles`: the walk from an empty table, then
      `tableData.sort()`; `corrected` selects the corrected walk, and
      without it the walk is the code as written. */
  function OrganizeFiles(env: WalkEnv, existing: set<string>, folderPath: string, depth: nat, corrected: bool): (r: WalkState)
    requires !env.legacy
  {
    var st := Walk(env, WalkState(existing, [], []), folderPath, depth, corrected);
    WalkState(st.existing, Ordering.SortBy(Ordering.NumberedOrder(), st.table), st.renames)
  }

  /** The printed table lists the renames in the order they were made,
      numbered from 1, each from a titled audio file to its intended name;
      sorting it changes nothing. This holds for the walk as written and
      for the corrected one. */
  lemma OrganizeFilesReport(env: WalkEnv, existing: set<string>, folderPath: string, depth: nat, corrected: bool)
    requires !env.legacy
    ensures var r := OrganizeFiles(env, existing, folderPath, depth, corrected);
      && |r.table| == |r.renames|
      && (forall i :: 0 <= i < |r.table| ==> r.table[i] == (i + 1, r.renames[i].oldName, r.renames[i].newName))
      && (forall i :: 0 <= i < |r.renames| ==> Named(env, r.renames[i]))
  {
    var st := Walk(env, WalkState(existing, [], []), folderPath, depth, corrected);
    WalkReported(env, WalkState(existing, [], []), folderPath, depth, corrected);
    Ordering.SortNumberedAscending(st.table);
  }

  // ---------------------------------------------------------------------------
  // renameFiles of Modules/Rename/renameUtils.py

  /** The files of one folder that `os.walk` yields, in order. */
  function FolderFiles(env: WalkEnv, st: WalkState, root: string, files: seq<string>): WalkState
    decreases |files|
  {
    if |files| == 0 then st
    else FolderFiles(env, FileEntry(env, st, root, files[0]), root, files[1..])
  }

  /** Every (root, files) pair of `os.walk`, in order. */
  function WalkFolders(env: WalkEnv, st: WalkState, walk: seq<(string, seq<string>)>): WalkState
    decreases |walk|
  {
    if |walk| == 0 then st
    else WalkFolders(env, FolderFiles(env, st, walk[0].0, walk[0].1), walk[1..])
  }

  /** `renameFiles`: the walk from an empty table, then `tableData.sort()`.
      `walk` is what `os.walk(folderPath)` yields. */
  function LegacyRenameFiles(env: WalkEnv, existing: set<string>, walk: seq<(string, seq<string>)>): (r: WalkState)
    requires env.legacy
  {
    var st := WalkFolders(env, WalkState(existing, [], []), walk);
    WalkState(st.existing, Ordering.SortBy(Ordering.NumberedOrder(), st.table), st.renames)
  }

  lemma {:induction false} FolderFilesReported(env: WalkEnv, st: WalkState, root: string, files: seq<string>)
    requires Reported(env, st)
    ensures Reported(env, FolderFiles(env, st, root, files))
    decreases |files|
  {
    if |files| > 0 {
      FileEntryReported(env, st, root, files[0]);
      FolderFilesReported(env, FileEntry(env, st, root, files[0]), root, files[1..]);
    }
  }

  lemma {:induction false} WalkFoldersReported(env: WalkEnv, st: WalkState, walk: seq<(string, seq<string>)>)
    requires Reported(env, st)
    ensures Reported(env, WalkFolders(env, st, walk))
    decreases |walk|
  {
    if |walk| > 0 {
      FolderFilesReported(env, st, walk[0].0, walk[0].1);
      WalkFoldersReported(env, FolderFiles(env, st, walk[0].0, walk[0].1), walk[1..]);
    }
  }

  /** The table lists the renames in the order made, numbered by
      `renameCount` from 1 without gaps, each from a titled audio file to
      "artist - title" or "title" with its extension; sorting changes
      nothing. */
  lemma LegacyRenameFilesReport(env: WalkEnv, existing: set<string>, walk: seq<(string, seq<string>)>)
    requires env.legacy
    ensures var r := LegacyRenameFiles(env, existing, walk);
      && |r.table| == |r.renames|
      && (forall i :: 0 <= i < |r.table| ==> r.table[i] == (i + 1, r.renames[i].oldName, r.renames[i].newName))
      && (forall i :: 0 <= i < |r.renames| ==> Named(env, r.renames[i]))
  {
    var st := WalkFolders(env, WalkState(existing, [], []), walk);
    WalkFoldersReported(env, WalkState(existing, [], []), walk);
    Ordering.SortNumberedAscending(st.table);
  }
}
