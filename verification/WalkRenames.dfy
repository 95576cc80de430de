/** Which files the rename walks rename: every file whose new name
    differs from its own and is free when its turn comes, in
    `renameFilesInternal` and `organizeFiles` of Modules/Rename/utils.py
    and in `renameFiles` of Modules/Rename/renameUtils.py. Renames are only
    ever appended, and a walk splits at any point of its listing, so a
    rename made at a file's turn is still there at the end. */
module WalkRenames {
  import opened RenameWalk

  // ---------------------------------------------------------------------------
  // renameFilesInternal

  /** A walk only appends renames. */
  lemma {:induction false} WalkGrow(env: WalkEnv, st: WalkState, folderPath: string, depth: nat, corrected: bool)
    ensures var r := Walk(env, st, folderPath, depth, corrected);
      |st.renames| <= |r.renames| && r.renames[..|st.renames|] == st.renames
    decreases depth, 1
  {
    EntriesGrow(env, st, folderPath, env.listingOf(folderPath), depth, corrected);
  }

  lemma {:induction false} EntriesGrow(
    env: WalkEnv, st: WalkState, folderPath: string, items: seq<string>, depth: nat, corrected: bool)
    ensures var r := Entries(env, st, folderPath, items, depth, corrected);
      |st.renames| <= |r.renames| && r.renames[..|st.renames|] == st.renames
    decreases depth, 0, |items|
  {
    if |items| > 0 {
      var sub := SubOf(env, folderPath, items[0], corrected);
      var next :=
        if sub.None? then FileEntry(env, st, folderPath, items[0])
        else if depth > 0 then Walk(env, st, sub.value, depth - 1, corrected)
        else st;
      if sub.None? {
        FileEntryGrow(env, st, folderPath, items[0]);
      } else if depth > 0 {
        WalkGrow(env, st, sub.value, depth - 1, corrected);
      }
      EntriesGrow(env, next, folderPath, items[1..], depth, corrected);
      var r := Entries(env, next, folderPath, items[1..], depth, corrected);
      assert r.renames[..|st.renames|] == r.renames[..|next.renames|][..|st.renames|];
    }
  }

  lemma FileEntryGrow(env: WalkEnv, st: WalkState, folderPath: string, item: string)
    ensures var r := FileEntry(env, st, folderPath, item);
      |st.renames| <= |r.renames| && r.renames[..|st.renames|] == st.renames
  {
    var r := FileEntry(env, st, folderPath, item);
    if RenamedAtTurn(env, st.existing, folderPath, item) {
      assert r.renames[..|st.renames|] == st.renames;
    }
  }

  /** Walking a listing is walking its first part, then the rest. */
  lemma {:induction false} EntriesAppend(
    env: WalkEnv, st: WalkState, folderPath: string, a: seq<string>, b: seq<string>, depth: nat, corrected: bool)
    ensures Entries(env, st, folderPath, a + b, depth, corrected)
         == Entries(env, Entries(env, st, folderPath, a, depth, corrected), folderPath, b, depth, corrected)
    decreases |a|
  {
    if |a| == 0 {
      assert a + b == b;
    } else {
      assert (a + b)[0] == a[0] && (a + b)[1..] == a[1..] + b;
      var sub := SubOf(env, folderPath, a[0], corrected);
      var next :=
        if sub.None? then FileEntry(env, st, folderPath, a[0])
        else if depth > 0 then Walk(env, st, sub.value, depth - 1, corrected)
        else st;
      EntriesAppend(env, next, folderPath, a[1..], b, depth, corrected);
    }
  }

  /** A listed file that is no folder to walk, and whose new name differs
      and is free when its turn comes, after the entries `a`, is renamed to
      that name. */
  lemma EntriesRenameFree(
    env: WalkEnv, st: WalkState, folderPath: string, a: seq<string>, item: string, b: seq<string>, depth: nat, corrected: bool)
    requires SubOf(env, folderPath, item, corrected).None?
    requires RenamedAtTurn(env, Entries(env, st, folderPath, a, depth, corrected).existing, folderPath, item)
    ensures Renaming(folderPath, item, NewName(env, folderPath, item)) in Entries(env, st, folderPath, a + ([item] + b), depth, corrected).renames
  {
    assert ([item] + b)[0] == item;
    TurnRenames(env, Entries(env, st, folderPath, a, depth, corrected), folderPath, [item] + b, depth, corrected);
    EntriesAppend(env, st, folderPath, a, [item] + b, depth, corrected);
  }

  /** A first listed file renamed at its turn stays renamed to the end of
      the listing. */
  lemma TurnRenames(env: WalkEnv, st: WalkState, folderPath: string, items: seq<string>, depth: nat, corrected: bool)
    requires |items| > 0 && SubOf(env, folderPath, items[0], corrected).None?
    requires RenamedAtTurn(env, st.existing, folderPath, items[0])
    ensures Renaming(folderPath, items[0], NewName(env, folderPath, items[0])) in Entries(env, st, folderPath, items, depth, corrected).renames
  {
    var next := FileEntry(env, st, folderPath, items[0]);
    assert Entries(env, st, folderPath, items, depth, corrected) == Entries(env, next, folderPath, items[1..], depth, corrected);
    EntriesGrow(env, next, folderPath, items[1..], depth, corrected);
    var r := Entries(env, next, folderPath, items[1..], depth, corrected);
    assert r.renames[..|next.renames|][|st.renames|] == next.renames[|st.renames|];
  }

  // ---------------------------------------------------------------------------
  // organizeFiles

  /** A file listed directly in the folder, and not walked as a folder, is
      renamed to its new name when at its turn that name differs and is
      free. */
  lemma OrganizeFilesRenameFree(
    env: WalkEnv, existing: set<string>, folderPath: string, depth: nat, corrected: bool,
    a: seq<string>, item: string, b: seq<string>)
    requires !env.legacy && env.listingOf(folderPath) == a + ([item] + b)
    requires SubOf(env, folderPath, item, corrected).None?
    requires RenamedAtTurn(env, Entries(env, WalkState(existing, [], []), folderPath, a, depth, corrected).existing, folderPath, item)
    ensures Renaming(folderPath, item, NewName(env, folderPath, item)) in OrganizeFiles(env, existing, folderPath, depth, corrected).renames
  {
    EntriesRenameFree(env, WalkState(existing, [], []), folderPath, a, item, b, depth, corrected);
  }

  // ---------------------------------------------------------------------------
  // Which files renameFiles renames

  /** What is in a prefix of a list is in the list. */
  lemma InPrefix<T>(xs: seq<T>, ys: seq<T>, x: T)
    requires |xs| <= |ys| && ys[..|xs|] == xs && x in xs
    ensures x in ys
  {
    var i :| 0 <= i < |xs| && xs[i] == x;
    assert ys[i] == ys[..|xs|][i];
  }

  lemma {:induction false} FolderFilesGrow(env: WalkEnv, st: WalkState, root: string, files: seq<string>)
    ensures var r := FolderFiles(env, st, root, files);
      |st.renames| <= |r.renames| && r.renames[..|st.renames|] == st.renames
    decreases |files|
  {
    if |files| > 0 {
      var next := FileEntry(env, st, root, files[0]);
      FileEntryGrow(env, st, root, files[0]);
      FolderFilesGrow(env, next, root, files[1..]);
      var r := FolderFiles(env, next, root, files[1..]);
      assert r.renames[..|st.renames|] == r.renames[..|next.renames|][..|st.renames|];
    }
  }

  lemma {:induction false} FolderFilesAppend(env: WalkEnv, st: WalkState, root: string, a: seq<string>, b: seq<string>)
    ensures FolderFiles(env, st, root, a + b) == FolderFiles(env, FolderFiles(env, st, root, a), root, b)
    decreases |a|
  {
    if |a| == 0 {
      assert a + b == b;
    } else {
      assert (a + b)[0] == a[0] && (a + b)[1..] == a[1..] + b;
      FolderFilesAppend(env, FileEntry(env, st, root, a[0]), root, a[1..], b);
    }
  }

  /** A file of a folder whose new name differs and is free at its turn,
      after the files `a`, is renamed to it. */
  lemma FolderFilesRenameFree(env: WalkEnv, st: WalkState, root: string, a: seq<string>, item: string, b: seq<string>)
    requires RenamedAtTurn(env, FolderFiles(env, st, root, a).existing, root, item)
    ensures Renaming(root, item, NewName(env, root, item)) in FolderFiles(env, st, root, a + ([item] + b)).renames
  {
    FolderTurnRenames(env, FolderFiles(env, st, root, a), root, item, b);
    FolderFilesAppend(env, st, root, a, [item] + b);
  }

  /** A first file renamed at its turn stays renamed to the end of the folder. */
  lemma FolderTurnRenames(env: WalkEnv, st: WalkState, root: string, item: string, b: seq<string>)
    requires RenamedAtTurn(env, st.existing, root, item)
    ensures Renaming(root, item, NewName(env, root, item)) in FolderFiles(env, st, root, [item] + b).renames
  {
    var next := FileEntry(env, st, root, item);
    assert ([item] + b)[0] == item && ([item] + b)[1..] == b;
    assert FolderFiles(env, st, root, [item] + b) == FolderFiles(env, next, root, b);
    FolderFilesGrow(env, next, root, b);
    InPrefix(next.renames, FolderFiles(env, next, root, b).renames, Renaming(root, item, NewName(env, root, item)));
  }

  lemma {:induction false} WalkFoldersGrow(env: WalkEnv, st: WalkState, walk: seq<(string, seq<string>)>)
    ensures var r := WalkFolders(env, st, walk);
      |st.renames| <= |r.renames| && r.renames[..|st.renames|] == st.renames
    decreases |walk|
  {
    if |walk| > 0 {
      var next := FolderFiles(env, st, walk[0].0, walk[0].1);
      FolderFilesGrow(env, st, walk[0].0, walk[0].1);
      WalkFoldersGrow(env, next, walk[1..]);
      var r := WalkFolders(env, next, walk[1..]);
      assert r.renames[..|st.renames|] == r.renames[..|next.renames|][..|st.renames|];
    }
  }

  lemma {:induction false} WalkFoldersAppend(env: WalkEnv, st: WalkState, a: seq<(string, seq<string>)>, b: seq<(string, seq<string>)>)
    ensures WalkFolders(env, st, a + b) == WalkFolders(env, WalkFolders(env, st, a), b)
    decreases |a|
  {
    if |a| == 0 {
      assert a + b == b;
    } else {
      assert (a + b)[0] == a[0] && (a + b)[1..] == a[1..] + b;
      WalkFoldersAppend(env, FolderFiles(env, st, a[0].0, a[0].1), a[1..], b);
    }
  }

  /** A file of a folder `os.walk` yields, after the folders `wa` and the
      files `fa`, is renamed to its new name when at its turn that name
      differs and is free. */
  lemma LegacyRenameFilesRenameFree(
    env: WalkEnv, existing: set<string>, walk: seq<(string, seq<string>)>,
    wa: seq<(string, seq<string>)>, root: string, fa: seq<string>, item: string, fb: seq<string>, wb: seq<(string, seq<string>)>)
    requires env.legacy && walk == wa + ([(root, fa + ([item] + fb))] + wb)
    requires RenamedAtTurn(env, FolderFiles(env, WalkFolders(env, WalkState(existing, [], []), wa), root, fa).existing, root, item)
    ensures Renaming(root, item, NewName(env, root, item)) in LegacyRenameFiles(env, existing, walk).renames
  {
    var st0 := WalkState(existing, [], []);
    var before := WalkFolders(env, st0, wa);
    var x := (root, fa + ([item] + fb));
    FolderFilesRenameFree(env, before, root, fa, item, fb);
    WalkFoldersKeep(env, before, x, wb, Renaming(root, item, NewName(env, root, item)));
    WalkFoldersAppend(env, st0, wa, [x] + wb);
  }

  /** A rename made in the first folder is among the renames of the walk. */
  lemma WalkFoldersKeep(env: WalkEnv, st: WalkState, x: (string, seq<string>), wb: seq<(string, seq<string>)>, m: Renaming)
    requires m in FolderFiles(env, st, x.0, x.1).renames
    ensures m in WalkFolders(env, st, [x] + wb).renames
  {
    var mid := FolderFiles(env, st, x.0, x.1);
    assert ([x] + wb)[0] == x && ([x] + wb)[1..] == wb;
    assert WalkFolders(env, st, [x] + wb) == WalkFolders(env, mid, wb);
    WalkFoldersGrow(env, mid, wb);
    InPrefix(mid.renames, WalkFolders(env, mid, wb).renames, m);
  }
}
