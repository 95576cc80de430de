/** The decisions of albumTagger.py: the working folder without its
    trailing slashes, how the command-line flags override the configured
    ones, the folder-naming template, the cleaned album link and catalog,
    and `findAlbumID`'s search table and choice. The VGMDB search,
    `getBest`, the template validator and the year extractor enter as
    parameters; the user's answers are a sequence. */
module AlbumTagger {
  import opened Wrappers
  import Text
  import PosixPath
  import RenameCommon

  // ---------------------------------------------------------------------------
  // The folder path

  /** `while folderPath[-1] == "/": folderPath = folderPath[:-1]`: the path
      without trailing slashes, or the IndexError of indexing an empty
      string, which an empty or all-slash path reaches. */
  function TrimFolderPath(p: string): (r: Result<string>)
    ensures r.Err? <==> forall i :: 0 <= i < |p| ==> p[i] == '/'
    ensures r.Err? ==> r.error == IndexError
    ensures r.Ok? ==> r.value == PosixPath.RStripSlashes(p) && |r.value| > 0
    decreases |p|
  {
    if |p| == 0 then Err(IndexError)
    else if p[|p| - 1] == '/' then
      var r := TrimFolderPath(p[..|p| - 1]);
      assert forall i :: 0 <= i < |p| - 1 ==> p[..|p| - 1][i] == p[i];
      r
    else Ok(p)
  }

  // ---------------------------------------------------------------------------
  // Flags

  /** The command-line switches `argumentParser` reads. */
  datatype Switch =
    | Japanese | English | Romaji
    | Yes | NoInput | Backup
    | RenameFolder | NoRenameFolder | RenameFiles | NoRenameFiles | Tag | NoTag
    | NoTitle | KeepTitle | SameFolderName | OneLang | Translate | AlbumDataOnly
    | NoScans | NoPics | PicOverwrite | NoAuth
    | Single | Performers | Arrangers | Lyricists | Composers
    | NoModify | Ksl

  /** The switches given, and `--folder-naming-template`. */
  datatype Args = Args(given: set<Switch>, template: Option<string>)

  /** The settings of `Config` that the switches change, grouped as
      `argumentParser` assigns them. */
  datatype RunMode = RunMode(yesToAll: bool, noInput: bool, backup: bool)
  datatype Actions = Actions(renameFolder: bool, renameFiles: bool, tag: bool)
  datatype Naming = Naming(title: bool, keepTitle: bool, sameFolderName: bool, allLang: bool, translate: bool)
  datatype Numbering = Numbering(discNumbers: bool, trackNumbers: bool, ignoreMismatch: bool)
  datatype Pictures = Pictures(scans: bool, pics: bool, picOverwrite: bool, noAuth: bool)
  datatype Credits = Credits(performers: bool, arrangers: bool, lyricists: bool, composers: bool)

  datatype Flags = Flags(
    languageOrder: seq<string>, run: RunMode, actions: Actions, naming: Naming,
    numbering: Numbering, pictures: Pictures, credits: Credits, folderNamingTemplate: string)

  /** The template `--ksl` forces. */
  const KslTemplate := "{[{catalog}] }{albumname}{ [{date}]}{ [{format}]}"

  /** Japanese, then English, then Romaji: the first switch given picks the
      order, and none keeps the configured one. */
  function LanguageOrder(args: Args, configured: seq<string>): (r: seq<string>)
    ensures Japanese in args.given ==> r == ["japanese", "romaji", "english"]
    ensures Japanese !in args.given && English in args.given ==> r == ["english", "romaji", "japanese"]
    ensures Japanese !in args.given && English !in args.given && Romaji in args.given ==> r == ["romaji", "english", "japanese"]
    ensures Japanese !in args.given && English !in args.given && Romaji !in args.given ==> r == configured
  {
    if Japanese in args.given then ["japanese", "romaji", "english"]
    else if English in args.given then ["english", "romaji", "japanese"]
    else if Romaji in args.given then ["romaji", "english", "japanese"]
    else configured
  }

  /** Lines 78-89 of `argumentParser`: the language order and the plain
      switches. */
  function SetPlain(args: Args, f: Flags): (r: Flags)
    ensures var a := args.given; r == f.(
      languageOrder := LanguageOrder(args, f.languageOrder),
      run := RunMode(Yes in a || f.run.yesToAll, NoInput in a || f.run.noInput, Backup in a || f.run.backup))
  {
    var a := args.given;
    var f := f.(languageOrder := LanguageOrder(args, f.languageOrder));
    var f := if Yes in a then f.(run := f.run.(yesToAll := true)) else f;
    var f := if NoInput in a then f.(run := f.run.(noInput := true)) else f;
    if Backup in a then f.(run := f.run.(backup := true)) else f
  }

  /** Lines 90-101: each "no" switch is applied after its positive one. */
  function SetPairs(args: Args, f: Flags): (r: Flags)
    ensures var a := args.given; r == f.(actions := Actions(
      NoRenameFolder !in a && (RenameFolder in a || f.actions.renameFolder),
      NoRenameFiles !in a && (RenameFiles in a || f.actions.renameFiles),
      NoTag !in a && (Tag in a || f.actions.tag)))
  {
    var a := args.given;
    var f := if RenameFolder in a then f.(actions := f.actions.(renameFolder := true)) else f;
    var f := if NoRenameFolder in a then f.(actions := f.actions.(renameFolder := false)) else f;
    var f := if RenameFiles in a then f.(actions := f.actions.(renameFiles := true)) else f;
    var f := if NoRenameFiles in a then f.(actions := f.actions.(renameFiles := false)) else f;
    var f := if Tag in a then f.(actions := f.actions.(tag := true)) else f;
    if NoTag in a then f.(actions := f.actions.(tag := false)) else f
  }

  /** Lines 102-111: the title, folder-name and language switches. */
  function SetNames(args: Args, f: Flags): (r: Flags)
    ensures var a := args.given; var n := f.naming; r == f.(naming := Naming(
      NoTitle !in a && n.title, KeepTitle in a || n.keepTitle, SameFolderName in a || n.sameFolderName,
      OneLang !in a && n.allLang, Translate in a || n.translate))
  {
    var a := args.given;
    var f := if NoTitle in a then f.(naming := f.naming.(title := false)) else f;
    var f := if KeepTitle in a then f.(naming := f.naming.(keepTitle := true)) else f;
    var f := if SameFolderName in a then f.(naming := f.naming.(sameFolderName := true)) else f;
    var f := if OneLang in a then f.(naming := f.naming.(allLang := false)) else f;
    if Translate in a then f.(naming := f.naming.(translate := true)) else f
  }

  /** Lines 113-118: `--album-data-only` turns off titles, numbers and file
      renaming, and ignores a mismatch. */
  function SetAlbumDataOnly(args: Args, f: Flags): (r: Flags)
    ensures AlbumDataOnly in args.given ==> r == f.(
      naming := f.naming.(title := false), numbering := Numbering(false, false, true),
      actions := f.actions.(renameFiles := false))
    ensures AlbumDataOnly !in args.given ==> r == f
  {
    if AlbumDataOnly in args.given then
      f.(naming := f.naming.(title := false),
         numbering := f.numbering.(discNumbers := false, trackNumbers := false, ignoreMismatch := true),
         actions := f.actions.(renameFiles := false))
    else f
  }

  /** Lines 120-127: scans and pictures. */
  function SetPictures(args: Args, f: Flags): (r: Flags)
    ensures var a := args.given; var p := f.pictures; r == f.(pictures := Pictures(
      NoScans !in a && p.scans, NoPics !in a && p.pics, PicOverwrite in a || p.picOverwrite, NoAuth in a || p.noAuth))
  {
    var a := args.given;
    var f := if NoScans in a then f.(pictures := f.pictures.(scans := false)) else f;
    var f := if NoPics in a then f.(pictures := f.pictures.(pics := false)) else f;
    var f := if PicOverwrite in a then f.(pictures := f.pictures.(picOverwrite := true)) else f;
    if NoAuth in a then f.(pictures := f.pictures.(noAuth := true)) else f
  }

  /** Lines 129-137: the credits; `--single` turns on every one. */
  function SetCredits(args: Args, f: Flags): (r: Flags)
    ensures var a := args.given; var c := f.credits; r == f.(credits := Credits(
      Single in a || Performers in a || c.performers, Single in a || Arrangers in a || c.arrangers,
      Single in a || Lyricists in a || c.lyricists, Single in a || Composers in a || c.composers))
  {
    var a := args.given;
    var f := if Single in a || Performers in a then f.(credits := f.credits.(performers := true)) else f;
    var f := if Single in a || Arrangers in a then f.(credits := f.credits.(arrangers := true)) else f;
    var f := if Single in a || Lyricists in a then f.(credits := f.credits.(lyricists := true)) else f;
    if Single in a || Composers in a then f.(credits := f.credits.(composers := true)) else f
  }

  /** Lines 139-142: `--no-modify` comes last and turns every change off. */
  function SetNoModify(args: Args, f: Flags): (r: Flags)
    ensures NoModify in args.given ==> r == f.(actions := Actions(false, false, false))
    ensures NoModify !in args.given ==> r == f
  {
    if NoModify in args.given then f.(actions := f.actions.(tag := false, renameFolder := false, renameFiles := false)) else f
  }

  /** The assignments of `argumentParser`, in their order. */
  function SetFlags(args: Args, f: Flags): Flags {
    SetNoModify(args, SetCredits(args, SetPictures(args, SetAlbumDataOnly(args, SetNames(args, SetPairs(args, SetPlain(args, f)))))))
  }

  /** The renaming, tagging, title and numbering settings as the switches
      leave them: a "no" switch beats its positive one, and
      `--album-data-only` and then `--no-modify` override both. */
  lemma SetFlagsOverrides(args: Args, d: Flags)
    ensures var r := SetFlags(args, d); var a := args.given;
      && r.actions.renameFolder == (NoModify !in a && NoRenameFolder !in a && (RenameFolder in a || d.actions.renameFolder))
      && r.actions.renameFiles == (NoModify !in a && AlbumDataOnly !in a && NoRenameFiles !in a && (RenameFiles in a || d.actions.renameFiles))
      && r.actions.tag == (NoModify !in a && NoTag !in a && (Tag in a || d.actions.tag))
      && r.naming.title == (AlbumDataOnly !in a && NoTitle !in a && d.naming.title)
      && r.numbering.discNumbers == (AlbumDataOnly !in a && d.numbering.discNumbers)
      && r.numbering.trackNumbers == (AlbumDataOnly !in a && d.numbering.trackNumbers)
      && r.numbering.ignoreMismatch == (AlbumDataOnly in a || d.numbering.ignoreMismatch)
      && r.naming.allLang == (OneLang !in a && d.naming.allLang)
      && r.naming.keepTitle == (KeepTitle in a || d.naming.keepTitle)
      && r.naming.sameFolderName == (SameFolderName in a || d.naming.sameFolderName)
      && r.naming.translate == (Translate in a || d.naming.translate)
  {
    var f4 := SetAlbumDataOnly(args, SetNames(args, SetPairs(args, SetPlain(args, d))));
    assert f4.actions == SetPairs(args, SetPlain(args, d)).actions.(renameFiles := f4.actions.renameFiles);
    var f6 := SetCredits(args, SetPictures(args, f4));
    assert f6.actions == f4.actions && f6.naming == f4.naming && f6.numbering == f4.numbering;
  }

  /** The run mode, the language order and the template: each switch turns
      its setting on whatever the configuration says. */
  lemma SetFlagsRunMode(args: Args, d: Flags)
    ensures var r := SetFlags(args, d); var a := args.given;
      && r.run == RunMode(Yes in a || d.run.yesToAll, NoInput in a || d.run.noInput, Backup in a || d.run.backup)
      && r.languageOrder == LanguageOrder(args, d.languageOrder)
      && r.folderNamingTemplate == d.folderNamingTemplate
  {
    var f4 := SetAlbumDataOnly(args, SetNames(args, SetPairs(args, SetPlain(args, d))));
    assert f4.run == SetPlain(args, d).run && f4.languageOrder == LanguageOrder(args, d.languageOrder);
  }

  /** Pictures and credits: `--single` turns on every credit. */
  lemma SetFlagsCredits(args: Args, d: Flags)
    ensures var r := SetFlags(args, d); var a := args.given;
      && r.pictures == Pictures(NoScans !in a && d.pictures.scans, NoPics !in a && d.pictures.pics,
           PicOverwrite in a || d.pictures.picOverwrite, NoAuth in a || d.pictures.noAuth)
      && r.credits == Credits(
           Single in a || Performers in a || d.credits.performers, Single in a || Arrangers in a || d.credits.arrangers,
           Single in a || Lyricists in a || d.credits.lyricists, Single in a || Composers in a || d.credits.composers)
  {
    var f4 := SetAlbumDataOnly(args, SetNames(args, SetPairs(args, SetPlain(args, d))));
    assert f4.pictures == d.pictures && f4.credits == d.credits;
  }

  /** A template was given: `if args.folder_naming_template`. */
  predicate TemplateGiven(args: Args) {
    args.template.Some? && |args.template.value| > 0
  }

  /** `argumentParser`: the trimmed folder path and the flags, or the
      empty path that makes `main` stop when the given template does not
      validate. `valid` stands for `TemplateResolver.validateTemplate`. */
  function ArgumentParser(folderPath: string, args: Args, configured: Flags, valid: string -> bool): (r: Result<(string, Flags)>)
    ensures r.Err? <==> (
      || (forall i :: 0 <= i < |folderPath| ==> folderPath[i] == '/')
      || (TemplateGiven(args) && !valid(args.template.value)))
    ensures r.Ok? ==> r.value.0 == PosixPath.RStripSlashes(folderPath) && |r.value.0| > 0
    ensures r.Ok? ==> r.value.1 == SetFlags(args, configured).(folderNamingTemplate := r.value.1.folderNamingTemplate)
    ensures r.Ok? && Ksl in args.given ==> r.value.1.folderNamingTemplate == KslTemplate
    ensures r.Ok? && Ksl !in args.given && TemplateGiven(args) ==> r.value.1.folderNamingTemplate == args.template.value
    ensures r.Ok? && Ksl !in args.given && !TemplateGiven(args) ==>
      r.value.1.folderNamingTemplate == configured.folderNamingTemplate
  {
    match TrimFolderPath(folderPath)
    case Err(e) => Err(e)
    case Ok(path) =>
      var f := SetFlags(args, configured);
      if TemplateGiven(args) && !valid(args.template.value) then Err(Aborted("invalid template"))
      else
        var f := if TemplateGiven(args) then f.(folderNamingTemplate := args.template.value) else f;
        var f := if Ksl in args.given then f.(folderNamingTemplate := KslTemplate) else f;
        Ok((path, f))
  }

  // ---------------------------------------------------------------------------
  // tagAndRenameFiles

  /** `link.split("?")[0]`: the link up to its first '?'. */
  function CleanLink(link: string): (r: string)
    ensures '?' !in r && Text.StartsWith(link, r)
    ensures |r| < |link| ==> link[|r|] == '?'
    ensures '?' !in link ==> r == link
  {
    Text.BeforeFirst(link, '?')
  }

  /** The catalog kept: "N/A" and "NA" mean there is none. */
  function KeptCatalog(catalog: Option<string>): (r: Option<string>)
    ensures r.Some? <==> catalog.Some? && catalog.value != "N/A" && catalog.value != "NA"
    ensures r.Some? ==> r == catalog
  {
    if catalog.Some? && (catalog.value == "N/A" || catalog.value == "NA") then None else catalog
  }

  // ---------------------------------------------------------------------------
  // findAlbumID

  /** A search result: its link below vgmdb.net, its best title, its
      release date and catalog. */
  datatype SearchAlbum = SearchAlbum(link: string, title: string, releaseDate: Option<string>, catalog: string)

  /** `album.link.split("/")[1]`: the text between the first '/' and the
      next one, or the IndexError of a link without '/'. */
  function AlbumIdOf(link: string): (r: Result<string>)
    ensures r.Ok? <==> '/' in link
    ensures r.Err? ==> r.error == IndexError
    ensures r.Ok? ==> '/' !in r.value
    ensures r.Ok? ==> var k := Text.Find(link, '/');
      0 <= k && Text.StartsWith(link[k + 1..], r.value) && (|r.value| == |link| - k - 1 || link[k + 1 + |r.value|] == '/')
  {
    var parts := Text.Split(link, '/');
    SplitSecond(link, '/');
    if |parts| >= 2 then Ok(parts[1]) else Err(IndexError)
  }

  /** `s.split(c)` has a second part exactly when `c` occurs in `s`, and that
      part is the text after the first `c` up to the next one. */
  lemma SplitSecond(s: string, c: char)
    ensures c in s <==> |Text.Split(s, c)| >= 2
    ensures c in s ==> var k := Text.Find(s, c);
      0 <= k && Text.Split(s, c)[1] == Text.BeforeFirst(s[k + 1..], c)
  {
    var k := Text.Find(s, c);
    if k >= 0 {
      SplitHead(s[k + 1..], c);
    }
  }

  lemma SplitHead(s: string, c: char)
    ensures Text.Split(s, c)[0] == Text.BeforeFirst(s, c)
  {
  }

  /** The ids of all results, in order, or the first IndexError. */
  function AlbumIds(albums: seq<SearchAlbum>): (r: Result<seq<string>>)
    ensures r.Ok? <==> forall i :: 0 <= i < |albums| ==> '/' in albums[i].link
    ensures r.Err? ==> r.error == IndexError
    ensures r.Ok? ==> |r.value| == |albums| && forall i :: 0 <= i < |albums| ==> AlbumIdOf(albums[i].link) == Ok(r.value[i])
  {
    if |albums| == 0 then Ok([])
    else
      match AlbumIdOf(albums[0].link)
      case Err(e) => Err(e)
      case Ok(id) =>
        match AlbumIds(albums[1..])
        case Err(e) => Err(e)
        case Ok(rest) =>
          assert forall i :: 1 <= i < |albums| ==> albums[i] == albums[1..][i - 1];
          Ok([id] + rest)
  }


  /** A row of the printed table: its serial number, and the album and id
      stored under it. */
  datatype Row = Row(serial: int, albumId: string, album: SearchAlbum)

  /** `not searchYear or searchYear == year`. */
  predicate YearKept(searchYear: Option<string>, yearOf: Option<string> -> Option<string>, a: SearchAlbum) {
    !RenameCommon.Truthy(searchYear) || Some(searchYear.value) == yearOf(a.releaseDate)
  }

  /** The loop of `findAlbumID` over the results: each kept one gets the
      next serial number, counting from `first`. */
  function KeptRows(albums: seq<SearchAlbum>, ids: seq<string>, searchYear: Option<string>,
                    yearOf: Option<string> -> Option<string>, first: int): (r: seq<Row>)
    requires |ids| == |albums|
    ensures |r| <= |albums|
    ensures forall i :: 0 <= i < |r| ==> r[i].serial == first + i
    ensures !RenameCommon.Truthy(searchYear) ==>
      |r| == |albums| && forall i :: 0 <= i < |r| ==> r[i].album == albums[i] && r[i].albumId == ids[i]
    decreases |albums|
  {
    if |albums| == 0 then []
    else if YearKept(searchYear, yearOf, albums[0]) then
      [Row(first, ids[0], albums[0])] + KeptRows(albums[1..], ids[1..], searchYear, yearOf, first + 1)
    else KeptRows(albums[1..], ids[1..], searchYear, yearOf, first)
  }

  /** The row shows a kept result under that result's id. */
  predicate Shown(albums: seq<SearchAlbum>, ids: seq<string>, searchYear: Option<string>,
                  yearOf: Option<string> -> Option<string>, row: Row)
    requires |ids| == |albums|
  {
    exists j :: 0 <= j < |albums| && row.album == albums[j] && row.albumId == ids[j] && YearKept(searchYear, yearOf, albums[j])
  }

  predicate Listed(rows: seq<Row>, a: SearchAlbum, id: string) {
    exists i :: 0 <= i < |rows| && rows[i].album == a && rows[i].albumId == id
  }

  predicate AllShown(albums: seq<SearchAlbum>, ids: seq<string>, searchYear: Option<string>,
                     yearOf: Option<string> -> Option<string>, rows: seq<Row>)
    requires |ids| == |albums|
  {
    forall i :: 0 <= i < |rows| ==> Shown(albums, ids, searchYear, yearOf, rows[i])
  }

  predicate AllListed(albums: seq<SearchAlbum>, ids: seq<string>, searchYear: Option<string>,
                      yearOf: Option<string> -> Option<string>, rows: seq<Row>)
    requires |ids| == |albums|
  {
    forall j :: 0 <= j < |albums| && YearKept(searchYear, yearOf, albums[j]) ==> Listed(rows, albums[j], ids[j])
  }

  /** One step of the loop: the first result's row, if kept, before the
      rows of the others. */
  lemma {:induction false} KeptRowsSplit(albums: seq<SearchAlbum>, ids: seq<string>, searchYear: Option<string>,
                                         yearOf: Option<string> -> Option<string>, first: int)
    requires |ids| == |albums| > 0
    ensures var kept := YearKept(searchYear, yearOf, albums[0]);
      KeptRows(albums, ids, searchYear, yearOf, first)
      == (if kept then [Row(first, ids[0], albums[0])] else [])
         + KeptRows(albums[1..], ids[1..], searchYear, yearOf, if kept then first + 1 else first)
  {
    if !YearKept(searchYear, yearOf, albums[0]) {
      assert [] + KeptRows(albums[1..], ids[1..], searchYear, yearOf, first) == KeptRows(albums[1..], ids[1..], searchYear, yearOf, first);
    }
  }

  /** Every row of the table is a kept result under its own id. */
  lemma {:induction false} KeptRowsAreKept(albums: seq<SearchAlbum>, ids: seq<string>, searchYear: Option<string>,
                                           yearOf: Option<string> -> Option<string>, first: int)
    requires |ids| == |albums|
    ensures AllShown(albums, ids, searchYear, yearOf, KeptRows(albums, ids, searchYear, yearOf, first))
    decreases |albums|
  {
    if |albums| > 0 {
      var kept := YearKept(searchYear, yearOf, albums[0]);
      var next := if kept then first + 1 else first;
      var head := if kept then [Row(first, ids[0], albums[0])] else [];
      KeptRowsAreKept(albums[1..], ids[1..], searchYear, yearOf, next);
      KeptRowsSplit(albums, ids, searchYear, yearOf, first);
      ShownCons(albums, ids, searchYear, yearOf, head, KeptRows(albums[1..], ids[1..], searchYear, yearOf, next));
    }
  }

  lemma {:induction false} ShownCons(albums: seq<SearchAlbum>, ids: seq<string>, searchYear: Option<string>,
                                     yearOf: Option<string> -> Option<string>, head: seq<Row>, rest: seq<Row>)
    requires |ids| == |albums| > 0
    requires forall i :: 0 <= i < |head| ==>
      head[i].album == albums[0] && head[i].albumId == ids[0] && YearKept(searchYear, yearOf, albums[0])
    requires AllShown(albums[1..], ids[1..], searchYear, yearOf, rest)
    ensures AllShown(albums, ids, searchYear, yearOf, head + rest)
  {
    forall i | 0 <= i < |head + rest|
      ensures Shown(albums, ids, searchYear, yearOf, (head + rest)[i])
    {
      if i < |head| {
        assert (head + rest)[i] == head[i];
        assert head[i].album == albums[0];
      } else {
        assert (head + rest)[i] == rest[i - |head|];
        ShownLater(albums, ids, searchYear, yearOf, rest[i - |head|]);
      }
    }
  }

  lemma {:induction false} ShownLater(albums: seq<SearchAlbum>, ids: seq<string>, searchYear: Option<string>,
                                      yearOf: Option<string> -> Option<string>, row: Row)
    requires |ids| == |albums| > 0 && Shown(albums[1..], ids[1..], searchYear, yearOf, row)
    ensures Shown(albums, ids, searchYear, yearOf, row)
  {
    var j :| 0 <= j < |albums[1..]| && row.album == albums[1..][j] && row.albumId == ids[1..][j]
      && YearKept(searchYear, yearOf, albums[1..][j]);
    assert albums[1..][j] == albums[j + 1] && ids[1..][j] == ids[j + 1];
  }

  /** Every kept result is a row of the table under its own id. */
  lemma {:induction false} KeptAreRows(albums: seq<SearchAlbum>, ids: seq<string>, searchYear: Option<string>,
                                       yearOf: Option<string> -> Option<string>, first: int)
    requires |ids| == |albums|
    ensures AllListed(albums, ids, searchYear, yearOf, KeptRows(albums, ids, searchYear, yearOf, first))
    decreases |albums|
  {
    if |albums| > 0 {
      var kept := YearKept(searchYear, yearOf, albums[0]);
      var next := if kept then first + 1 else first;
      var head := if kept then [Row(first, ids[0], albums[0])] else [];
      KeptAreRows(albums[1..], ids[1..], searchYear, yearOf, next);
      KeptRowsSplit(albums, ids, searchYear, yearOf, first);
      if kept {
        assert head[0].album == albums[0] && head[0].albumId == ids[0];
      }
      ListedCons(albums, ids, searchYear, yearOf, head, KeptRows(albums[1..], ids[1..], searchYear, yearOf, next));
    }
  }

  lemma {:induction false} ListedCons(albums: seq<SearchAlbum>, ids: seq<string>, searchYear: Option<string>,
                                      yearOf: Option<string> -> Option<string>, head: seq<Row>, rest: seq<Row>)
    requires |ids| == |albums| > 0
    requires YearKept(searchYear, yearOf, albums[0]) ==> Listed(head, albums[0], ids[0])
    requires AllListed(albums[1..], ids[1..], searchYear, yearOf, rest)
    ensures AllListed(albums, ids, searchYear, yearOf, head + rest)
  {
    var r := head + rest;
    forall j | 0 <= j < |albums| && YearKept(searchYear, yearOf, albums[j])
      ensures Listed(r, albums[j], ids[j])
    {
      if j == 0 {
        var i :| 0 <= i < |head| && head[i].album == albums[0] && head[i].albumId == ids[0];
        assert r[i] == head[i];
      } else {
        assert albums[1..][j - 1] == albums[j] && ids[1..][j - 1] == ids[j];
        assert Listed(rest, albums[1..][j - 1], ids[1..][j - 1]);
        ListedLater(r, rest, |head|, albums[j], ids[j]);
      }
    }
  }

  lemma {:induction false} ListedLater(r: seq<Row>, rest: seq<Row>, h: nat, a: SearchAlbum, id: string)
    requires |r| == h + |rest| && forall i :: h <= i < |r| ==> r[i] == rest[i - h]
    requires Listed(rest, a, id)
    ensures Listed(r, a, id)
  {
    var i :| 0 <= i < |rest| && rest[i].album == a && rest[i].albumId == id;
    assert r[i + h] == rest[i];
  }

  /** `choice.isdigit() and int(choice) in albumData`, with serials 1..n:
      the serial a choice names, if any. */
  function SerialOf(choice: string, n: int): (r: Option<nat>)
    ensures r.Some? <==> Text.IsDigits(choice) && 1 <= Text.DigitsValue(choice) <= n
    ensures r.Some? ==> r.value == Text.DigitsValue(choice) && 1 <= r.value <= n
  {
    if Text.IsDigits(choice) && 1 <= Text.DigitsValue(choice) <= n then Some(Text.DigitsValue(choice)) else None
  }

  /** Every serial on the table, written out, names itself. */
  lemma SerialOfNumber(k: nat, n: int)
    requires 1 <= k <= n
    ensures SerialOf(Text.NatToString(k), n) == Some(k)
  {
  }

  /** The searches `findAlbumID` makes, the year each result is from, and
      the `NO_INPUT` and `yes_to_all` flags. */
  datatype SearchEnv = SearchEnv(
    search: string -> seq<SearchAlbum>, yearOf: Option<string> -> Option<string>,
    noInput: bool, yesToAll: bool)

  predicate IsExit(answer: string) {
    Text.Lower(answer) == "exit"
  }

  /** `id` is the id of a result of searching for `t`. */
  predicate ResultOf(env: SearchEnv, t: string, id: string) {
    exists a :: a in env.search(t) && AlbumIdOf(a.link) == Ok(id)
  }

  /** `id` is the id of a result of searching for the given term or for one
      of the answers. */
  predicate Found(env: SearchEnv, term: Option<string>, answers: seq<string>, id: string) {
    (term.Some? && ResultOf(env, term.value, id)) || exists k :: 0 <= k < |answers| && ResultOf(env, answers[k], id)
  }

  lemma FoundLater(env: SearchEnv, term: Option<string>, answers: seq<string>, id: string)
    requires |answers| > 0 && Found(env, Some(answers[0]), answers[1..], id)
    ensures Found(env, term, answers, id)
  {
    if !ResultOf(env, answers[0], id) {
      var k :| 0 <= k < |answers[1..]| && ResultOf(env, answers[1..][k], id);
      assert answers[1..][k] == answers[k + 1];
    }
  }

  lemma RowFound(env: SearchEnv, t: string, searchYear: Option<string>, albums: seq<SearchAlbum>, ids: seq<string>, row: Row)
    requires albums == env.search(t) && AlbumIds(albums) == Ok(ids)
    requires Shown(albums, ids, searchYear, env.yearOf, row)
    ensures ResultOf(env, t, row.albumId)
  {
    var j :| 0 <= j < |albums| && row.album == albums[j] && row.albumId == ids[j] && YearKept(searchYear, env.yearOf, albums[j]);
    assert AlbumIdOf(albums[j].link) == Ok(row.albumId);
  }

  /** Every row of the table of a search shows a result of it. */
  lemma TableRowFound(env: SearchEnv, t: string, searchYear: Option<string>, ids: seq<string>, k: int)
    requires AlbumIds(env.search(t)) == Ok(ids)
    requires 0 <= k < |KeptRows(env.search(t), ids, searchYear, env.yearOf, 1)|
    ensures ResultOf(env, t, KeptRows(env.search(t), ids, searchYear, env.yearOf, 1)[k].albumId)
  {
    var albums := env.search(t);
    var rows := KeptRows(albums, ids, searchYear, env.yearOf, 1);
    KeptRowsAreKept(albums, ids, searchYear, env.yearOf, 1);
    assert Shown(albums, ids, searchYear, env.yearOf, rows[k]);
    RowFound(env, t, searchYear, albums, ids, rows[k]);
  }

  /** The answer read, with the empty answer standing for serial 1. */
  function Choice(answer: string): (r: string)
    ensures |r| > 0
    ensures answer != "" ==> r == answer
  {
    if answer == "" then "1" else answer
  }

  /** The table `findAlbumID` shows for a search whose results all have an id. */
  function Table(env: SearchEnv, t: string, searchYear: Option<string>): seq<Row>
    requires AlbumIds(env.search(t)).Ok?
  {
    KeptRows(env.search(t), AlbumIds(env.search(t)).value, searchYear, env.yearOf, 1)
  }

  /** Whether `findAlbumID` shows a table for `t` and reads a choice. */
  predicate Asks(env: SearchEnv, t: string, searchYear: Option<string>) {
    && !env.noInput
    && |env.search(t)| > 0 && AlbumIds(env.search(t)).Ok?
    && |Table(env, t, searchYear)| > 0
    && !(env.yesToAll && |Table(env, t, searchYear)| == 1)
  }

  /** `findAlbumID` with the year of each result known: the answers are
      what the user types, in order. Running out of answers is reported as
      `Aborted`. */
  function FindAlbumId(env: SearchEnv, term: Option<string>, searchYear: Option<string>, answers: seq<string>): (r: Result<Option<string>>)
    ensures r.Err? ==> r.error == IndexError || (r.error == Aborted("no answer") && !env.noInput)
    ensures r.Ok? && r.value.Some? ==> Found(env, term, answers, r.value.value)
    decreases |answers|, if term.Some? then 1 else 0, if searchYear.Some? then 1 else 0
  {
    if env.noInput && !RenameCommon.Truthy(term) then Ok(None)
    else if term.None? then
      if |answers| == 0 then Err(Aborted("no answer"))
      else if IsExit(answers[0]) then Ok(None)
      else
        var r := FindAlbumId(env, Some(answers[0]), searchYear, answers[1..]);
        if r.Ok? && r.value.Some? then FoundLater(env, term, answers, r.value.value); r else r
    else
      var albums := env.search(term.value);
      if |albums| == 0 then FindAlbumId(env, None, None, answers)
      else match AlbumIds(albums)
        case Err(e) => Err(e)
        case Ok(ids) =>
          var rows := KeptRows(albums, ids, searchYear, env.yearOf, 1);
          if |rows| == 0 then FindAlbumId(env, term, None, answers)
          else if (env.noInput || env.yesToAll) && |rows| == 1 then
            TableRowFound(env, term.value, searchYear, ids, 0);
            Ok(Some(rows[0].albumId))
          else if env.noInput then Ok(None)
          else if |answers| == 0 then Err(Aborted("no answer"))
          else if IsExit(answers[0]) then Ok(None)
          else
            var choice := Choice(answers[0]);
            match SerialOf(choice, |rows|)
            case None =>
              assert choice == answers[0] by {
                assert Text.IsDigit('1') && Text.DigitsValue("1") == 1;
              }
              var r := FindAlbumId(env, Some(choice), None, answers[1..]);
              if r.Ok? && r.value.Some? then FoundLater(env, term, answers, r.value.value); r else r
            case Some(k) =>
              TableRowFound(env, term.value, searchYear, ids, k - 1);
              Ok(Some(rows[k - 1].albumId))
  }

  /** What a search for a given term leads to before anything is read:
      an empty term under `NO_INPUT` stops at once; no result asks for a new term with no year; an id that cannot be read is
      the error; no result within the year searches again without the
      year; a lone row under `NO_INPUT` or `yes_to_all` is taken; otherwise
      `NO_INPUT` gives up. */
  lemma SearchOutcome(env: SearchEnv, t: string, searchYear: Option<string>, answers: seq<string>)
    ensures var r := FindAlbumId(env, Some(t), searchYear, answers);
      var searched := !(env.noInput && |t| == 0);
      && (!searched ==> r == Ok(None))
      && (searched && |env.search(t)| == 0 ==> r == FindAlbumId(env, None, None, answers))
      && (searched && |env.search(t)| > 0 && AlbumIds(env.search(t)).Err? ==> r == Err(AlbumIds(env.search(t)).error))
      && (searched && |env.search(t)| > 0 && AlbumIds(env.search(t)).Ok? ==>
           var rows := Table(env, t, searchYear);
           && (|rows| == 0 ==> r == FindAlbumId(env, Some(t), None, answers))
           && ((env.noInput || env.yesToAll) && |rows| == 1 ==> r == Ok(Some(rows[0].albumId)))
           && (env.noInput && |rows| > 1 ==> r == Ok(None)))
  {
  }

  /** What the choice read for a shown table leads to: no answer left is
      the error, "exit" stops, a serial on the table gives that row's id,
      and any other answer, the empty one read as "1", is searched for
      without the year. */
  lemma AnswerOutcome(env: SearchEnv, t: string, searchYear: Option<string>, answers: seq<string>)
    requires Asks(env, t, searchYear)
    ensures var r := FindAlbumId(env, Some(t), searchYear, answers);
      var rows := Table(env, t, searchYear);
      && (|answers| == 0 ==> r == Err(Aborted("no answer")))
      && (|answers| > 0 && IsExit(answers[0]) ==> r == Ok(None))
      && (|answers| > 0 && !IsExit(answers[0]) && SerialOf(Choice(answers[0]), |rows|).None? ==>
           r == FindAlbumId(env, Some(Choice(answers[0])), None, answers[1..]))
      && (|answers| > 0 && !IsExit(answers[0]) && SerialOf(Choice(answers[0]), |rows|).Some? ==>
           r == Ok(Some(rows[SerialOf(Choice(answers[0]), |rows|).value - 1].albumId)))
  {
    var albums := env.search(t);
    assert AlbumIds(albums) == Ok(AlbumIds(albums).value);
    assert Table(env, t, searchYear) == KeptRows(albums, AlbumIds(albums).value, searchYear, env.yearOf, 1);
  }

  /** With `NO_INPUT` nothing is ever read: the answers do not matter. */
  lemma {:induction false} NoInputReadsNothing(env: SearchEnv, term: Option<string>, searchYear: Option<string>, answers: seq<string>)
    requires env.noInput
    ensures FindAlbumId(env, term, searchYear, answers) == FindAlbumId(env, term, searchYear, [])
    decreases if searchYear.Some? then 1 else 0
  {
    if RenameCommon.Truthy(term) {
      var albums := env.search(term.value);
      if |albums| > 0 && AlbumIds(albums).Ok? {
        var rows := KeptRows(albums, AlbumIds(albums).value, searchYear, env.yearOf, 1);
        if |rows| == 0 {
          NoInputReadsNothing(env, term, None, answers);
        }
      }
    }
  }

  /** A lone result within the year is taken without asking under
      `NO_INPUT` or `--yes`. */
  lemma LoneResultTaken(env: SearchEnv, t: string, searchYear: Option<string>, answers: seq<string>)
    requires env.noInput || env.yesToAll
    requires |t| > 0 && |env.search(t)| == 1 && '/' in env.search(t)[0].link
    requires YearKept(searchYear, env.yearOf, env.search(t)[0])
    ensures FindAlbumId(env, Some(t), searchYear, answers) == Ok(Some(AlbumIdOf(env.search(t)[0].link).value))
  {
    var albums := env.search(t);
    assert albums[1..] == [];
  }

  /** An empty answer picks serial 1, which without a year is the first
      result. */
  lemma EmptyAnswerTakesFirst(env: SearchEnv, t: string, answers: seq<string>)
    requires !env.noInput && |answers| > 0 && answers[0] == ""
    requires |env.search(t)| > 0 && forall i :: 0 <= i < |env.search(t)| ==> '/' in env.search(t)[i].link
    requires !(env.yesToAll && |env.search(t)| == 1)
    ensures FindAlbumId(env, Some(t), None, answers) == Ok(Some(AlbumIdOf(env.search(t)[0].link).value))
  {
    assert !IsExit(answers[0]);
    assert Text.IsDigit('1') && Text.DigitsValue("1") == 1;
  }

  // ---------------------------------------------------------------------------
  // findAlbumID as written

  /** `findAlbumID` as written: `getYearFromDate` is never imported, so the
      loop over a non-empty result list raises NameError at its first
      album, right after taking that album's id. */
  function FindAlbumIdAsWritten(env: SearchEnv, term: Option<string>, searchYear: Option<string>, answers: seq<string>): (r: Result<Option<string>>)
    ensures r.Err? ==> r.error == IndexError || r.error == NameError || r.error == Aborted("no answer")
    decreases |answers|, if term.Some? then 1 else 0
  {
    if env.noInput && !RenameCommon.Truthy(term) then Ok(None)
    else if term.None? then
      if |answers| == 0 then Err(Aborted("no answer"))
      else if IsExit(answers[0]) then Ok(None)
      else FindAlbumIdAsWritten(env, Some(answers[0]), searchYear, answers[1..])
    else
      var albums := env.search(term.value);
      if |albums| == 0 then FindAlbumIdAsWritten(env, None, None, answers)
      else match AlbumIdOf(albums[0].link)
        case Err(e) => Err(e)
        case Ok(_) => Err(NameError)
  }

  /** As written, no search ever yields an album id. */
  lemma {:induction false} AsWrittenNeverFinds(env: SearchEnv, term: Option<string>, searchYear: Option<string>, answers: seq<string>)
    ensures FindAlbumIdAsWritten(env, term, searchYear, answers).Ok? ==>
      FindAlbumIdAsWritten(env, term, searchYear, answers).value.None?
    decreases |answers|, if term.Some? then 1 else 0
  {
    if !(env.noInput && !RenameCommon.Truthy(term)) {
      if term.None? {
        if |answers| > 0 && !IsExit(answers[0]) {
          AsWrittenNeverFinds(env, Some(answers[0]), searchYear, answers[1..]);
        }
      } else if |env.search(term.value)| == 0 {
        AsWrittenNeverFinds(env, None, None, answers);
      }
    }
  }

  /** A search that returns a result with an id fails with NameError as
      written, while the model picks it. */
  lemma AsWrittenFailsOnResult(env: SearchEnv, t: string, searchYear: Option<string>, answers: seq<string>)
    requires env.noInput || env.yesToAll
    requires |t| > 0 && |env.search(t)| == 1 && '/' in env.search(t)[0].link
    requires YearKept(searchYear, env.yearOf, env.search(t)[0])
    ensures FindAlbumIdAsWritten(env, Some(t), searchYear, answers) == Err(NameError)
    ensures FindAlbumId(env, Some(t), searchYear, answers).Ok?
  {
    LoneResultTaken(env, t, searchYear, answers);
  }
}
