/** renameFiles.py: the first renamer. It moves every file of the album to
    "{track} - {title}{ext}" inside "[date] album [catalog]/Disc N/", and
    reports each file's old and new name in a sorted table. */
module RenameFiles {
  import opened Wrappers
  import Text
  import CharTable
  import Ordering
  import Dict
  import OrganizeUtils

  // ---------------------------------------------------------------------------
  // cleanName

  /** `forbiddenCharacters` of this script, in dict order: the same keys as the
      organizer's table, with other look-alikes for '/' and '+'. */
  const ForbiddenCharacters: CharTable.Table := [
    ('<', '\U{1438}'), ('>', '\U{1433}'), (':', '\U{a789}'), ('"', '\U{2ee}'), ('\'', '\U{2bb}'),
    ('/', '\U{ff0f}'), ('\\', '\U{2216}'), ('|', '\U{1c0}'), ('?', '\U{294}'), ('*', '\U{2217}'),
    ('+', '\U{16ed}'), ('%', '\U{66a}'), ('!', '\U{2d51}'), ('`', '\U{55d}'), ('&', '&'),
    ('{', '\U{2774}'), ('}', '\U{2775}'), ('=', '\U{1400}'), ('~', '\U{ff5e}'), ('#', '#'),
    ('$', '$'), ('@', '@')]

  /** The two tables list the same keys in the same order, and substitute
      alike everywhere except for '/' and '+'. */
  lemma SameKeysAsOrganizer()
    ensures |ForbiddenCharacters| == |OrganizeUtils.ForbiddenCharacters|
    ensures forall i :: 0 <= i < |ForbiddenCharacters| ==>
      ForbiddenCharacters[i].0 == OrganizeUtils.ForbiddenCharacters[i].0
    ensures forall i :: 0 <= i < |ForbiddenCharacters| ==>
      (ForbiddenCharacters[i].1 == OrganizeUtils.ForbiddenCharacters[i].1 <==> ForbiddenCharacters[i].0 !in {'/', '+'})
  {
  }

  /** Each key sits at its own position, and each substitute is no key or
      the key of its own entry. */
  lemma ForbiddenIndexed()
    ensures forall i :: 0 <= i < |ForbiddenCharacters| ==> OrganizeUtils.KeyIndex(ForbiddenCharacters[i].0) == i
    ensures forall i :: 0 <= i < |ForbiddenCharacters| ==>
      OrganizeUtils.KeyIndex(ForbiddenCharacters[i].1) == -1 || OrganizeUtils.KeyIndex(ForbiddenCharacters[i].1) == i
  {
  }

  lemma ForbiddenWellFormed()
    ensures CharTable.DistinctKeys(ForbiddenCharacters)
    ensures CharTable.NoChaining(ForbiddenCharacters)
    ensures CharTable.SubstitutesFixed(ForbiddenCharacters)
  {
    ForbiddenIndexed();
  }

  /** `cleanName`: every table entry applied in turn, without stripping. */
  function CleanName(name: string): (r: string)
    ensures |r| == |name|
    ensures forall i :: 0 <= i < |r| ==> r[i] == CharTable.Lookup(ForbiddenCharacters, name[i])
  {
    ForbiddenWellFormed();
    CharTable.ReplaceInOrderIsTranslate(name, ForbiddenCharacters);
    CharTable.ReplaceInOrder(name, ForbiddenCharacters)
  }

  /** Cleaning a cleaned name changes nothing. */
  lemma CleanNameIdempotent(name: string)
    ensures CleanName(CleanName(name)) == CleanName(name)
  {
    var t := ForbiddenCharacters;
    ForbiddenWellFormed();
    CharTable.ReplaceInOrderIsTranslate(name, t);
    CharTable.ReplaceInOrderIsTranslate(CleanName(name), t);
    CharTable.TranslateIdempotent(name, t);
  }

  /** A name holding no key of the table is left as it is. */
  lemma {:induction false} CleanNameOfPlain(name: string)
    requires forall i :: 0 <= i < |name| ==> OrganizeUtils.KeyIndex(name[i]) == -1
    ensures CleanName(name) == name
  {
    forall i | 0 <= i < |name|
      ensures CleanName(name)[i] == name[i]
    {
      PlainCharKept(name[i]);
    }
  }

  lemma PlainCharKept(c: char)
    requires OrganizeUtils.KeyIndex(c) == -1
    ensures CharTable.Lookup(ForbiddenCharacters, c) == c
  {
    ForbiddenIndexed();
    CharTable.LookupNonKey(ForbiddenCharacters, c);
  }

  lemma UnsafeIsMovedKey(c: char)
    requires c in OrganizeUtils.UnsafeCharacters
    ensures 0 <= OrganizeUtils.KeyIndex(c) < |ForbiddenCharacters|
    ensures ForbiddenCharacters[OrganizeUtils.KeyIndex(c)].0 == c
    ensures ForbiddenCharacters[OrganizeUtils.KeyIndex(c)].1 != c
  {
  }

  /** A cleaned name holds none of `< > : " ' / \ | ? * + % ! ` { } = ~`,
      the same code points the organizer's cleaner removes. */
  lemma CleanNameAvoidsUnsafe(name: string)
    ensures forall c :: c in OrganizeUtils.UnsafeCharacters ==> c !in CleanName(name)
  {
    var t := ForbiddenCharacters;
    ForbiddenWellFormed();
    CharTable.ReplaceInOrderIsTranslate(name, t);
    CharTable.TranslateAvoidsMovedKeys(name, t);
    forall c | c in OrganizeUtils.UnsafeCharacters
      ensures c !in CleanName(name)
    {
      UnsafeIsMovedKey(c);
    }
  }

  // ---------------------------------------------------------------------------
  // Folder names

  /** The album folder: "[date] name [catalog]" when files are moved and the
      release has a catalog other than "N/A", "[date] name" when it has none,
      and "" (the folder itself) when files stay where they are. */
  function AlbumFolder(move: bool, date: string, albumName: string, catalog: Option<string>): (r: string)
    ensures r == "" <==> !move
  {
    if !move then ""
    else if catalog.Some? && catalog.value != "N/A" then "[" + date + "] " + albumName + " [" + catalog.value + "]"
    else "[" + date + "] " + albumName
  }

  /** The date reads back from between the first brackets, and a catalog
      without '[' from between the last ones. */
  lemma AlbumFolderParts(date: string, albumName: string, catalog: Option<string>)
    requires ']' !in date
    ensures var r := AlbumFolder(true, date, albumName, catalog);
      && r[0] == '['
      && Text.BeforeFirst(r[1..], ']') == date
      && (catalog.Some? && catalog.value != "N/A" && '[' !in catalog.value ==>
            r[Text.RFind(r, '[') + 1..] == catalog.value + "]")
  {
    var r := AlbumFolder(true, date, albumName, catalog);
    var tail := r[1..];
    assert tail[..|date|] == date;
    assert tail[|date|] == ']';
    assert forall j :: 0 <= j < |date| ==> tail[j] == date[j];
    if catalog.Some? && catalog.value != "N/A" && '[' !in catalog.value {
      var c := catalog.value;
      var p := |r| - |c| - 2;
      assert r[p] == '[';
      Text.RFindIsLast(r, '[', p) by {
        forall j | p < j < |r|
          ensures r[j] != '['
        {
          if j < |r| - 1 {
            assert r[j] == c[j - p - 1];
          }
        }
      }
      assert r[p + 1..] == c + "]";
    }
  }

  /** The disc folder: "Disc " and the disc number zero-filled to the digit
      count of the disc total, only for an album of several discs. */
  function DiscFolderName(totalDisks: nat, disc: int): (r: string)
    ensures r == "" <==> totalDisks <= 1
  {
    if totalDisks > 1 then "Disc " + Text.ZFill(Text.IntToString(disc), Text.DigitCount(totalDisks)) else ""
  }

  /** The digits after "Disc " denote the disc, and for discs 1 to the total
      they all have the same width. */
  lemma DiscFolderNumber(totalDisks: nat, disc: nat)
    requires totalDisks > 1
    ensures var r := DiscFolderName(totalDisks, disc);
      && r[..5] == "Disc "
      && Text.IsDigits(r[5..]) && Text.DigitsValue(r[5..]) == disc
      && (1 <= disc <= totalDisks ==> |r| == 5 + Text.DigitCount(totalDisks))
  {
    var r := DiscFolderName(totalDisks, disc);
    Text.ZFillDenotes(disc, Text.DigitCount(totalDisks));
    assert r[5..] == Text.ZFill(Text.NatToString(disc), Text.DigitCount(totalDisks));
    if 1 <= disc <= totalDisks {
      Text.PaddedToCount(disc, totalDisks);
    }
  }

  lemma DiscFolderHasNoSlash(totalDisks: nat, disc: int)
    ensures '/' !in DiscFolderName(totalDisks, disc)
  {
    Text.ZFillIntHasNo(disc, Text.DigitCount(totalDisks), '/');
  }

  // ---------------------------------------------------------------------------
  // The renaming plan

  /** What the loop works from: the cleaned titles by disc and track (each
      value of `albumTrackData` passed through `cleanName`, which the loop
      does as it reaches the title) and the album folder's path. */
  datatype Layout = Layout(names: Dict.Dict<Dict.Dict<string>>, albumFolderPath: string)

  /** `totalDisks` is the number of discs with titles. */
  function TotalDisks(l: Layout): nat {
    |l.names|
  }

  /** `tracksUpperBound`: the digit count of the number of titled tracks. */
  function TracksWidth(l: Layout): nat {
    Text.DigitCount(Dict.Size2(l.names))
  }

  /** No cleaned title holds a '/'. */
  ghost predicate SlashFree(l: Layout) {
    forall d, t :: Dict.Get2(l.names, d, t).Some? ==> '/' !in Dict.Get2(l.names, d, t).value
  }

  /** `albumTrackData` with every title cleaned. */
  function CleanTitles(titles: Dict.Dict<Dict.Dict<string>>): Dict.Dict<Dict.Dict<string>> {
    Dict.MapValues2(titles, CleanName)
  }

  /** Each slot reads the cleaned title of the same slot, and nothing else
      changes: the same discs, the same tracks. */
  lemma {:induction false} CleanTitlesGet(titles: Dict.Dict<Dict.Dict<string>>, d: int, t: int)
    ensures Dict.Get2(CleanTitles(titles), d, t).None? <==> Dict.Get2(titles, d, t).None?
    ensures Dict.Get2(titles, d, t).Some? ==>
      Dict.Get2(CleanTitles(titles), d, t) == Some(CleanName(Dict.Get2(titles, d, t).value))
  {
    Dict.MapValues2Get(titles, CleanName, d, t);
  }

  /** Cleaning keeps the number of titled tracks. */
  lemma {:induction false} CleanTitlesSize(titles: Dict.Dict<Dict.Dict<string>>)
    ensures Dict.Size2(CleanTitles(titles)) == Dict.Size2(titles)
  {
    if |titles| > 0 {
      CleanTitlesSize(titles[1..]);
      assert CleanTitles(titles)[1..] == CleanTitles(titles[1..]);
    }
  }

  /** No cleaned title holds a '/'. */
  lemma CleanTitlesSlashFree(titles: Dict.Dict<Dict.Dict<string>>, albumFolderPath: string)
    ensures SlashFree(Layout(CleanTitles(titles), albumFolderPath))
  {
    var names := CleanTitles(titles);
    forall d, t | Dict.Get2(names, d, t).Some?
      ensures '/' !in Dict.Get2(names, d, t).value
    {
      CleanTitlesGet(titles, d, t);
      CleanNameHasNoSlash(Dict.Get2(titles, d, t).value);
    }
  }

  /** `discFolderPath`: the disc's own folder for an album of several discs,
      the album folder otherwise. */
  function DiscFolderPath(l: Layout, disc: int): string {
    if TotalDisks(l) > 1 then Text.PathJoin(l.albumFolderPath, DiscFolderName(TotalDisks(l), disc))
    else l.albumFolderPath
  }

  /** `baseDiscFolder`: the base name of the disc folder, or "". */
  function BaseDiscFolder(l: Layout, disc: int): string {
    if TotalDisks(l) > 1 then Text.BaseName(DiscFolderPath(l, disc)) else ""
  }

  /** The base name recovers the disc folder's own name. */
  lemma BaseDiscFolderIsName(l: Layout, disc: int)
    ensures BaseDiscFolder(l, disc) == DiscFolderName(TotalDisks(l), disc)
  {
    if TotalDisks(l) > 1 {
      DiscFolderHasNoSlash(TotalDisks(l), disc);
      Text.BaseNameOfJoin(l.albumFolderPath, DiscFolderName(TotalDisks(l), disc));
    }
  }

  /** `finalNewName`: the zero-filled track number, " - ", the cleaned title
      `newName` and the file's extension. */
  function NewName(l: Layout, newName: string, track: int, filePath: string): string {
    JoinName(PaddedTrack(l, track), newName, Text.SplitExt(filePath).1)
  }

  /** `properTrackNumber`: the track number zero-filled to the common width. */
  function PaddedTrack(l: Layout, track: int): string {
    Text.ZFill(Text.IntToString(track), TracksWidth(l))
  }

  function JoinName(number: string, title: string, extension: string): string {
    number + " - " + title + extension
  }

  lemma JoinNameParts(number: string, title: string, extension: string, w: nat)
    requires |number| == w
    ensures var r := JoinName(number, title, extension);
      |r| >= w + 3 && r[..w] == number && r[w..w + 3] == " - "
  {
    var r := JoinName(number, title, extension);
    assert r[..w] == number;
    assert r[w..w + 3] == " - ";
  }

  lemma JoinNameHasNoSlash(number: string, title: string, extension: string)
    requires '/' !in number && '/' !in title && '/' !in extension
    ensures '/' !in JoinName(number, title, extension)
  {
  }

  /** The new name starts with the track number in digits, as wide as every
      other track number from 1 to the track total, then " - ". */
  lemma NewNameNumber(l: Layout, newName: string, track: nat, filePath: string)
    requires 1 <= track <= Dict.Size2(l.names)
    ensures var r := NewName(l, newName, track, filePath); var w := TracksWidth(l);
      && |r| >= w + 3
      && Text.IsDigits(r[..w]) && Text.DigitsValue(r[..w]) == track
      && r[w..w + 3] == " - "
  {
    var number := PaddedTrack(l, track);
    var w := TracksWidth(l);
    Text.PaddedNumber(track, Dict.Size2(l.names));
    JoinNameParts(number, newName, Text.SplitExt(filePath).1, w);
  }

  lemma CleanNameHasNoSlash(name: string)
    ensures '/' !in CleanName(name)
  {
    CleanNameAvoidsUnsafe(name);
    assert '/' in OrganizeUtils.UnsafeCharacters;
  }

  /** The new name is a single path component. */
  lemma NewNameHasNoSlash(l: Layout, newName: string, track: int, filePath: string)
    requires '/' !in newName
    ensures '/' !in NewName(l, newName, track, filePath)
  {
    Text.ZFillIntHasNo(track, TracksWidth(l), '/');
    JoinNameHasNoSlash(PaddedTrack(l, track), newName, Text.SplitExt(filePath).1);
  }

  const NoChange := "**NO CHANGE**"

  /** The table row of the file at `item = (disc, track, filePath)`. */
  function TableRow(l: Layout, item: (int, int, string)): Ordering.Row4 {
    match Dict.Get2(l.names, item.0, item.1)
    case None => (item.0, item.1, Text.BaseName(item.2), NoChange)
    case Some(newName) =>
      (item.0, item.1, Text.BaseName(item.2), Text.PathJoin(BaseDiscFolder(l, item.0), " " + NewName(l, newName, item.1, item.2)))
  }

  /** `shutil.move(source, target)`. */
  datatype Move = Move(source: string, target: string)

  /** The move of the file at `item`, for a file whose slot has a title. */
  function MoveOf(l: Layout, item: (int, int, string)): Option<Move> {
    match Dict.Get2(l.names, item.0, item.1)
    case None => None
    case Some(newName) => Some(Move(item.2, Text.PathJoin(DiscFolderPath(l, item.0), NewName(l, newName, item.1, item.2))))
  }

  /** The rows in loop order, before sorting. */
  function Rows(l: Layout, items: seq<(int, int, string)>): (r: seq<Ordering.Row4>)
    ensures |r| == |items|
    ensures forall i :: 0 <= i < |items| ==> r[i] == TableRow(l, items[i])
  {
    seq(|items|, i requires 0 <= i < |items| => TableRow(l, items[i]))
  }

  /** The folders `os.makedirs` makes sure of: the album folder, then each
      disc's folder in loop order. */
  function Folders(l: Layout, files: Dict.Dict<Dict.Dict<string>>): (r: seq<string>)
    ensures |r| == |files| + 1 && r[0] == l.albumFolderPath
    ensures r[1..] == DiscFolders(l, files)
  {
    [l.albumFolderPath] + DiscFolders(l, files)
  }

  function DiscFolders(l: Layout, files: Dict.Dict<Dict.Dict<string>>): (r: seq<string>)
    ensures |r| == |files|
    ensures forall i :: 0 <= i < |files| ==> r[i] == DiscFolderPath(l, files[i].0)
  {
    seq(|files|, i requires 0 <= i < |files| => DiscFolderPath(l, files[i].0))
  }

  /** The moves of the files, in loop order. */
  function Moves(l: Layout, items: seq<(int, int, string)>): (r: seq<Move>)
    ensures |r| <= |items|
  {
    Collect(items, MoveFn(l))
  }

  /** `MoveOf` of the layout, as a value. */
  function MoveFn(l: Layout): ((int, int, string)) -> Option<Move> {
    item => MoveOf(l, item)
  }

  /** What one run does: the album folder, the folders it creates, the moves
      in order, the printed table and the move of the scans folder. */
  datatype Plan = Plan(
    albumFolder: string,
    albumFolderPath: string,
    folders: seq<string>,
    moves: seq<Move>,
    table: seq<Ordering.Row4>,
    scans: Option<Move>)

  /** `renameFiles`. `bestName` is `getBest(data['names'], languages)`,
      `catalog` is `data.get('catalog')`, `move` the MOVE setting, and the two
      booleans say whether "Scans" exists in the album folder and in the
      source folder. */
  function RenameFiles(
    titles: Dict.Dict<Dict.Dict<string>>, files: Dict.Dict<Dict.Dict<string>>,
    folderPath: string, bestName: string, releaseDate: string, catalog: Option<string>,
    move: bool, scansAtTarget: bool, scansAtSource: bool): Plan
  {
    var albumFolder := AlbumFolder(move, Text.ReplaceChar(releaseDate, '-', '.'), CleanName(bestName), catalog);
    Run(CleanTitles(titles), files, folderPath, albumFolder, move && !scansAtTarget && scansAtSource)
  }

  /** The run once the album folder's name is known. */
  function Run(
    names: Dict.Dict<Dict.Dict<string>>, files: Dict.Dict<Dict.Dict<string>>,
    folderPath: string, albumFolder: string, moveScans: bool): (r: Plan)
    ensures |r.folders| == |files| + 1 && r.folders[0] == r.albumFolderPath
    ensures r.albumFolder == albumFolder && r.albumFolderPath == Text.PathJoin(folderPath, albumFolder)
    ensures r.scans.Some? <==> moveScans
    ensures r.scans.Some? ==> r.scans.value == Move(Text.PathJoin(folderPath, "Scans"), r.albumFolderPath)
    ensures forall i, j :: 0 <= i < j < |r.table| ==> Ordering.RowLe(r.table[i], r.table[j])
  {
    var albumFolderPath := Text.PathJoin(folderPath, albumFolder);
    var l := Layout(names, albumFolderPath);
    Plan(
      albumFolder,
      albumFolderPath,
      Folders(l, files),
      Moves(l, Dict.Flatten(files)),
      Table(l, files),
      if moveScans then Some(Move(Text.PathJoin(folderPath, "Scans"), albumFolderPath)) else None)
  }

  // ---------------------------------------------------------------------------
  // No two files are moved to the same place

  /** The number before " - " is recovered from the name. */
  lemma JoinNameNumber(n1: string, t1: string, e1: string, n2: string, t2: string, e2: string)
    requires ' ' !in n1 && ' ' !in n2
    requires JoinName(n1, t1, e1) == JoinName(n2, t2, e2)
    ensures n1 == n2
  {
    JoinNameFind(n1, t1, e1);
    JoinNameFind(n2, t2, e2);
    JoinNameParts(n1, t1, e1, |n1|);
    JoinNameParts(n2, t2, e2, |n2|);
  }

  /** The first ' ' of the name is the one after the number. */
  lemma JoinNameFind(n: string, t: string, e: string)
    requires ' ' !in n
    ensures Text.Find(JoinName(n, t, e), ' ') == |n|
  {
    var r := JoinName(n, t, e);
    JoinNameParts(n, t, e, |n|);
    assert r[|n|] == ' ';
    Text.FindIsFirst(r, ' ', |n|) by {
      forall j | 0 <= j < |n|
        ensures r[j] != ' '
      {
        assert r[j] == r[..|n|][j] == n[j];
      }
    }
  }

  /** Files whose slots differ and which are both moved get different target
      paths: within a disc folder the zero-filled track numbers differ, and
      across discs the disc folders do. */
  lemma TargetsDiffer(l: Layout, x: (int, int, string), y: (int, int, string))
    requires SlashFree(l)
    requires (x.0, x.1) != (y.0, y.1)
    requires MoveOf(l, x).Some? && MoveOf(l, y).Some?
    ensures MoveOf(l, x).value.target != MoveOf(l, y).value.target
  {
    var tx := Dict.Get2(l.names, x.0, x.1).value;
    var ty := Dict.Get2(l.names, y.0, y.1).value;
    var nx := NewName(l, tx, x.1, x.2);
    var ny := NewName(l, ty, y.1, y.2);
    var px := DiscFolderPath(l, x.0);
    var py := DiscFolderPath(l, y.0);
    if Text.PathJoin(px, nx) == Text.PathJoin(py, ny) {
      NewNameHasNoSlash(l, tx, x.1, x.2);
      NewNameHasNoSlash(l, ty, y.1, y.2);
      JoinNameParts(PaddedTrack(l, x.1), tx, Text.SplitExt(x.2).1, |PaddedTrack(l, x.1)|);
      Text.BaseNameOfJoin(px, nx);
      Text.BaseNameOfJoin(py, ny);
      assert nx == ny;
      Text.ZFillIntHasNo(x.1, TracksWidth(l), ' ');
      Text.ZFillIntHasNo(y.1, TracksWidth(l), ' ');
      JoinNameNumber(PaddedTrack(l, x.1), tx, Text.SplitExt(x.2).1,
        PaddedTrack(l, y.1), ty, Text.SplitExt(y.2).1);
      Text.ZFillIntInjective(x.1, y.1, TracksWidth(l));
      DiscFoldersDiffer(l, x.0, y.0, nx);
    }
  }

  /** The same name in the folders of two different titled discs gives two
      different paths. */
  lemma DiscFoldersDiffer(l: Layout, d1: int, d2: int, name: string)
    requires d1 != d2 && Dict.HasKey(l.names, d1) && Dict.HasKey(l.names, d2)
    requires |name| > 0 && name[0] != '/'
    ensures Text.PathJoin(DiscFolderPath(l, d1), name) != Text.PathJoin(DiscFolderPath(l, d2), name)
  {
    if TotalDisks(l) <= 1 {
      var i :| 0 <= i < |l.names| && l.names[i].0 == d1;
      var j :| 0 <= j < |l.names| && l.names[j].0 == d2;
    } else {
      var a := l.albumFolderPath;
      var n := TotalDisks(l);
      var f1 := DiscFolderName(n, d1);
      var f2 := DiscFolderName(n, d2);
      var p1 := DiscFolderPath(l, d1);
      var p2 := DiscFolderPath(l, d2);
      DiscFolderHasNoSlash(n, d1);
      DiscFolderHasNoSlash(n, d2);
      assert p1[|p1| - 1] == f1[|f1| - 1];
      assert p2[|p2| - 1] == f2[|f2| - 1];
      if Text.PathJoin(p1, name) == Text.PathJoin(p2, name) {
        Text.PathJoinInjective(p1, p2, name);
        Text.BaseNameOfJoin(a, f1);
        Text.BaseNameOfJoin(a, f2);
        assert f1 == f2;
        assert f1[5..] == f2[5..];
        Text.ZFillIntInjective(d1, d2, Text.DigitCount(n));
      }
    }
  }

  /** A move in the list comes from one of the files. */
  lemma {:induction false} MovesMember(l: Layout, items: seq<(int, int, string)>, m: Move)
    requires m in Moves(l, items)
    ensures exists k :: 0 <= k < |items| && MoveOf(l, items[k]) == Some(m)
  {
    CollectMember(items, MoveFn(l), m);
    var k :| 0 <= k < |items| && MoveFn(l)(items[k]) == Some(m);
    assert MoveOf(l, items[k]) == Some(m);
  }

  /** The first file's target differs from every later file's. */
  lemma HeadTargetDiffers(l: Layout, items: seq<(int, int, string)>, m: Move, m': Move)
    requires SlashFree(l)
    requires |items| > 0 && MoveOf(l, items[0]) == Some(m) && m' in Moves(l, items[1..])
    requires forall k :: 0 < k < |items| ==> (items[0].0, items[0].1) != (items[k].0, items[k].1)
    ensures m.target != m'.target
  {
    var rest := items[1..];
    MovesMember(l, rest, m');
    var k :| 0 <= k < |rest| && MoveOf(l, rest[k]) == Some(m');
    assert rest[k] == items[k + 1];
    TargetsDiffer(l, items[0], rest[k]);
  }

  lemma RestKeysDistinct(items: seq<(int, int, string)>)
    requires |items| > 0
    requires forall i, j :: 0 <= i < j < |items| ==> (items[i].0, items[i].1) != (items[j].0, items[j].1)
    ensures forall i, j :: 0 <= i < j < |items| - 1 ==> (items[1..][i].0, items[1..][i].1) != (items[1..][j].0, items[1..][j].1)
    ensures forall k :: 0 < k < |items| ==> (items[0].0, items[0].1) != (items[k].0, items[k].1)
  {
    var rest := items[1..];
    forall i, j | 0 <= i < j < |rest|
      ensures (rest[i].0, rest[i].1) != (rest[j].0, rest[j].1)
    {
      assert rest[i] == items[i + 1] && rest[j] == items[j + 1];
    }
  }

  lemma ConsTargetsDistinct(m: Move, tail: seq<Move>)
    requires forall i, j :: 0 <= i < j < |tail| ==> tail[i].target != tail[j].target
    requires forall k :: 0 <= k < |tail| ==> m.target != tail[k].target
    ensures forall i, j :: 0 <= i < j < |[m] + tail| ==> ([m] + tail)[i].target != ([m] + tail)[j].target
  {
    var r := [m] + tail;
    forall i, j | 0 <= i < j < |r|
      ensures r[i].target != r[j].target
    {
      assert r[j] == tail[j - 1];
      if i > 0 {
        assert r[i] == tail[i - 1];
      }
    }
  }

  /** Files with distinct slots are moved to distinct targets. */
  lemma {:induction false} MovesDistinct(l: Layout, items: seq<(int, int, string)>)
    requires SlashFree(l)
    requires forall i, j :: 0 <= i < j < |items| ==> (items[i].0, items[i].1) != (items[j].0, items[j].1)
    ensures forall i, j :: 0 <= i < j < |Moves(l, items)| ==> Moves(l, items)[i].target != Moves(l, items)[j].target
  {
    if |items| > 0 {
      var rest := items[1..];
      RestKeysDistinct(items);
      MovesDistinct(l, rest);
      var tail := Moves(l, rest);
      if MoveOf(l, items[0]).Some? {
        var m := MoveOf(l, items[0]).value;
        forall k | 0 <= k < |tail|
          ensures m.target != tail[k].target
        {
          HeadTargetDiffers(l, items, m, tail[k]);
        }
        ConsTargetsDistinct(m, tail);
        assert Moves(l, items) == [m] + tail;
      } else {
        assert Moves(l, items) == tail;
      }
    }
  }

  // ---------------------------------------------------------------------------
  // The table

  /** A row shows the file's base name, and "**NO CHANGE**" exactly when the
      file's slot has no title; otherwise the new name under the disc folder's
      own name. */
  lemma TableRowMeaning(l: Layout, item: (int, int, string))
    ensures var row := TableRow(l, item);
      && row.0 == item.0 && row.1 == item.1 && row.2 == Text.BaseName(item.2)
      && (row.3 == NoChange <==> Dict.Get2(l.names, item.0, item.1).None?)
    ensures Dict.Get2(l.names, item.0, item.1).Some? ==>
      TableRow(l, item).3 == Text.PathJoin(DiscFolderName(TotalDisks(l), item.0),
        " " + NewName(l, Dict.Get2(l.names, item.0, item.1).value, item.1, item.2))
  {
    if Dict.Get2(l.names, item.0, item.1).Some? {
      BaseDiscFolderIsName(l, item.0);
      var f := DiscFolderName(TotalDisks(l), item.0);
      var b := " " + NewName(l, Dict.Get2(l.names, item.0, item.1).value, item.1, item.2);
      var r := Text.PathJoin(f, b);
      if f == "" {
        assert r == b && r[0] == ' ';
      } else {
        DiscFolderHasNoSlash(TotalDisks(l), item.0);
        assert r == f + "/" + b && r[0] == 'D';
      }
      assert NoChange[0] == '*';
    }
  }

  /** The row shows the file in slot (row.0, row.1). */
  ghost predicate ShowsFile(l: Layout, files: Dict.Dict<Dict.Dict<string>>, row: Ordering.Row4) {
    && Dict.Get2(files, row.0, row.1).Some?
    && row == TableRow(l, (row.0, row.1, Dict.Get2(files, row.0, row.1).value))
  }

  predicate HasSlot(rows: seq<Ordering.Row4>, d: int, t: int) {
    exists i :: 0 <= i < |rows| && rows[i].0 == d && rows[i].1 == t
  }

  /** The sorted table of a run. */
  function Table(l: Layout, files: Dict.Dict<Dict.Dict<string>>): (r: seq<Ordering.Row4>)
    ensures forall i, j :: 0 <= i < j < |r| ==> Ordering.RowLe(r[i], r[j])
  {
    Ordering.SortRows(Rows(l, Dict.Flatten(files)))
  }

  /** Every row of the table shows a file. */
  lemma TableShowsFiles(l: Layout, files: Dict.Dict<Dict.Dict<string>>)
    requires Dict.Wf2(files)
    ensures forall i :: 0 <= i < |Table(l, files)| ==> ShowsFile(l, files, Table(l, files)[i])
  {
    var items := Dict.Flatten(files);
    var rows := Rows(l, items);
    var table := Table(l, files);
    Dict.FlattenReads(files);
    forall i | 0 <= i < |table|
      ensures ShowsFile(l, files, table[i])
    {
      assert table[i] in rows;
      var k :| 0 <= k < |rows| && rows[k] == table[i];
      TableRowMeaning(l, items[k]);
    }
  }

  /** Every file has a row. */
  lemma TableComplete(l: Layout, files: Dict.Dict<Dict.Dict<string>>)
    requires Dict.Wf2(files)
    ensures forall d, t :: Dict.Get2(files, d, t).Some? ==> HasSlot(Table(l, files), d, t)
  {
    var items := Dict.Flatten(files);
    var rows := Rows(l, items);
    var table := Table(l, files);
    Dict.FlattenComplete(files);
    forall d, t | Dict.Get2(files, d, t).Some?
      ensures HasSlot(table, d, t)
    {
      var k :| 0 <= k < |items| && items[k].0 == d && items[k].1 == t;
      TableRowMeaning(l, items[k]);
      assert rows[k] in table;
      var i :| 0 <= i < |table| && table[i] == rows[k];
    }
  }

  /** The unsorted rows are pairwise different, one per file. */
  lemma RowsDistinct(l: Layout, files: Dict.Dict<Dict.Dict<string>>)
    requires Dict.Wf2(files)
    ensures forall i, j :: 0 <= i < j < |Rows(l, Dict.Flatten(files))| ==>
      Rows(l, Dict.Flatten(files))[i] != Rows(l, Dict.Flatten(files))[j]
  {
    var items := Dict.Flatten(files);
    var rows := Rows(l, items);
    Dict.FlattenDistinct(files);
    forall i, j | 0 <= i < j < |rows|
      ensures rows[i] != rows[j]
    {
      TableRowMeaning(l, items[i]);
      TableRowMeaning(l, items[j]);
    }
  }

  /** No file has two rows. */
  lemma TableKeysDistinct(l: Layout, files: Dict.Dict<Dict.Dict<string>>)
    requires Dict.Wf2(files)
    ensures forall i, j :: 0 <= i < j < |Table(l, files)| ==>
      (Table(l, files)[i].0, Table(l, files)[i].1) != (Table(l, files)[j].0, Table(l, files)[j].1)
  {
    var rows := Rows(l, Dict.Flatten(files));
    var table := Table(l, files);
    TableShowsFiles(l, files);
    RowsDistinct(l, files);
    forall i, j | 0 <= i < j < |table|
      ensures (table[i].0, table[i].1) != (table[j].0, table[j].1)
    {
      if (table[i].0, table[i].1) == (table[j].0, table[j].1) {
        assert ShowsFile(l, files, table[i]) && ShowsFile(l, files, table[j]);
        Dict.CountTwo(table, i, j);
        Dict.CountDistinct(rows, table[i]);
        assert false;
      }
    }
  }

  /** A titled file moves to its new name directly inside its disc folder. */
  lemma MoveOfMeaning(l: Layout, item: (int, int, string))
    requires SlashFree(l)
    ensures MoveOf(l, item).Some? <==> Dict.Get2(l.names, item.0, item.1).Some?
    ensures MoveOf(l, item).Some? ==>
      var newName := NewName(l, Dict.Get2(l.names, item.0, item.1).value, item.1, item.2);
      && MoveOf(l, item).value.source == item.2
      && MoveOf(l, item).value.target == Text.PathJoin(DiscFolderPath(l, item.0), newName)
      && Text.BaseName(MoveOf(l, item).value.target) == newName
  {
    if Dict.Get2(l.names, item.0, item.1).Some? {
      var name := Dict.Get2(l.names, item.0, item.1).value;
      NewNameHasNoSlash(l, name, item.1, item.2);
      JoinNameParts(PaddedTrack(l, item.1), name, Text.SplitExt(item.2).1, |PaddedTrack(l, item.1)|);
      Text.BaseNameOfJoin(DiscFolderPath(l, item.0), NewName(l, name, item.1, item.2));
    }
  }

  /** Every file that has a move is in the list. */
  lemma {:induction false} MovesComplete(l: Layout, items: seq<(int, int, string)>, k: nat, m: Move)
    requires k < |items| && MoveOf(l, items[k]) == Some(m)
    ensures m in Moves(l, items)
  {
    assert MoveFn(l)(items[k]) == Some(m);
    CollectComplete(items, MoveFn(l), k, m);
  }

  /** The move `m` is that of a file of the album. */
  ghost predicate MovedFrom(l: Layout, files: Dict.Dict<Dict.Dict<string>>, m: Move) {
    exists d, t :: Dict.Get2(files, d, t) == Some(m.source) && MoveOf(l, (d, t, m.source)) == Some(m)
  }

  // ---------------------------------------------------------------------------
  // What a run does

  /** The layout a run works from. */
  function LayoutOf(titles: Dict.Dict<Dict.Dict<string>>, p: Plan): Layout {
    Layout(CleanTitles(titles), p.albumFolderPath)
  }

  /** The printed table lists every file exactly once, in ascending order,
      with its base name and "**NO CHANGE**" exactly for the files whose slot
      has no title. */
  lemma RenameFilesTable(
    titles: Dict.Dict<Dict.Dict<string>>, files: Dict.Dict<Dict.Dict<string>>,
    folderPath: string, bestName: string, releaseDate: string, catalog: Option<string>,
    move: bool, scansAtTarget: bool, scansAtSource: bool)
    requires Dict.Wf2(files)
    ensures var p := RenameFiles(titles, files, folderPath, bestName, releaseDate, catalog, move, scansAtTarget, scansAtSource);
      && |p.table| == Dict.Size2(files)
      && (forall i, j :: 0 <= i < j < |p.table| ==> Ordering.RowLe(p.table[i], p.table[j]))
      && (forall i, j :: 0 <= i < j < |p.table| ==> (p.table[i].0, p.table[i].1) != (p.table[j].0, p.table[j].1))
      && (forall d, t :: Dict.Get2(files, d, t).Some? ==> HasSlot(p.table, d, t))
      && (forall i :: 0 <= i < |p.table| ==> ShowsFile(LayoutOf(titles, p), files, p.table[i]))
  {
    var p := RenameFiles(titles, files, folderPath, bestName, releaseDate, catalog, move, scansAtTarget, scansAtSource);
    var l := LayoutOf(titles, p);
    assert p.table == Table(l, files);
    var rows := Rows(l, Dict.Flatten(files));
    assert |p.table| == |rows| by {
      assert |multiset(p.table)| == |multiset(rows)|;
    }
    Dict.FlattenSize(files);
    TableShowsFiles(l, files);
    TableComplete(l, files);
    TableKeysDistinct(l, files);
  }

  /** A row of the table reads as the source promises: "**NO CHANGE**" for a
      file without a title, and otherwise the new name under the disc
      folder's name. */
  lemma ShownRow(titles: Dict.Dict<Dict.Dict<string>>, p: Plan, files: Dict.Dict<Dict.Dict<string>>, row: Ordering.Row4)
    requires ShowsFile(LayoutOf(titles, p), files, row)
    ensures row.2 == Text.BaseName(Dict.Get2(files, row.0, row.1).value)
    ensures row.3 == NoChange <==> Dict.Get2(titles, row.0, row.1).None?
    ensures Dict.Get2(titles, row.0, row.1).Some? ==>
      row.3 == Text.PathJoin(DiscFolderName(|titles|, row.0),
        " " + NewName(LayoutOf(titles, p), CleanName(Dict.Get2(titles, row.0, row.1).value), row.1,
          Dict.Get2(files, row.0, row.1).value))
  {
    var l := LayoutOf(titles, p);
    TableRowMeaning(l, (row.0, row.1, Dict.Get2(files, row.0, row.1).value));
    CleanTitlesGet(titles, row.0, row.1);
  }

  /** Every move is that of a file of the album. */
  lemma MovesFromFiles(l: Layout, files: Dict.Dict<Dict.Dict<string>>)
    requires SlashFree(l) && Dict.Wf2(files)
    ensures forall m :: m in Moves(l, Dict.Flatten(files)) ==> MovedFrom(l, files, m)
  {
    var items := Dict.Flatten(files);
    Dict.FlattenReads(files);
    forall m | m in Moves(l, items)
      ensures MovedFrom(l, files, m)
    {
      MovesMember(l, items, m);
      var k :| 0 <= k < |items| && MoveOf(l, items[k]) == Some(m);
      MoveOfMeaning(l, items[k]);
      assert Dict.Get2(files, items[k].0, items[k].1) == Some(m.source);
    }
  }

  /** Every file whose slot has a new name is moved. */
  lemma MovesOfNamed(l: Layout, files: Dict.Dict<Dict.Dict<string>>)
    requires Dict.Wf2(files)
    ensures forall d, t :: Dict.Get2(files, d, t).Some? && Dict.Get2(l.names, d, t).Some? ==>
      MoveOf(l, (d, t, Dict.Get2(files, d, t).value)).Some?
      && MoveOf(l, (d, t, Dict.Get2(files, d, t).value)).value in Moves(l, Dict.Flatten(files))
  {
    var items := Dict.Flatten(files);
    Dict.FlattenReads(files);
    Dict.FlattenComplete(files);
    forall d, t | Dict.Get2(files, d, t).Some? && Dict.Get2(l.names, d, t).Some?
      ensures MoveOf(l, (d, t, Dict.Get2(files, d, t).value)).Some?
      ensures MoveOf(l, (d, t, Dict.Get2(files, d, t).value)).value in Moves(l, items)
    {
      var k :| 0 <= k < |items| && items[k].0 == d && items[k].1 == t;
      assert items[k] == (d, t, Dict.Get2(files, d, t).value);
      MovesComplete(l, items, k, MoveOf(l, items[k]).value);
    }
  }

  /** No two files of a run are moved to the same path. */
  lemma RenameFilesMovesDistinct(
    titles: Dict.Dict<Dict.Dict<string>>, files: Dict.Dict<Dict.Dict<string>>,
    folderPath: string, bestName: string, releaseDate: string, catalog: Option<string>,
    move: bool, scansAtTarget: bool, scansAtSource: bool)
    requires Dict.Wf2(files)
    ensures var p := RenameFiles(titles, files, folderPath, bestName, releaseDate, catalog, move, scansAtTarget, scansAtSource);
      forall i, j :: 0 <= i < j < |p.moves| ==> p.moves[i].target != p.moves[j].target
  {
    var p := RenameFiles(titles, files, folderPath, bestName, releaseDate, catalog, move, scansAtTarget, scansAtSource);
    var l := LayoutOf(titles, p);
    assert p.moves == Moves(l, Dict.Flatten(files));
    CleanTitlesSlashFree(titles, p.albumFolderPath);
    Dict.FlattenDistinct(files);
    MovesDistinct(l, Dict.Flatten(files));
  }

  /** A run moves exactly the files that have a title: every move is of a
      file, and every file with a title is moved. */
  lemma RenameFilesMoves(
    titles: Dict.Dict<Dict.Dict<string>>, files: Dict.Dict<Dict.Dict<string>>,
    folderPath: string, bestName: string, releaseDate: string, catalog: Option<string>,
    move: bool, scansAtTarget: bool, scansAtSource: bool)
    requires Dict.Wf2(files)
    ensures var p := RenameFiles(titles, files, folderPath, bestName, releaseDate, catalog, move, scansAtTarget, scansAtSource);
      && (forall m :: m in p.moves ==> MovedFrom(LayoutOf(titles, p), files, m))
      && (forall d, t :: Dict.Get2(files, d, t).Some? && Dict.Get2(titles, d, t).Some? ==>
            MoveOf(LayoutOf(titles, p), (d, t, Dict.Get2(files, d, t).value)).Some?
            && MoveOf(LayoutOf(titles, p), (d, t, Dict.Get2(files, d, t).value)).value in p.moves)
  {
    var p := RenameFiles(titles, files, folderPath, bestName, releaseDate, catalog, move, scansAtTarget, scansAtSource);
    var l := LayoutOf(titles, p);
    assert p.moves == Moves(l, Dict.Flatten(files));
    CleanTitlesSlashFree(titles, p.albumFolderPath);
    MovesFromFiles(l, files);
    MovesOfNamed(l, files);
    forall d, t | Dict.Get2(titles, d, t).Some?
      ensures Dict.Get2(l.names, d, t).Some?
    {
      CleanTitlesGet(titles, d, t);
    }
  }

  /** The album folder is named only when files are moved, it and every disc
      folder of the files are made, and the scans folder moves in only when
      files are moved, it exists and the album folder has none yet. */
  lemma RenameFilesFolders(
    titles: Dict.Dict<Dict.Dict<string>>, files: Dict.Dict<Dict.Dict<string>>,
    folderPath: string, bestName: string, releaseDate: string, catalog: Option<string>,
    move: bool, scansAtTarget: bool, scansAtSource: bool)
    ensures var p := RenameFiles(titles, files, folderPath, bestName, releaseDate, catalog, move, scansAtTarget, scansAtSource);
      && (p.albumFolder == "" <==> !move)
      && p.albumFolderPath == Text.PathJoin(folderPath, p.albumFolder)
      && |p.folders| == |files| + 1 && p.folders[0] == p.albumFolderPath
      && (forall i :: 0 <= i < |files| ==> p.folders[i + 1] == DiscFolderPath(LayoutOf(titles, p), files[i].0))
      && (p.scans.Some? <==> move && !scansAtTarget && scansAtSource)
      && (p.scans.Some? ==> p.scans.value == Move(Text.PathJoin(folderPath, "Scans"), p.albumFolderPath))
  {
    var p := RenameFiles(titles, files, folderPath, bestName, releaseDate, catalog, move, scansAtTarget, scansAtSource);
    assert p.folders == Folders(LayoutOf(titles, p), files);
  }
}
