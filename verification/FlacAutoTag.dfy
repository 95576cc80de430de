/** FLAC_auto_tag.py, the first version of the tagger: how it trims the
    album link and the folder path, the year it shows for a result, and
    how `findAlbumID` numbers the results and reads the choice. The VGMDB
    search, `getBest` and the audio-file lookup enter as values. */
module FlacAutoTag {
  import opened Wrappers
  import Text
  import AlbumTagger

  /** `while albumLink and albumLink[-1] != '?'` drops the last character;
      the loop stops at the last '?' or at the empty string. */
  function UpToLastQuestion(s: string): (r: string)
    ensures Text.StartsWith(s, r)
    ensures |r| > 0 ==> r[|r| - 1] == '?'
    ensures forall i :: |r| <= i < |s| ==> s[i] != '?'
    decreases |s|
  {
    if |s| == 0 || s[|s| - 1] == '?' then s
    else
      var r := UpToLastQuestion(s[..|s| - 1]);
      assert forall i :: 0 <= i < |s| - 1 ==> s[..|s| - 1][i] == s[i];
      r
  }

  /** The album link: the text before the last '?', or "" when there is
      none (slicing `[:-1]` of an empty string is empty). */
  function TrimLink(link: string): (r: string)
    ensures '?' !in link ==> r == ""
    ensures '?' in link ==> (
      && |r| < |link| && link[|r|] == '?' && r == link[..|r|]
      && forall i :: |r| < i < |link| ==> link[i] != '?')
    ensures r == (var k := Text.RFind(link, '?'); if k < 0 then "" else link[..k])
  {
    var t := UpToLastQuestion(link);
    if |t| == 0 then "" else t[..|t| - 1]
  }

  /** `main`: the folder path (the default when none is given) without one
      trailing '/'; `folderPath[-1]` of an empty path raises IndexError. */
  function FolderPath(given: Option<string>, default: string): (r: Result<string>)
    ensures var p := if given.Some? && |given.value| > 0 then given.value else default;
      && (r.Err? <==> |p| == 0)
      && (r.Err? ==> r.error == IndexError)
      && (r.Ok? && p[|p| - 1] == '/' ==> r.value + "/" == p)
      && (r.Ok? && p[|p| - 1] != '/' ==> r.value == p)
  {
    var p := if given.Some? && |given.value| > 0 then given.value else default;
    if |p| == 0 then Err(IndexError)
    else if p[|p| - 1] == '/' then
      assert p[..|p| - 1] + "/" == p;
      Ok(p[..|p| - 1])
    else Ok(p)
  }

  /** Only one slash goes: a path ending in "//" keeps one. */
  lemma OneSlashRemoved(p: string)
    requires |p| >= 2 && p[|p| - 1] == '/' && p[|p| - 2] == '/'
    ensures FolderPath(Some(p), "").Ok?
    ensures var q := FolderPath(Some(p), "").value; |q| > 0 && q[|q| - 1] == '/'
  {
  }

  /** The year column: the first four characters of the release date, or
      "NA" when it is shorter. */
  function Year(releaseDate: string): (r: string)
    ensures |releaseDate| >= 4 ==> |r| == 4 && Text.StartsWith(releaseDate, r)
    ensures |releaseDate| < 4 ==> r == "NA"
  {
    if |releaseDate| >= 4 then releaseDate[0..4] else "NA"
  }

  /** A search result: its link below vgmdb.net and its release date. */
  datatype FoundAlbum = FoundAlbum(link: string, releaseDate: string)

  /** A row of the table: serial number, id and year. */
  datatype Row = Row(serial: int, albumId: string, year: string)

  /** The loop over the results: every one is listed, numbered from
      `first`, or the IndexError of the first link without '/'. */
  function Rows(albums: seq<FoundAlbum>, first: int): (r: Result<seq<Row>>)
    ensures r.Ok? <==> forall i :: 0 <= i < |albums| ==> '/' in albums[i].link
    ensures r.Err? ==> r.error == IndexError
    ensures r.Ok? ==> |r.value| == |albums| && forall i :: 0 <= i < |albums| ==>
      && r.value[i].serial == first + i
      && AlbumTagger.AlbumIdOf(albums[i].link) == Ok(r.value[i].albumId)
      && r.value[i].year == Year(albums[i].releaseDate)
    decreases |albums|
  {
    if |albums| == 0 then Ok([])
    else match AlbumTagger.AlbumIdOf(albums[0].link)
      case Err(e) => Err(e)
      case Ok(id) =>
        var rest := Rows(albums[1..], first + 1);
        assert forall i :: 1 <= i < |albums| ==> albums[i] == albums[1..][i - 1];
        if rest.Err? then rest
        else Ok([Row(first, id, Year(albums[0].releaseDate))] + rest.value)
  }

  /** `findAlbumID`: the term is the given one, else the first album tag
      of an audio file of the folder (`audioAlbum` is `None` when the
      folder has none, and lists the tag's values); `search` is `None`
      when the search fails. A choice that is not a serial gives `None`. */
  function FindAlbumId(searchTerm: Option<string>, audioAlbum: Option<seq<string>>,
                       search: string -> Option<seq<FoundAlbum>>, choice: string): (r: Result<Option<string>>)
    ensures searchTerm.None? && (audioAlbum.None? || |audioAlbum.value| == 0) ==> r == Ok(None)
    ensures r.Err? ==> r.error == IndexError
    ensures r.Ok? && r.value.Some? ==>
      var term := if searchTerm.Some? then searchTerm.value else audioAlbum.value[0];
      && search(term).Some?
      && var albums := search(term).value;
         var k := AlbumTagger.SerialOf(choice, |albums|);
         k.Some? && AlbumTagger.AlbumIdOf(albums[k.value - 1].link) == Ok(r.value.value)
    ensures r.Ok? && r.value.None? && searchTerm.Some? && search(searchTerm.value).Some? ==>
      var albums := search(searchTerm.value).value;
      |albums| == 0 || AlbumTagger.SerialOf(choice, |albums|).None?
  {
    if searchTerm.None? && (audioAlbum.None? || |audioAlbum.value| == 0) then Ok(None)
    else
      var term := if searchTerm.Some? then searchTerm.value else audioAlbum.value[0];
      var data := search(term);
      if data.None? then Ok(None) else Pick(data.value, choice)
  }

  /** The table of the results and the id the choice names on it; no
      results give `None`. */
  function Pick(albums: seq<FoundAlbum>, choice: string): (r: Result<Option<string>>)
    ensures r.Err? ==> r.error == IndexError
    ensures r.Ok? && r.value.Some? ==>
      var k := AlbumTagger.SerialOf(choice, |albums|);
      k.Some? && AlbumTagger.AlbumIdOf(albums[k.value - 1].link) == Ok(r.value.value)
    ensures r.Ok? && r.value.None? ==> |albums| == 0 || AlbumTagger.SerialOf(choice, |albums|).None?
  {
    if |albums| == 0 then Ok(None)
    else match Rows(albums, 1)
      case Err(e) => Err(e)
      case Ok(rows) =>
        match AlbumTagger.SerialOf(choice, |rows|)
        case None => Ok(None)
        case Some(k) => Ok(Some(rows[k - 1].albumId))
  }

  /** Typing the serial of a result picks that result's id. */
  lemma SerialPicksResult(term: string, search: string -> Option<seq<FoundAlbum>>, k: nat)
    requires search(term).Some? && 1 <= k <= |search(term).value|
    requires forall i :: 0 <= i < |search(term).value| ==> '/' in search(term).value[i].link
    ensures FindAlbumId(Some(term), None, search, Text.NatToString(k))
      == Ok(Some(AlbumTagger.AlbumIdOf(search(term).value[k - 1].link).value))
  {
    AlbumTagger.SerialOfNumber(k, |search(term).value|);
  }
}
