/** Modules/VGMDB/user_interface/cli.py: the match report between a local
    album and the VGMDB album linked to it, and the search for the album id. */
module Cli {
  import opened Wrappers
  import Text
  import Ordering
  import Dict
  import LocalAlbumData

  // ---------------------------------------------------------------------------
  // The linked VGMDB album, as the report reads it

  /** A VGMDB track: its name in the configured language order, and the local
      track linked to it, if any. */
  datatype RemoteTrack = RemoteTrack(title: string, localTrack: Option<LocalAlbumData.Track>)

  datatype RemoteDisc = RemoteDisc(tracks: Dict.Dict<RemoteTrack>)

  /** A VGMDB album after linking: its discs and the local tracks that no VGMDB
      track took. */
  datatype RemoteAlbum = RemoteAlbum(discs: Dict.Dict<RemoteDisc>, unmatchedLocalTracks: seq<LocalAlbumData.Track>)

  predicate RemoteWf(ds: Dict.Dict<RemoteDisc>) {
    Dict.Wf(ds) && forall i :: 0 <= i < |ds| ==> Dict.Wf(ds[i].1.tracks)
  }

  /** The VGMDB track in slot (`d`, `t`), if there is one. */
  function Slot(ds: Dict.Dict<RemoteDisc>, d: int, t: int): Option<RemoteTrack> {
    match Dict.Get(ds, d)
    case Some(disc) => Dict.Get(disc.tracks, t)
    case None => None
  }

  // ---------------------------------------------------------------------------
  // _find_and_show_match: the rows

  /** A row before blanking: disc, track, title, file name. */
  type RawRow = Ordering.Row4

  /** The linked local file's name, or "" when no local track is linked. */
  function LinkedName(rt: RemoteTrack): string {
    match rt.localTrack
    case Some(local) => LocalAlbumData.FileName(local)
    case None => ""
  }

  function DiscRows(d: int, ts: Dict.Dict<RemoteTrack>): (r: seq<RawRow>)
    ensures |r| == |ts|
    ensures forall i :: 0 <= i < |ts| ==> r[i] == (d, ts[i].0, ts[i].1.title, LinkedName(ts[i].1))
  {
    seq(|ts|, i requires 0 <= i < |ts| => (d, ts[i].0, ts[i].1.title, LinkedName(ts[i].1)))
  }

  /** One row per VGMDB track, disc after disc, in dict order. */
  function RemoteRows(ds: Dict.Dict<RemoteDisc>): seq<RawRow> {
    if |ds| == 0 then [] else DiscRows(ds[0].0, ds[0].1.tracks) + RemoteRows(ds[1..])
  }

  /** The row `row` shows the VGMDB track of its slot, with that track's title
      and linked file name. */
  predicate RowOfSlot(ds: Dict.Dict<RemoteDisc>, row: RawRow) {
    && Slot(ds, row.0, row.1).Some?
    && row.2 == Slot(ds, row.0, row.1).value.title
    && row.3 == LinkedName(Slot(ds, row.0, row.1).value)
  }

  /** The VGMDB rows are exactly one row per slot, each showing its slot. */
  lemma {:induction false} RemoteRowsExact(ds: Dict.Dict<RemoteDisc>)
    requires RemoteWf(ds)
    ensures RowsShowSlots(ds, RemoteRows(ds))
    ensures RowsDistinct(RemoteRows(ds))
    ensures forall d, t :: Slot(ds, d, t).Some? ==> HasRow(RemoteRows(ds), d, t)
  {
    if |ds| > 0 {
      RemoteWfTail(ds);
      RemoteRowsExact(ds[1..]);
      StepShows(ds);
      StepDistinct(ds);
      StepCovers(ds);
    }
  }

  lemma {:induction false} RemoteWfTail(ds: Dict.Dict<RemoteDisc>)
    requires RemoteWf(ds) && |ds| > 0
    ensures RemoteWf(ds[1..])
  {
    var rest := ds[1..];
    forall i | 0 <= i < |rest|
      ensures Dict.Wf(rest[i].1.tracks)
    {
      assert rest[i] == ds[i + 1];
    }
  }

  /** The rows of the first disc come first, then those of the rest. */
  lemma {:induction false} RemoteRowsSplit(ds: Dict.Dict<RemoteDisc>)
    requires |ds| > 0
    ensures RemoteRows(ds) == DiscRows(ds[0].0, ds[0].1.tracks) + RemoteRows(ds[1..])
  {
  }

  lemma {:induction false} StepShows(ds: Dict.Dict<RemoteDisc>)
    requires RemoteWf(ds) && |ds| > 0
    requires RowsShowSlots(ds[1..], RemoteRows(ds[1..]))
    ensures RowsShowSlots(ds, RemoteRows(ds))
  {
    var ts := ds[0].1.tracks;
    var head := DiscRows(ds[0].0, ts);
    var tail := RemoteRows(ds[1..]);
    RemoteRowsSplit(ds);
    var rows := head + tail;
    assert Dict.Get(ds, ds[0].0) == Some(ds[0].1);
    assert Dict.Wf(ts);
    forall i | 0 <= i < |rows|
      ensures RowOfSlot(ds, rows[i])
    {
      if i < |head| {
        Dict.GetAt(ts, i);
      } else {
        TailRowOfSlot(ds, i - |head|);
      }
    }
  }

  /** A row of the rest of the discs shows its slot among all the discs. */
  lemma {:induction false} TailRowOfSlot(ds: Dict.Dict<RemoteDisc>, k: nat)
    requires RemoteWf(ds) && |ds| > 0
    requires RowsShowSlots(ds[1..], RemoteRows(ds[1..])) && k < |RemoteRows(ds[1..])|
    ensures RemoteRows(ds)[|ds[0].1.tracks| + k] == RemoteRows(ds[1..])[k]
    ensures RowOfSlot(ds, RemoteRows(ds[1..])[k])
  {
    RemoteRowsSplit(ds);
    RestRowOfSlot(ds, RemoteRows(ds[1..])[k]);
  }

  lemma {:induction false} StepDistinct(ds: Dict.Dict<RemoteDisc>)
    requires RemoteWf(ds) && |ds| > 0
    requires RowsShowSlots(ds[1..], RemoteRows(ds[1..]))
    requires RowsDistinct(RemoteRows(ds[1..]))
    ensures RowsDistinct(RemoteRows(ds))
  {
    var rows := RemoteRows(ds);
    forall i, j | 0 <= i < j < |rows|
      ensures (rows[i].0, rows[i].1) != (rows[j].0, rows[j].1)
    {
      PairDistinct(ds, i, j);
    }
  }

  /** Two rows of a disc differ in their track; a row of the first disc
      and one of the rest differ in their disc; two rows of the rest differ
      already. */
  lemma {:induction false} PairDistinct(ds: Dict.Dict<RemoteDisc>, i: nat, j: nat)
    requires RemoteWf(ds) && |ds| > 0
    requires RowsShowSlots(ds[1..], RemoteRows(ds[1..]))
    requires RowsDistinct(RemoteRows(ds[1..]))
    requires i < j < |RemoteRows(ds)|
    ensures (RemoteRows(ds)[i].0, RemoteRows(ds)[i].1) != (RemoteRows(ds)[j].0, RemoteRows(ds)[j].1)
  {
    var n := |ds[0].1.tracks|;
    if j < n {
      HeadPairDistinct(ds, i, j);
    } else if i >= n {
      TailPairDistinct(ds, i, j);
    } else {
      CrossPairDistinct(ds, i, j);
    }
  }

  lemma {:induction false} HeadPairDistinct(ds: Dict.Dict<RemoteDisc>, i: nat, j: nat)
    requires RemoteWf(ds) && |ds| > 0 && i < j < |ds[0].1.tracks|
    ensures (RemoteRows(ds)[i].0, RemoteRows(ds)[i].1) != (RemoteRows(ds)[j].0, RemoteRows(ds)[j].1)
  {
    var ts := ds[0].1.tracks;
    RemoteRowsSplit(ds);
    assert Dict.Wf(ts);
    assert RemoteRows(ds)[i].1 == ts[i].0 && RemoteRows(ds)[j].1 == ts[j].0;
  }

  lemma {:induction false} TailPairDistinct(ds: Dict.Dict<RemoteDisc>, i: nat, j: nat)
    requires |ds| > 0 && RowsDistinct(RemoteRows(ds[1..]))
    requires |ds[0].1.tracks| <= i < j < |RemoteRows(ds)|
    ensures (RemoteRows(ds)[i].0, RemoteRows(ds)[i].1) != (RemoteRows(ds)[j].0, RemoteRows(ds)[j].1)
  {
    RemoteRowsSplit(ds);
    AfterDistinct(DiscRows(ds[0].0, ds[0].1.tracks), RemoteRows(ds[1..]), i, j);
  }

  /** Two rows after a prefix differ when the rows after it are distinct. */
  lemma {:induction false} AfterDistinct(head: seq<RawRow>, tail: seq<RawRow>, i: nat, j: nat)
    requires RowsDistinct(tail) && |head| <= i < j < |head + tail|
    ensures ((head + tail)[i].0, (head + tail)[i].1) != ((head + tail)[j].0, (head + tail)[j].1)
  {
    assert (head + tail)[i] == tail[i - |head|] && (head + tail)[j] == tail[j - |head|];
  }

  lemma {:induction false} CrossPairDistinct(ds: Dict.Dict<RemoteDisc>, i: nat, j: nat)
    requires RemoteWf(ds) && |ds| > 0
    requires RowsShowSlots(ds[1..], RemoteRows(ds[1..]))
    requires i < |ds[0].1.tracks| <= j < |RemoteRows(ds)|
    ensures RemoteRows(ds)[i].0 != RemoteRows(ds)[j].0
  {
    var n := |ds[0].1.tracks|;
    var tail := RemoteRows(ds[1..]);
    RemoteRowsSplit(ds);
    assert RemoteRows(ds)[i].0 == ds[0].0;
    assert RemoteRows(ds)[j] == tail[j - n];
    RestRowOfSlot(ds, tail[j - n]);
  }

  lemma {:induction false} StepCovers(ds: Dict.Dict<RemoteDisc>)
    requires RemoteWf(ds) && |ds| > 0
    requires forall d, t :: Slot(ds[1..], d, t).Some? ==> HasRow(RemoteRows(ds[1..]), d, t)
    ensures forall d, t :: Slot(ds, d, t).Some? ==> HasRow(RemoteRows(ds), d, t)
  {
    var d0 := ds[0].0;
    var ts := ds[0].1.tracks;
    var head := DiscRows(d0, ts);
    var tail := RemoteRows(ds[1..]);
    RemoteRowsSplit(ds);
    var rows := head + tail;
    assert Dict.Get(ds, d0) == Some(ds[0].1);
    forall d, t | Slot(ds, d, t).Some?
      ensures HasRow(rows, d, t)
    {
      if d == d0 {
        var k := Dict.IndexOf(ts, t);
        assert rows[k].0 == d && rows[k].1 == t;
      } else {
        Dict.GetTail(ds, d);
        assert Slot(ds[1..], d, t).Some?;
        assert HasRow(tail, d, t);
        var i :| 0 <= i < |tail| && tail[i].0 == d && tail[i].1 == t;
        assert rows[|head| + i] == tail[i];
      }
    }
  }

  ghost predicate RowsShowSlots(ds: Dict.Dict<RemoteDisc>, rows: seq<RawRow>) {
    forall i :: 0 <= i < |rows| ==> RowOfSlot(ds, rows[i])
  }

  predicate RowsDistinct(rows: seq<RawRow>) {
    forall i, j :: 0 <= i < j < |rows| ==> (rows[i].0, rows[i].1) != (rows[j].0, rows[j].1)
  }

  predicate HasRow(rows: seq<RawRow>, d: int, t: int) {
    exists i :: 0 <= i < |rows| && rows[i].0 == d && rows[i].1 == t
  }

  /** A row of the later discs shows its slot in the whole album too, and its
      disc is not the first disc. */
  lemma RestRowOfSlot(ds: Dict.Dict<RemoteDisc>, row: RawRow)
    requires RemoteWf(ds) && |ds| > 0 && RowOfSlot(ds[1..], row)
    ensures row.0 != ds[0].0 && RowOfSlot(ds, row)
  {
    Dict.TailKeyIsNotFirst(ds, row.0);
    Dict.GetTail(ds, row.0);
  }

  /** `ifNot(value, default)`: the value when it is truthy (present and not
      0), else the default. */
  function IfNot(value: Option<int>, default: int): int {
    if value.Some? && value.value != 0 then value.value else default
  }

  /** One row per unmatched local track: its tagged disc and track numbers
      (`nullInt` for a missing one), no title, and its file name. */
  function UnmatchedRows(us: seq<LocalAlbumData.Track>, nullInt: int): (r: seq<RawRow>)
    ensures |r| == |us|
    ensures forall i :: 0 <= i < |us| ==>
      r[i].2 == "" && r[i].3 == LocalAlbumData.FileName(us[i])
      && r[i].0 == IfNot(us[i].audio.discNumber, nullInt) && r[i].1 == IfNot(us[i].audio.trackNumber, nullInt)
  {
    seq(|us|, i requires 0 <= i < |us| =>
      (IfNot(us[i].audio.discNumber, nullInt), IfNot(us[i].audio.trackNumber, nullInt), "", LocalAlbumData.FileName(us[i])))
  }

  /** The rows before sorting. */
  function TableRows(album: RemoteAlbum, nullInt: int): seq<RawRow> {
    RemoteRows(album.discs) + UnmatchedRows(album.unmatchedLocalTracks, nullInt)
  }

  // ---------------------------------------------------------------------------
  // Sorting and blanking

  /** A report cell that shows a number, or the blank "". */
  datatype Cell = Num(n: int) | Blank

  datatype Row = Row(disc: Cell, track: Cell, title: string, fileName: string)

  /** A row whose disc is `nullInt` shows "" for both numbers. */
  function BlankRow(row: RawRow, nullInt: int): (r: Row)
    ensures r.title == row.2 && r.fileName == row.3
    ensures row.0 == nullInt ==> r.disc == Blank && r.track == Blank
    ensures row.0 != nullInt ==> r.disc == Num(row.0) && r.track == Num(row.1)
  {
    if row.0 == nullInt then Row(Blank, Blank, row.2, row.3) else Row(Num(row.0), Num(row.1), row.2, row.3)
  }

  /** The report table: the rows sorted as tuples, then blanked. */
  function Report(album: RemoteAlbum, nullInt: int): (r: seq<Row>)
    ensures |r| == |TableRows(album, nullInt)|
    ensures forall i :: 0 <= i < |r| ==> r[i] == BlankRow(Ordering.SortRows(TableRows(album, nullInt))[i], nullInt)
  {
    var sorted := Ordering.SortRows(TableRows(album, nullInt));
    seq(|sorted|, i requires 0 <= i < |sorted| => BlankRow(sorted[i], nullInt))
  }

  // ---------------------------------------------------------------------------
  // The perfect match

  predicate CellTruthy(c: Cell) {
    c.Num? && c.n != 0
  }

  /** Every field of the row is truthy. */
  predicate RowTruthy(row: Row) {
    CellTruthy(row.disc) && CellTruthy(row.track) && row.title != "" && row.fileName != ""
  }

  /** `all(col for row in table_data for col in row)`. */
  predicate IsPerfectMatch(rows: seq<Row>) {
    forall i :: 0 <= i < |rows| ==> RowTruthy(rows[i])
  }

  /** What makes a row before blanking count as matched. */
  predicate RawTruthy(row: RawRow, nullInt: int) {
    row.0 != nullInt && row.0 != 0 && row.1 != 0 && row.2 != "" && row.3 != ""
  }

  predicate AllRawTruthy(rows: seq<RawRow>, nullInt: int) {
    forall i :: 0 <= i < |rows| ==> RawTruthy(rows[i], nullInt)
  }

  /** A blanked row is truthy exactly when it was matched before blanking. */
  lemma BlankTruthy(row: RawRow, nullInt: int)
    ensures RowTruthy(BlankRow(row, nullInt)) <==> RawTruthy(row, nullInt)
  {
  }

  /** Truthiness of every row does not depend on their order. */
  lemma TruthyOfRearranged(raw: seq<RawRow>, sorted: seq<RawRow>, nullInt: int)
    requires forall x :: x in sorted <==> x in raw
    ensures (forall j :: 0 <= j < |sorted| ==> RowTruthy(BlankRow(sorted[j], nullInt))) <==> AllRawTruthy(raw, nullInt)
  {
    if forall j :: 0 <= j < |sorted| ==> RowTruthy(BlankRow(sorted[j], nullInt)) {
      forall i | 0 <= i < |raw|
        ensures RawTruthy(raw[i], nullInt)
      {
        assert raw[i] in sorted;
        var j :| 0 <= j < |sorted| && sorted[j] == raw[i];
        BlankTruthy(sorted[j], nullInt);
      }
    }
    if AllRawTruthy(raw, nullInt) {
      forall j | 0 <= j < |sorted|
        ensures RowTruthy(BlankRow(sorted[j], nullInt))
      {
        assert sorted[j] in raw;
        var i :| 0 <= i < |raw| && raw[i] == sorted[j];
        BlankTruthy(sorted[j], nullInt);
      }
    }
  }

  /** The report is a perfect match exactly when every row was matched before
      sorting and blanking. */
  lemma PerfectMatchOfRows(album: RemoteAlbum, nullInt: int)
    ensures IsPerfectMatch(Report(album, nullInt)) <==> AllRawTruthy(TableRows(album, nullInt), nullInt)
  {
    var raw := TableRows(album, nullInt);
    TruthyOfRearranged(raw, Ordering.SortRows(raw), nullInt);
  }

  /** The rows before sorting are all matched exactly when there is no
      unmatched local track and every VGMDB row is matched. */
  lemma RowsTruthySplit(album: RemoteAlbum, nullInt: int)
    ensures AllRawTruthy(TableRows(album, nullInt), nullInt) <==>
      |album.unmatchedLocalTracks| == 0 && AllRawTruthy(RemoteRows(album.discs), nullInt)
  {
    var remote := RemoteRows(album.discs);
    var unmatched := UnmatchedRows(album.unmatchedLocalTracks, nullInt);
    var raw := TableRows(album, nullInt);
    if |album.unmatchedLocalTracks| > 0 {
      assert raw[|remote|] == unmatched[0];
    }
    if AllRawTruthy(raw, nullInt) {
      forall i | 0 <= i < |remote|
        ensures RawTruthy(remote[i], nullInt)
      {
        assert raw[i] == remote[i];
      }
    }
    if |album.unmatchedLocalTracks| == 0 {
      assert raw == remote;
    }
  }

  /** The report is a perfect match exactly when there is no unmatched local
      track and every VGMDB row has non-zero numbers, a disc other than
      `nullInt`, a title and a linked file. */
  lemma PerfectMatchIff(album: RemoteAlbum, nullInt: int)
    ensures IsPerfectMatch(Report(album, nullInt)) <==>
      |album.unmatchedLocalTracks| == 0 && AllRawTruthy(RemoteRows(album.discs), nullInt)
  {
    PerfectMatchOfRows(album, nullInt);
    RowsTruthySplit(album, nullInt);
  }

  /** A perfect match links every VGMDB track to a local file and gives it a
      title and non-zero numbers. */
  lemma PerfectMatchLinksAll(album: RemoteAlbum, nullInt: int, d: int, t: int)
    requires RemoteWf(album.discs) && IsPerfectMatch(Report(album, nullInt))
    requires Slot(album.discs, d, t).Some?
    ensures d != 0 && t != 0 && d != nullInt
    ensures Slot(album.discs, d, t).value.title != ""
    ensures Slot(album.discs, d, t).value.localTrack.Some?
  {
    PerfectMatchIff(album, nullInt);
    RemoteRowsExact(album.discs);
    var rows := RemoteRows(album.discs);
    assert HasRow(rows, d, t);
    var i :| 0 <= i < |rows| && rows[i].0 == d && rows[i].1 == t;
    assert RawTruthy(rows[i], nullInt);
    assert RowOfSlot(album.discs, rows[i]);
  }

  // ---------------------------------------------------------------------------
  // _get_album_id: the embedded id

  /** As written: `vgmdb_id[0].isdigit` names the method without calling it,
      and a bound method is always truthy, so any first value is taken. */
  function EmbeddedIdAsWritten(vgmdbId: seq<string>): (r: Option<string>)
    ensures r.Some? <==> |vgmdbId| > 0
    ensures r.Some? ==> r.value == vgmdbId[0]
  {
    if |vgmdbId| > 0 then Some(vgmdbId[0]) else None
  }

  /** With the call made: the first value, when it is all digits. */
  function EmbeddedId(vgmdbId: seq<string>): (r: Option<string>)
    ensures r.Some? <==> |vgmdbId| > 0 && Text.IsDigits(vgmdbId[0])
    ensures r.Some? ==> r.value == vgmdbId[0] && Text.IsDigits(r.value)
  {
    if |vgmdbId| > 0 && Text.IsDigits(vgmdbId[0]) then Some(vgmdbId[0]) else None
  }

  /** A tag holding "x" passes as an album id as written, and is refused once
      `isdigit` is called. */
  lemma NonNumericIdAccepted()
    ensures EmbeddedIdAsWritten(["x"]) == Some("x")
    ensures EmbeddedId(["x"]) == None
  {
    assert !Text.IsDigit("x"[0]);
  }

  /** The two agree on every tag whose first value is all digits. */
  lemma EmbeddedIdsAgreeOnDigits(vgmdbId: seq<string>)
    requires |vgmdbId| > 0 ==> Text.IsDigits(vgmdbId[0])
    ensures EmbeddedIdAsWritten(vgmdbId) == EmbeddedId(vgmdbId)
  {
  }

  // ---------------------------------------------------------------------------
  // The search term

  datatype Reason = ProvidedSearchTerm | CatalogNumber | Barcode | AlbumName | FolderName

  /** `_extract_search_term_from_audio_file`: the first value of the first of
      catalog, barcode and album that has any. */
  function ExtractSearchTerm(audio: LocalAlbumData.AudioManager): (r: Option<(string, Reason)>)
    ensures r.None? <==> |audio.catalog| == 0 && |audio.barcode| == 0 && |audio.album| == 0
    ensures |audio.catalog| > 0 ==> r == Some((audio.catalog[0], CatalogNumber))
    ensures |audio.catalog| == 0 && |audio.barcode| > 0 ==> r == Some((audio.barcode[0], Barcode))
    ensures |audio.catalog| == 0 && |audio.barcode| == 0 && |audio.album| > 0 ==> r == Some((audio.album[0], AlbumName))
  {
    if |audio.catalog| > 0 then Some((audio.catalog[0], CatalogNumber))
    else if |audio.barcode| > 0 then Some((audio.barcode[0], Barcode))
    else if |audio.album| > 0 then Some((audio.album[0], AlbumName))
    else None
  }

  /** The search term and why: `config.search`, else the tag term, else the
      folder name; each only when it is a non-empty string. An empty first
      catalog value is not passed over for the barcode: it falls through to the
      folder name. */
  function SearchTerm(configSearch: Option<string>, audio: LocalAlbumData.AudioManager, folderName: string): (r: Option<(string, Reason)>)
    ensures r.Some? ==> r.value.0 != ""
    ensures r.None? <==>
      (configSearch.GetOr("") == "" && folderName == "" &&
       (ExtractSearchTerm(audio).None? || ExtractSearchTerm(audio).value.0 == ""))
    ensures configSearch.GetOr("") != "" ==> r == Some((configSearch.value, ProvidedSearchTerm))
    ensures r.Some? && r.value.1 == FolderName ==> r.value.0 == folderName
  {
    if configSearch.GetOr("") != "" then Some((configSearch.value, ProvidedSearchTerm))
    else match ExtractSearchTerm(audio)
      case Some(term) =>
        if term.0 != "" then Some(term)
        else if folderName != "" then Some((folderName, FolderName)) else None
      case None => if folderName != "" then Some((folderName, FolderName)) else None
  }

  // ---------------------------------------------------------------------------
  // The search table

  /** A search result as the table shows it: catalog, album name in the
      configured language order, link and release year. */
  datatype SearchRow = SearchRow(catalog: string, title: string, link: string, releaseYear: Option<string>)

  /** `year and result.release_year == year`, with a falsy year failing. */
  predicate YearMatches(year: Option<string>, row: SearchRow) {
    year.Some? && year.value != "" && row.releaseYear == year
  }

  /** The rows the comprehension keeps: all of them without the year filter,
      else those whose year is the tag's year, in their order. */
  function Filter(results: seq<SearchRow>, yearFilter: bool, year: Option<string>): (r: seq<SearchRow>)
    ensures |r| <= |results|
    ensures forall x :: x in r <==> x in results && (!yearFilter || YearMatches(year, x))
  {
    if |results| == 0 then []
    else
      var rest := Filter(results[1..], yearFilter, year);
      if !yearFilter || YearMatches(year, results[0]) then [results[0]] + rest else rest
  }

  /** Without the filter every row stays, in order. */
  lemma {:induction false} FilterOff(results: seq<SearchRow>, year: Option<string>)
    ensures Filter(results, false, year) == results
  {
    if |results| > 0 {
      FilterOff(results[1..], year);
    }
  }

  /** With the filter on and no year to compare with, no row stays. */
  lemma {:induction false} FilterWithoutYear(results: seq<SearchRow>, year: Option<string>)
    requires year.None? || year.value == ""
    ensures Filter(results, true, year) == []
  {
    if |results| > 0 {
      FilterWithoutYear(results[1..], year);
    }
  }

  predicate TitleLe(a: SearchRow, b: SearchRow) {
    Ordering.StrLe(a.title, b.title)
  }

  function TitleOrder(): (le: (SearchRow, SearchRow) -> bool)
    ensures forall a, b :: le(a, b) <==> TitleLe(a, b)
    ensures Ordering.Total(le) && Ordering.Transitive(le)
  {
    var le := (a: SearchRow, b: SearchRow) => TitleLe(a, b);
    forall a: SearchRow, b: SearchRow
      ensures le(a, b) || le(b, a)
    {
      Ordering.StrLeTotal(a.title, b.title);
    }
    forall a: SearchRow, b: SearchRow, c: SearchRow | le(a, b) && le(b, c)
      ensures le(a, c)
    {
      Ordering.StrLeTrans(a.title, b.title, c.title);
    }
    le
  }

  /** The table shown: the kept rows, sorted by title. */
  function SearchTable(results: seq<SearchRow>, yearFilter: bool, year: Option<string>): (r: seq<SearchRow>)
    ensures multiset(r) == multiset(Filter(results, yearFilter, year))
  {
    Ordering.SortBy(TitleOrder(), Filter(results, yearFilter, year))
  }

  /** The table is sorted by title and holds exactly the rows the filter keeps. */
  lemma SearchTableSpec(results: seq<SearchRow>, yearFilter: bool, year: Option<string>)
    ensures var r := SearchTable(results, yearFilter, year);
      && Ordering.SortedBy(TitleOrder(), r)
      && forall x :: x in r <==> x in results && (!yearFilter || YearMatches(year, x))
  {
    Ordering.SortBySorted(TitleOrder(), Filter(results, yearFilter, year));
    forall x
      ensures x in SearchTable(results, yearFilter, year) <==> x in Filter(results, yearFilter, year)
    {
      Ordering.SortByMember(TitleOrder(), Filter(results, yearFilter, year), x);
    }
  }

  /** Rows with the same title stay in the order the search gave them. */
  lemma SearchTableStable(results: seq<SearchRow>, yearFilter: bool, year: Option<string>, c: SearchRow)
    ensures Ordering.Peers(TitleOrder(), c, SearchTable(results, yearFilter, year))
      == Ordering.Peers(TitleOrder(), c, Filter(results, yearFilter, year))
  {
    Ordering.SortByStable(TitleOrder(), c, Filter(results, yearFilter, year));
  }

  // ---------------------------------------------------------------------------
  // The choice loop

  /** `is_choice_within_bounds`: text that is not all digits passes, and a
      number passes when it is a serial of the table. */
  predicate IsChoiceWithinBounds(choice: string, numResults: nat) {
    !Text.IsDigits(choice) || 1 <= Text.DigitsValue(choice) <= numResults
  }

  /** The loop's variables: the search term, the year filter flag and
      `config.search`. */
  datatype LoopState = LoopState(searchTerm: string, yearFilter: bool, configSearch: Option<string>)

  /** What the loop ends with: the album id, if one was chosen, and
      `config.search` as the loop left it. */
  datatype Outcome = Outcome(albumId: Option<string>, configSearch: Option<string>)

  /** What one answer does. */
  datatype Step = Continue(next: LoopState) | Done(result: Result<Outcome>)

  /** A number is none of the loop's keywords. */
  lemma DigitsAreNoKeyword(c: string)
    ensures Text.IsDigits(c) ==> Text.Lower(c) !in {"noyearfilter", "yearfilter", "exit"}
  {
    if Text.IsDigits(c) {
      assert Text.IsDigit(Text.Lower(c)[0]);
    }
  }

  /** Python's `xs[i]` on a list of length `size`: a negative `i` counts
      from the end, and an `i` below `-size` or from `size` on raises
      `IndexError` (`None` here). */
  function PyIndex(i: int, size: nat): (r: Option<nat>)
    ensures r.Some? <==> 0 <= i + size && i < size
    ensures r.Some? ==> r.value < size && (r.value == i || r.value == i + size)
  {
    if 0 <= i < size then Some(i)
    else if 0 <= i + size && i < 0 then Some(i + size)
    else None
  }

  /** `id` is the base name of the link of row `table_data[n - 1]`, which
      Python finds for `n` from 0 to the table's length when the table is
      not empty. */
  predicate PicksRow(table: seq<SearchRow>, n: nat, id: string) {
    n <= |table| && |table| > 0 && id == Text.BaseName(table[PyIndex(n - 1, |table|).value].link)
  }

  /** The loop body on an answer that is a number `n`: `table_data[n - 1]`,
      so a serial of the table picks its row, `0` picks the last row of a
      non-empty table, and any other number raises `IndexError`. */
  function NumberStep(st: LoopState, table: seq<SearchRow>, n: nat): (r: Step)
    ensures r.Done?
    ensures 1 <= n <= |table| ==> r == Done(Ok(Outcome(Some(Text.BaseName(table[n - 1].link)), st.configSearch)))
    ensures n == 0 && |table| > 0 ==> r == Done(Ok(Outcome(Some(Text.BaseName(table[|table| - 1].link)), st.configSearch)))
    ensures n > |table| || |table| == 0 ==> r == Done(Err(IndexError))
    ensures r.result.Ok? ==> r.result.value.albumId.Some? && PicksRow(table, n, r.result.value.albumId.value)
  {
    if 1 <= n <= |table| then Done(Ok(Outcome(Some(Text.BaseName(table[n - 1].link)), st.configSearch)))
    else if n == 0 && |table| > 0 then Done(Ok(Outcome(Some(Text.BaseName(table[|table| - 1].link)), st.configSearch)))
    else Done(Err(IndexError))
  }

  /** The loop body on an answer `c` that is not a number: a keyword in any
      case, or else a new search term. */
  function WordStep(st: LoopState, c: string): (r: Step)
    ensures Text.Lower(c) == "noyearfilter" ==> r == Continue(st.(yearFilter := false))
    ensures Text.Lower(c) == "yearfilter" ==> r == Continue(st.(yearFilter := true))
    ensures Text.Lower(c) == "exit" ==> r == Done(Ok(Outcome(None, st.configSearch)))
    ensures Text.Lower(c) !in {"noyearfilter", "yearfilter", "exit"} ==> r == Continue(LoopState(c, st.yearFilter, Some(c)))
    ensures r.Done? ==> r.result == Ok(Outcome(None, st.configSearch))
  {
    var low := Text.Lower(c);
    if low == "noyearfilter" then Continue(st.(yearFilter := false))
    else if low == "yearfilter" then Continue(st.(yearFilter := true))
    else if low == "exit" then Done(Ok(Outcome(None, st.configSearch)))
    else Continue(LoopState(c, st.yearFilter, Some(c)))
  }

  /** One pass of the loop body on the answer `choice` (`None` when the prompt
      was cancelled), given the table shown. */
  function ChoiceStep(st: LoopState, table: seq<SearchRow>, choice: Option<string>): (r: Step)
    ensures choice.None? ==> r == Done(Ok(Outcome(None, st.configSearch)))
    ensures choice.Some? && Text.Lower(choice.value) == "noyearfilter" ==> r == Continue(st.(yearFilter := false))
    ensures choice.Some? && Text.Lower(choice.value) == "yearfilter" ==> r == Continue(st.(yearFilter := true))
    ensures choice.Some? && Text.Lower(choice.value) == "exit" ==> r == Done(Ok(Outcome(None, st.configSearch)))
    ensures choice.Some? && Text.Lower(choice.value) !in {"noyearfilter", "yearfilter", "exit"} && !Text.IsDigits(choice.value) ==>
      r == Continue(LoopState(choice.value, st.yearFilter, Some(choice.value)))
    ensures choice.Some? && Text.IsDigits(choice.value) && 1 <= Text.DigitsValue(choice.value) <= |table| ==>
      r == Done(Ok(Outcome(Some(Text.BaseName(table[Text.DigitsValue(choice.value) - 1].link)), st.configSearch)))
    ensures choice.Some? && Text.IsDigits(choice.value) && Text.DigitsValue(choice.value) == 0 && |table| > 0 ==>
      r == Done(Ok(Outcome(Some(Text.BaseName(table[|table| - 1].link)), st.configSearch)))
    ensures choice.Some? && Text.IsDigits(choice.value) && (Text.DigitsValue(choice.value) > |table| || |table| == 0) ==>
      r == Done(Err(IndexError))
    ensures r.Done? && r.result.Ok? && r.result.value.albumId.Some? ==>
      choice.Some? && Text.IsDigits(choice.value) && PicksRow(table, Text.DigitsValue(choice.value), r.result.value.albumId.value)
    ensures r.Done? && r.result.Err? ==> r.result.error == IndexError
  {
    match choice
    case None => Done(Ok(Outcome(None, st.configSearch)))
    case Some(c) =>
      // A number is no keyword, so testing it first keeps the source's meaning.
      DigitsAreNoKeyword(c);
      if Text.IsDigits(c) then NumberStep(st, table, Text.DigitsValue(c))
      else WordStep(st, c)
  }

  /** The loop over the answers the user gives, `search` standing for the
      VGMDB search and `year` for the tag's year. When the table is not empty
      the prompt validates with `is_choice_within_bounds` and asks again on an
      answer it refuses; an empty table's prompt does not validate. The model
      ends with `Aborted` when the answers run out. */
  function ChoiceLoop(search: string -> seq<SearchRow>, year: Option<string>, st: LoopState, answers: seq<Option<string>>): (r: Result<Outcome>)
    decreases |answers|
  {
    if |answers| == 0 then Err(Aborted("no answer"))
    else
      var table := SearchTable(search(st.searchTerm), st.yearFilter, year);
      var choice := answers[0];
      if |table| > 0 && choice.Some? && !IsChoiceWithinBounds(choice.value, |table|) then
        ChoiceLoop(search, year, st, answers[1..])
      else
        match ChoiceStep(st, table, choice)
        case Continue(next) => ChoiceLoop(search, year, next, answers[1..])
        case Done(result) => result
  }

  lemma FoundAt(search: string -> seq<SearchRow>, year: Option<string>, term: string, flag: bool, row: SearchRow)
    requires row in search(term) && row in SearchTable(search(term), flag, year)
    ensures FoundBySearch(search, year, Text.BaseName(row.link))
  {
  }

  /** An id the loop returns is the base name of the link of a row some search
      showed; the loop fails only with `IndexError` or when the answers run out. */
  lemma {:induction false} ChoiceLoopOutcome(search: string -> seq<SearchRow>, year: Option<string>, st: LoopState, answers: seq<Option<string>>)
    ensures var r := ChoiceLoop(search, year, st, answers);
      && (r.Ok? && r.value.albumId.Some? ==> FoundBySearch(search, year, r.value.albumId.value))
      && (r.Err? ==> r.error == IndexError || r.error == Aborted("no answer"))
    decreases |answers|
  {
    if |answers| > 0 {
      var table := SearchTable(search(st.searchTerm), st.yearFilter, year);
      var choice := answers[0];
      if |table| > 0 && choice.Some? && !IsChoiceWithinBounds(choice.value, |table|) {
        ChoiceLoopOutcome(search, year, st, answers[1..]);
      } else {
        match ChoiceStep(st, table, choice)
        case Continue(next) => ChoiceLoopOutcome(search, year, next, answers[1..]);
        case Done(result) => DoneFound(search, year, st, choice);
      }
    }
  }

  /** An answer that ends the loop picks a row the search showed, or fails
      with `IndexError`. */
  lemma {:induction false} DoneFound(search: string -> seq<SearchRow>, year: Option<string>, st: LoopState, choice: Option<string>)
    requires ChoiceStep(st, SearchTable(search(st.searchTerm), st.yearFilter, year), choice).Done?
    ensures var result := ChoiceStep(st, SearchTable(search(st.searchTerm), st.yearFilter, year), choice).result;
      && (result.Ok? && result.value.albumId.Some? ==> FoundBySearch(search, year, result.value.albumId.value))
      && (result.Err? ==> result.error == IndexError)
  {
    var table := SearchTable(search(st.searchTerm), st.yearFilter, year);
    var result := ChoiceStep(st, table, choice).result;
    if result.Ok? && result.value.albumId.Some? {
      var row := table[PyIndex(Text.DigitsValue(choice.value) - 1, |table|).value];
      SearchTableSpec(search(st.searchTerm), st.yearFilter, year);
      FoundAt(search, year, st.searchTerm, st.yearFilter, row);
    }
  }

  /** A number the prompt accepted from a non-empty table never raises: it
      selects that row. */
  lemma ValidatedChoiceSelects(st: LoopState, table: seq<SearchRow>, choice: string)
    requires |table| > 0 && Text.IsDigits(choice) && IsChoiceWithinBounds(choice, |table|)
    ensures ChoiceStep(st, table, Some(choice)).Done?
    ensures ChoiceStep(st, table, Some(choice)).result.Ok?
  {
    var low := Text.Lower(choice);
    assert Text.IsDigit(low[0]);
  }

  // ---------------------------------------------------------------------------
  // _get_album_id

  /** As written: `local_album_data.get_one_random_track()` names a method
      `LocalAlbumData` does not have, so every call raises `AttributeError`
      before anything else happens. */
  function GetAlbumIdAsWritten(album: LocalAlbumData.Album, configSearch: Option<string>): (r: Result<Outcome>)
    ensures r == Err(AttributeError)
  {
    Err(AttributeError)
  }

  /** An id the search found: the base name of the link of a row some search
      showed with the tag's year. */
  ghost predicate FoundBySearch(search: string -> seq<SearchRow>, year: Option<string>, id: string) {
    exists term: string, flag: bool, row: SearchRow ::
      row in search(term) && row in SearchTable(search(term), flag, year) && id == Text.BaseName(row.link)
  }

  /** `_get_album_id` reading the sample track (`get_one_sample_track`) and
      calling `isdigit`: the embedded id when it is a number, else the choice
      loop from the search term with the year filter on. `yearOf` stands for
      `extractYearFromDate`, `search` for the VGMDB search and `answers` for
      the user's answers. */
  function GetAlbumId(album: LocalAlbumData.Album, configSearch: Option<string>,
                      yearOf: Option<string> -> Option<string>, search: string -> seq<SearchRow>,
                      answers: seq<Option<string>>): (r: Result<Outcome>)
    ensures LocalAlbumData.SampleTrack(album).Err? ==> r == Err(IndexError)
    ensures LocalAlbumData.SampleTrack(album).Ok? && EmbeddedId(LocalAlbumData.SampleTrack(album).value.audio.vgmdbId).Some? ==>
      r == Ok(Outcome(EmbeddedId(LocalAlbumData.SampleTrack(album).value.audio.vgmdbId), configSearch))
    ensures r.Ok? && r.value.albumId.Some? ==>
      Text.IsDigits(r.value.albumId.value) ||
      FoundBySearch(search, yearOf(LocalAlbumData.SampleTrack(album).value.audio.date), r.value.albumId.value)
    ensures r.Err? ==> r.error == IndexError || r.error == Aborted("no answer")
  {
    match LocalAlbumData.SampleTrack(album)
    case Err(e) => Err(e)
    case Ok(track) =>
      var audio := track.audio;
      match EmbeddedId(audio.vgmdbId)
      case Some(id) => Ok(Outcome(Some(id), configSearch))
      case None =>
        match SearchTerm(configSearch, audio, LocalAlbumData.AlbumFolderName(album))
        case None => Ok(Outcome(None, configSearch))
        case Some(term) =>
          var year := yearOf(audio.date);
          ChoiceLoopOutcome(search, year, LoopState(term.0, true, configSearch), answers);
          ChoiceLoop(search, year, LoopState(term.0, true, configSearch), answers)
  }
}
