/** Modules/Scan/models/local_album_data.py: the two-level index of an album's
    files, disc number to track number to file, with the files that carry no
    track number kept aside. */
module LocalAlbumData {
  import opened Wrappers
  import Text
  import Dict
  import AudioSource

  /** What the model reads from a file's audio manager: its extension and
      stream, and the tags, each fixed when the file was read. The list-valued
      tags are the lists the getters return (empty when the tag is absent). */
  datatype AudioManager = AudioManager(
    extension: string,
    info: AudioSource.StreamInfo,
    discNumber: Option<int>,
    trackNumber: Option<int>,
    catalog: seq<string>,
    barcode: seq<string>,
    album: seq<string>,
    vgmdbId: seq<string>,
    date: Option<string>)

  /** `LocalTrackData`. */
  datatype Track = Track(filePath: string, depthInParentFolder: int, audio: AudioManager)

  /** `LocalDiscData`: the disc's tracks by number, and the name of its folder. */
  datatype Disc = Disc(tracks: Dict.Dict<Track>, folderName: Option<string>)

  /** `LocalAlbumData`. */
  datatype Album = Album(albumFolderPath: string, discs: Dict.Dict<Disc>, uncleanTracks: seq<Track>)

  /** An empty `LocalDiscData()`. */
  const EmptyDisc := Disc([], None)

  /** The property `file_name`: the last component of the path. */
  function FileName(t: Track): (r: string)
    ensures '/' !in r && Text.EndsWith(t.filePath, r)
  {
    Text.BaseName(t.filePath)
  }

  /** `__hash__`: a track hashes as its file path, so two tracks with the same
      path fall into one slot of a set and show the same file name. */
  function Hash(t: Track): (r: string)
    ensures FileName(t) == Text.BaseName(r)
  {
    t.filePath
  }

  /** The property `album_folder_name`. */
  function AlbumFolderName(a: Album): (r: string)
    ensures '/' !in r && Text.EndsWith(a.albumFolderPath, r)
  {
    Text.BaseName(a.albumFolderPath)
  }

  /** Every dict of the album holds each key once, as a Python dict does. */
  predicate Wf(a: Album) {
    Dict.Wf(a.discs) && forall i :: 0 <= i < |a.discs| ==> Dict.Wf(a.discs[i].1.tracks)
  }

  // ---------------------------------------------------------------------------
  // Counts

  /** The property `total_discs`. */
  function TotalDiscs(a: Album): nat {
    |a.discs|
  }

  /** `sum(len(disc.tracks) for disc in discs.values())`. */
  function SumTracks(ds: Dict.Dict<Disc>): nat {
    if |ds| == 0 then 0 else |ds[0].1.tracks| + SumTracks(ds[1..])
  }

  /** The property `total_tracks_in_album`: the unclean tracks do not count. */
  function TotalTracksInAlbum(a: Album): nat {
    SumTracks(a.discs)
  }

  // ---------------------------------------------------------------------------
  // Lookups

  /** `_does_track_exist`. */
  predicate DoesTrackExist(a: Album, discNumber: int, trackNumber: int) {
    Dict.HasKey(a.discs, discNumber) && Dict.HasKey(Dict.Get(a.discs, discNumber).value.tracks, trackNumber)
  }

  /** `get_track`: the track in the slot, `None` exactly when the disc or the
      track number is missing. */
  function GetTrack(a: Album, discNumber: int, trackNumber: int): (r: Option<Track>)
    ensures r.None? <==> !DoesTrackExist(a, discNumber, trackNumber)
    ensures r.Some? ==> r == Dict.Get(Dict.Get(a.discs, discNumber).value.tracks, trackNumber)
  {
    if DoesTrackExist(a, discNumber, trackNumber) then
      Dict.Get(Dict.Get(a.discs, discNumber).value.tracks, trackNumber)
    else None
  }

  /** `set_track`: a missing disc is first added empty, then the slot is
      written, replacing what was there. */
  function SetTrack(a: Album, discNumber: int, trackNumber: int, track: Track): (r: Album)
    ensures r.albumFolderPath == a.albumFolderPath && r.uncleanTracks == a.uncleanTracks
  {
    var disc := Dict.Get(a.discs, discNumber).GetOr(EmptyDisc);
    a.(discs := Dict.Put(a.discs, discNumber, disc.(tracks := Dict.Put(disc.tracks, trackNumber, track))))
  }

  /** What `set_track` wrote, `get_track` reads back. */
  lemma SetThenGet(a: Album, discNumber: int, trackNumber: int, track: Track)
    ensures GetTrack(SetTrack(a, discNumber, trackNumber, track), discNumber, trackNumber) == Some(track)
  {
    var disc := Dict.Get(a.discs, discNumber).GetOr(EmptyDisc);
    var disc' := disc.(tracks := Dict.Put(disc.tracks, trackNumber, track));
    Dict.PutGet(a.discs, discNumber, disc');
    Dict.PutGet(disc.tracks, trackNumber, track);
  }

  /** Every other slot reads as before. */
  lemma SetTrackFrame(a: Album, discNumber: int, trackNumber: int, track: Track, d: int, t: int)
    requires d != discNumber || t != trackNumber
    ensures GetTrack(SetTrack(a, discNumber, trackNumber, track), d, t) == GetTrack(a, d, t)
  {
    var disc := Dict.Get(a.discs, discNumber).GetOr(EmptyDisc);
    var disc' := disc.(tracks := Dict.Put(disc.tracks, trackNumber, track));
    var r := SetTrack(a, discNumber, trackNumber, track);
    if d != discNumber {
      Dict.PutOther(a.discs, discNumber, disc', d);
    } else {
      Dict.PutGet(a.discs, discNumber, disc');
      Dict.PutOther(disc.tracks, trackNumber, track, t);
      if !Dict.HasKey(a.discs, discNumber) {
        assert Dict.Get(disc.tracks, t).None?;
      }
    }
  }

  /** Every disc keeps its folder name, and a disc `set_track` adds has none. */
  lemma SetTrackFolderNames(a: Album, discNumber: int, trackNumber: int, track: Track, d: int)
    ensures var r := SetTrack(a, discNumber, trackNumber, track);
      && Dict.HasKey(r.discs, d) == (Dict.HasKey(a.discs, d) || d == discNumber)
      && (Dict.HasKey(a.discs, d) ==> Dict.Get(r.discs, d).value.folderName == Dict.Get(a.discs, d).value.folderName)
      && (!Dict.HasKey(a.discs, d) && d == discNumber ==> Dict.Get(r.discs, d).value.folderName.None?)
  {
    var disc := Dict.Get(a.discs, discNumber).GetOr(EmptyDisc);
    var disc' := disc.(tracks := Dict.Put(disc.tracks, trackNumber, track));
    if d == discNumber {
      Dict.PutGet(a.discs, discNumber, disc');
    } else {
      Dict.PutOther(a.discs, discNumber, disc', d);
    }
  }

  /** `set_track` keeps every dict's keys distinct. */
  lemma SetTrackWf(a: Album, discNumber: int, trackNumber: int, track: Track)
    requires Wf(a)
    ensures Wf(SetTrack(a, discNumber, trackNumber, track))
  {
    var disc := Dict.Get(a.discs, discNumber).GetOr(EmptyDisc);
    var disc' := disc.(tracks := Dict.Put(disc.tracks, trackNumber, track));
    var ds := Dict.Put(a.discs, discNumber, disc');
    Dict.PutWf(a.discs, discNumber, disc');
    assert Dict.Wf(disc.tracks) by {
      if Dict.HasKey(a.discs, discNumber) {
        var i := Dict.IndexOf(a.discs, discNumber);
        assert disc == a.discs[i].1;
      }
    }
    Dict.PutWf(disc.tracks, trackNumber, track);
    forall i | 0 <= i < |ds|
      ensures Dict.Wf(ds[i].1.tracks)
    {
      if i < |a.discs| && ds[i] == a.discs[i] {
      } else {
        assert ds[i].1 == disc';
      }
    }
  }

  /** `set_track` on a new disc adds exactly one disc; on a known disc the
      number of discs stays. */
  lemma SetTrackDiscCount(a: Album, discNumber: int, trackNumber: int, track: Track)
    ensures TotalDiscs(SetTrack(a, discNumber, trackNumber, track)) ==
      TotalDiscs(a) + (if Dict.HasKey(a.discs, discNumber) then 0 else 1)
  {
  }

  /** `set_track` adds one track to the album's count when the slot was empty
      and none when it overwrote a track. */
  lemma SetTrackTrackCount(a: Album, discNumber: int, trackNumber: int, track: Track)
    ensures TotalTracksInAlbum(SetTrack(a, discNumber, trackNumber, track)) ==
      TotalTracksInAlbum(a) + (if DoesTrackExist(a, discNumber, trackNumber) then 0 else 1)
  {
    var ds := a.discs;
    var disc := Dict.Get(ds, discNumber).GetOr(EmptyDisc);
    var disc' := disc.(tracks := Dict.Put(disc.tracks, trackNumber, track));
    var i := Dict.IndexOf(ds, discNumber);
    if i < 0 {
      SumAppend(ds, (discNumber, disc'));
    } else {
      assert disc == ds[i].1;
      SumUpdate(ds, i, (discNumber, disc'));
    }
  }

  lemma {:induction false} SumAppend(ds: Dict.Dict<Disc>, e: (int, Disc))
    ensures SumTracks(ds + [e]) == SumTracks(ds) + |e.1.tracks|
  {
    if |ds| > 0 {
      assert (ds + [e])[1..] == ds[1..] + [e];
      SumAppend(ds[1..], e);
    }
  }

  lemma {:induction false} SumUpdate(ds: Dict.Dict<Disc>, i: nat, e: (int, Disc))
    requires i < |ds|
    ensures SumTracks(ds[i := e]) == SumTracks(ds) - |ds[i].1.tracks| + |e.1.tracks|
  {
    if i > 0 {
      assert ds[i := e][1..] == ds[1..][i - 1 := e];
      SumUpdate(ds[1..], i - 1, e);
    }
  }

  // ---------------------------------------------------------------------------
  // All tracks, and one sample

  /** The disc tracks, disc after disc in dict order, each disc's tracks in
      dict order. */
  function DiscTracks(ds: Dict.Dict<Disc>): (r: seq<Track>)
    ensures |r| == SumTracks(ds)
  {
    if |ds| == 0 then [] else Dict.Values(ds[0].1.tracks) + DiscTracks(ds[1..])
  }

  /** `get_all_tracks`: the unclean tracks, then every disc track. */
  function AllTracks(a: Album): (r: seq<Track>)
    ensures |r| == |a.uncleanTracks| + TotalTracksInAlbum(a)
    ensures r[..|a.uncleanTracks|] == a.uncleanTracks
    ensures r[|a.uncleanTracks|..] == DiscTracks(a.discs)
  {
    a.uncleanTracks + DiscTracks(a.discs)
  }

  /** Every track `get_track` finds is among the disc tracks. */
  lemma {:induction false} DiscTrackListed(ds: Dict.Dict<Disc>, d: int, t: int)
    requires Dict.HasKey(ds, d) && Dict.HasKey(Dict.Get(ds, d).value.tracks, t)
    ensures Dict.Get(Dict.Get(ds, d).value.tracks, t).value in DiscTracks(ds)
  {
    var i := Dict.IndexOf(ds, d);
    if i == 0 {
      var ts := ds[0].1.tracks;
      var j := Dict.IndexOf(ts, t);
      assert Dict.Values(ts)[j] == ts[j].1;
    } else {
      assert Dict.IndexOf(ds[1..], d) == i - 1;
      DiscTrackListed(ds[1..], d, t);
    }
  }

  /** A track in the index is in `get_all_tracks`. */
  lemma AllTracksListsIndex(a: Album, d: int, t: int)
    requires DoesTrackExist(a, d, t)
    ensures GetTrack(a, d, t).value in AllTracks(a)
  {
    DiscTrackListed(a.discs, d, t);
  }

  /** `get_one_sample_track`: the first of all tracks. When there is none the
      fallback indexes the unclean tracks, which are then empty too, and the
      call raises `IndexError`. */
  function SampleTrack(a: Album): (r: Result<Track>)
    ensures r.Ok? <==> |a.uncleanTracks| > 0 || TotalTracksInAlbum(a) > 0
    ensures |a.uncleanTracks| > 0 ==> r == Ok(a.uncleanTracks[0])
    ensures r.Err? ==> r.error == IndexError
    ensures r.Ok? ==> r.value in AllTracks(a)
  {
    var all := AllTracks(a);
    if |all| > 0 then Ok(all[0]) else Err(IndexError)
  }

  /** With no unclean track, the sample is the first track of the first disc
      that has one. */
  lemma SampleOfCleanAlbum(a: Album)
    requires |a.uncleanTracks| == 0 && TotalTracksInAlbum(a) > 0
    ensures SampleTrack(a) == Ok(DiscTracks(a.discs)[0])
  {
    assert AllTracks(a) == DiscTracks(a.discs);
  }

  // ---------------------------------------------------------------------------
  // pprint

  /** One disc's part of `pprint`: its number, the folder name when it is a
      non-empty string, and its tracks' numbers and paths. */
  datatype DiscReport = DiscReport(number: int, folderName: Option<string>, tracks: seq<(int, string)>)

  /** The tracks of a disc in the order `pprint` prints them. */
  function TrackLines(disc: Disc): (r: seq<(int, string)>)
    ensures |r| == |disc.tracks|
  {
    var ks := Dict.SortedKeys(disc.tracks);
    seq(|ks|, i requires 0 <= i < |ks| => (ks[i], TrackPath(disc, ks[i])))
  }

  function TrackPath(disc: Disc, t: int): string {
    match Dict.Get(disc.tracks, t)
    case Some(track) => track.filePath
    case None => ""
  }

  /** `pprint`, as what it visits: `sorted(self.discs.items())`, and inside
      each disc `sorted(disc.tracks.items())`. The keys are distinct, so the
      pairs are ordered by their numbers alone. */
  function Pprint(a: Album): (r: seq<DiscReport>)
    ensures |r| == TotalDiscs(a)
  {
    var ks := Dict.SortedKeys(a.discs);
    seq(|ks|, i requires 0 <= i < |ks| =>
      var disc := Dict.Get(a.discs, ks[i]).GetOr(EmptyDisc);
      DiscReport(ks[i], NamedFolder(disc), TrackLines(disc)))
  }

  /** `pprint` lists every disc once, in ascending number, and inside each disc
      every track once, in ascending number, with the path `get_track` gives. */
  lemma PprintOrder(a: Album)
    requires Wf(a)
    ensures var r := Pprint(a);
      && (forall i, j :: 0 <= i < j < |r| ==> r[i].number < r[j].number)
      && (forall d :: (exists i :: 0 <= i < |r| && r[i].number == d) <==> Dict.HasKey(a.discs, d))
      && (forall i :: 0 <= i < |r| ==> TrackLinesOrdered(a, r[i]))
  {
    var r := Pprint(a);
    var ks := Dict.SortedKeys(a.discs);
    Dict.SortedKeysAscending(a.discs);
    forall d
      ensures (exists i :: 0 <= i < |r| && r[i].number == d) <==> Dict.HasKey(a.discs, d)
    {
      if Dict.HasKey(a.discs, d) {
        assert d in ks;
        var i :| 0 <= i < |ks| && ks[i] == d;
        assert r[i].number == d;
      }
    }
    forall i | 0 <= i < |r|
      ensures TrackLinesOrdered(a, r[i])
    {
      assert ks[i] in ks;
      DiscTracksOrdered(a, ks[i]);
    }
  }

  /** A disc's part lists its tracks once each, ascending, with their paths. */
  ghost predicate TrackLinesOrdered(a: Album, rep: DiscReport) {
    && Dict.HasKey(a.discs, rep.number)
    && (forall i, j :: 0 <= i < j < |rep.tracks| ==> rep.tracks[i].0 < rep.tracks[j].0)
    && (forall t :: (exists i :: 0 <= i < |rep.tracks| && rep.tracks[i].0 == t) <==> DoesTrackExist(a, rep.number, t))
    && (forall i :: 0 <= i < |rep.tracks| ==> PathInSlot(a, rep.number, rep.tracks[i]))
  }

  /** The slot `line.0` of disc `d` holds the track whose path is `line.1`. */
  ghost predicate PathInSlot(a: Album, d: int, line: (int, string)) {
    GetTrack(a, d, line.0).Some? && GetTrack(a, d, line.0).value.filePath == line.1
  }

  lemma DiscTracksOrdered(a: Album, d: int)
    requires Wf(a) && Dict.HasKey(a.discs, d)
    ensures TrackLinesOrdered(a, DiscReport(d, NamedFolder(Dict.Get(a.discs, d).value), TrackLines(Dict.Get(a.discs, d).value)))
  {
    var disc := Dict.Get(a.discs, d).value;
    var idx := Dict.IndexOf(a.discs, d);
    assert disc == a.discs[idx].1;
    assert Dict.Wf(disc.tracks);
    var ks := Dict.SortedKeys(disc.tracks);
    var lines := TrackLines(disc);
    Dict.SortedKeysAscending(disc.tracks);
    forall t
      ensures (exists i :: 0 <= i < |lines| && lines[i].0 == t) <==> DoesTrackExist(a, d, t)
    {
      if Dict.HasKey(disc.tracks, t) {
        assert t in ks;
        var i :| 0 <= i < |ks| && ks[i] == t;
        assert lines[i].0 == t;
      }
    }
    forall i | 0 <= i < |lines|
      ensures PathInSlot(a, d, lines[i])
    {
      assert ks[i] in ks;
    }
  }

  /** The folder name `pprint` shows: none for "" as for `None`. */
  function NamedFolder(disc: Disc): (r: Option<string>)
    ensures r.Some? <==> disc.folderName.Some? && disc.folderName.value != ""
  {
    if disc.folderName == Some("") then None else disc.folderName
  }
}
