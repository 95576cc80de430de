/** Rules the two album renamers share, Modules/Rename/utils.py and
    Modules/Rename/renameUtils.py: counting audio files, the date a name
    shows, the disc-folder name, and the guarded `os.rename` that never
    overwrites a path. */
module RenameCommon {
  import opened Wrappers
  import Text
  import Dict

  /** Python truthiness of an optional string: present and non-empty. */
  predicate Truthy(s: Option<string>) {
    s.Some? && |s.value| > 0
  }

  // ---------------------------------------------------------------------------
  // countAudioFiles

  /** A listed name counts as audio when its extension, lower-cased, is one
      of `supported` (the tag library's extension list, not part of this
      model). */
  predicate IsAudioName(name: string, supported: set<string>) {
    Text.Lower(Text.SplitExt(name).1) in supported
  }

  /** The audio names of a listing, in listing order. */
  function AudioNames(listing: seq<string>, supported: set<string>): (r: seq<string>)
    ensures |r| <= |listing|
    ensures forall x :: x in r <==> x in listing && IsAudioName(x, supported)
  {
    if |listing| == 0 then []
    else
      var init := listing[..|listing| - 1];
      var last := listing[|listing| - 1];
      assert listing == init + [last];
      if IsAudioName(last, supported) then AudioNames(init, supported) + [last]
      else AudioNames(init, supported)
  }

  /** `countAudioFiles`: the track count of a non-empty `folderTrackData`;
      failing that, for a non-empty folder path, the number of audio names
      in `listing` (what `os.listdir` returns for it); and 0 otherwise. */
  method CountAudioFiles(
    folderPath: Option<string>, folderTrackData: Option<Dict.Dict<Dict.Dict<string>>>,
    listing: seq<string>, supported: set<string>) returns (count: nat)
    ensures folderTrackData.Some? && |folderTrackData.value| > 0 ==>
      count == Dict.Size2(folderTrackData.value)
    ensures !(folderTrackData.Some? && |folderTrackData.value| > 0) && Truthy(folderPath) ==>
      count == |AudioNames(listing, supported)|
    ensures !(folderTrackData.Some? && |folderTrackData.value| > 0) && !Truthy(folderPath) ==>
      count == 0
  {
    if folderTrackData.Some? && |folderTrackData.value| > 0 {
      count := SumLengths(folderTrackData.value);
    } else if Truthy(folderPath) {
      count := CountAudioNames(listing, supported);
    } else {
      count := 0;
    }
  }

  /** `sum([len(tracks) for _, tracks in folderTrackData.items()])`. */
  method SumLengths(ds: Dict.Dict<Dict.Dict<string>>) returns (count: nat)
    ensures count == Dict.Size2(ds)
  {
    count := 0;
    var i := |ds|;
    while i > 0
      invariant 0 <= i <= |ds|
      invariant count == Dict.Size2(ds[i..])
    {
      i := i - 1;
      assert ds[i..][1..] == ds[i + 1..];
      count := count + |ds[i].1|;
    }
    assert ds[0..] == ds;
  }

  /** The loop over `os.listdir(folderPath)` that counts audio names. */
  method CountAudioNames(listing: seq<string>, supported: set<string>) returns (count: nat)
    ensures count == |AudioNames(listing, supported)|
  {
    count := 0;
    var i := 0;
    while i < |listing|
      invariant 0 <= i <= |listing|
      invariant count == |AudioNames(listing[..i], supported)|
    {
      assert listing[..i + 1][..i] == listing[..i];
      if IsAudioName(listing[i], supported) {
        count := count + 1;
      }
      i := i + 1;
    }
    assert listing[..|listing|] == listing;
  }

  /** The track count of `folderTrackData` is the number of its files. */
  lemma TrackCountIsFileCount(folderTrackData: Dict.Dict<Dict.Dict<string>>)
    ensures Dict.Size2(folderTrackData) == |Dict.Flatten(folderTrackData)|
  {
    Dict.FlattenSize(folderTrackData);
  }

  // ---------------------------------------------------------------------------
  // The date

  /** `r` is `src` with every '-' read as '.'. */
  predicate Dotted(src: string, r: string) {
    && |r| == |src|
    && forall i :: 0 <= i < |src| ==> r[i] == (if src[i] == '-' then '.' else src[i])
  }

  /** The date a name shows: `fixDate` of the date tag when that is truthy,
      else `fixDate` of the "year" tag, and a truthy result with every '-'
      turned '.'. The arguments are the two results of `fixDate`, a helper
      that is not part of this model. */
  function ChosenDate(fixedDate: Option<string>, fixedYear: Option<string>): (r: Option<string>)
    ensures Truthy(r) <==> Truthy(fixedDate) || Truthy(fixedYear)
    ensures Truthy(r) ==> '-' !in r.value
    ensures Truthy(fixedDate) ==> Dotted(fixedDate.value, r.value)
    ensures !Truthy(fixedDate) && Truthy(fixedYear) ==> Dotted(fixedYear.value, r.value)
  {
    var date := if Truthy(fixedDate) then fixedDate else fixedYear;
    if Truthy(date) then Some(Text.ReplaceChar(date.value, '-', '.')) else date
  }

  /** `date[:4] if date and len(date) >= 4 else ""`. */
  function Year(date: Option<string>): (r: string)
    ensures r == "" || |r| == 4
    ensures |r| == 4 <==> date.Some? && |date.value| >= 4
    ensures |r| == 4 ==> Text.StartsWith(date.value, r)
  {
    if date.Some? && |date.value| >= 4 then date.value[..4] else ""
  }

  // ---------------------------------------------------------------------------
  // The disc folder

  const DiscWord := "Disc "

  /** "Disc N - discName", or "Disc N" without a truthy disc name; "" when
      the album has a single disc or files are not moved. */
  function DiscFolderName(discNumber: int, discName: Option<string>, totalDiscs: nat, noMove: bool): (r: string)
    ensures r == "" <==> totalDiscs == 1 || noMove
  {
    if totalDiscs == 1 || noMove then ""
    else if Truthy(discName) then DiscWord + Text.IntToString(discNumber) + " - " + discName.value
    else DiscWord + Text.IntToString(discNumber)
  }

  /** The disc folder reads back: the word, the disc number, and after the
      first " - " the disc name. */
  lemma DiscFolderNameParts(discNumber: int, discName: Option<string>, totalDiscs: nat, noMove: bool)
    requires totalDiscs != 1 && !noMove
    ensures var r := DiscFolderName(discNumber, discName, totalDiscs, noMove);
      var n := |Text.IntToString(discNumber)|;
      && r[..5] == DiscWord
      && Text.Find(r[5..], ' ') == (if Truthy(discName) then n else -1)
      && Text.BeforeFirst(r[5..], ' ') == Text.IntToString(discNumber)
      && (Truthy(discName) ==> r[5 + n..5 + n + 3] == " - " && r[5 + n + 3..] == discName.value)
      && (!Truthy(discName) ==> |r| == 5 + n)
  {
    var r := DiscFolderName(discNumber, discName, totalDiscs, noMove);
    var num := Text.IntToString(discNumber);
    var n := |num|;
    Text.ZFillIntHasNo(discNumber, 0, ' ');
    assert Text.ZFill(num, 0) == num;
    var tail := r[5..];
    if Truthy(discName) {
      assert tail == num + " - " + discName.value;
      assert tail[n] == ' ';
      forall j | 0 <= j < n
        ensures tail[j] != ' '
      {
        assert tail[j] == num[j];
      }
      Text.FindIsFirst(tail, ' ', n);
      assert tail[..n] == num;
    } else {
      assert tail == num;
    }
  }

  // ---------------------------------------------------------------------------
  // The guarded rename

  /** What the guard around `os.rename` did. */
  datatype Attempt = Unchanged | Blocked | Renamed

  /** Both renamers: no call when the name is unchanged (`changed` is the
      test each makes, on names or on paths); a refusal, logged, when the
      target exists; else the move. `existing` is the set of paths that
      exist, and the second component is that set afterwards. */
  function TryRename(existing: set<string>, changed: bool, source: string, target: string): (r: (Attempt, set<string>))
    ensures r.0 == Renamed <==> changed && target !in existing
    ensures r.0 == Blocked <==> changed && target in existing
    ensures r.0 != Renamed ==> r.1 == existing
    ensures r.0 == Renamed ==> target in r.1 && (source != target ==> source !in r.1)
    ensures forall p :: p != source && p != target ==> (p in r.1 <==> p in existing)
  {
    if !changed then (Unchanged, existing)
    else if target in existing then (Blocked, existing)
    else (Renamed, existing - {source} + {target})
  }
}
