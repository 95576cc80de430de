# FLAC-auto-tag, modelled in Dafny

FLAC-auto-tag is a command-line tool for music albums kept as folders of
audio files. It looks an album up on VGMDB, picks the album from the search
results, writes the album's tags into the files, names the files after their
disc and track numbers and titles, names the album folder after a template,
downloads the album's scans and moves log files aside. This project models
the decisions the tool makes on the way: which names it builds, which files
move where, which rows it shows, which answer picks which album, and when it
fails. The file system, the network, the terminal and the tag library enter
as values.

Each module follows one source file:

- `OrganizeUtils`, `DiscFolder`: `Modules/organize/organize_utils.py`. It
  covers the forbidden-character table, `clean_name`, the folder under the
  parent, and the regular expression that reads a disc number and name off
  a folder name. The expression is matched as Python's `re` matches it by
  default: `.` does not match a newline, and `$` matches at the end or
  before a final newline.
- `LocalAlbumData`, `AudioSource`: `Modules/Scan/models/local_album_data.py`.
  It covers the album as discs of tracks, the track and disc counts,
  `set_track`, `get_track` and `get_all_tracks`, and the audio-source label.
  `AudioSource.Deduce` also models `deduceAudioDetails` of
  `Modules/Rename/utils.py`, which gives the same label.
- `RenameFiles`: the root `renameFiles.py`. It covers the zero-padded names,
  the album and disc folders, and the moves of one run.
- `RenameCommon`, `AlbumFiles`, `AlbumRun`, `AlbumTable`, `RenameUtils`,
  `RenameWalk`, `WalkRenames`:
  `Modules/Rename/utils.py`. They cover the folder-name templates, counting
  audio files, `renameAlbumFolder`, `renameAlbumFiles`, the recursive
  `renameFilesInternal` and `organizeAlbum`.
- `RenameUtilsLegacy`: the same operations in `Modules/Rename/renameUtils.py`.
- `TagUtils`: `Modules/Tag/tagUtils.py`. It covers the language choices and
  the tags built from the album data.
- `AlbumTagger`: `albumTagger.py`. It covers the flags, the folder path, and
  `findAlbumID` with its result table, year filter and choice.
- `FlacAutoTag`: `FLAC_auto_tag.py`, the first version of the tagger.
- `Cli`: `Modules/VGMDB/user_interface/cli.py`. It covers the comparison
  table of local and remote tracks, the perfect-match test, the embedded
  album id, and the search results with their year filter and choice loop.
- `VgmdbRip`, `VgmdbRipLegacy`: the two `vgmdbrip.py` scan downloaders. They
  cover `remove`, the scan file names and folder, and the login loop.
- `LogOrganizer`: `helperScripts/logOrganizer.py`.

Shared modules model Python built-ins:

- `Wrappers`: `Option`, `Result`, and the Python errors the code can raise.
- `Text`: `str.strip`, `lower`, `zfill`, `split`, `isdigit`, and
  `os.path.join`, `basename` and `splitext`.
- `Dict`: insertion-ordered dictionaries with integer keys.
- `Ordering`: `sorted` and `list.sort`, with code-point string order and
  tuple order.
- `CharTable`: the loop of `str.replace` calls over a table.
- `PosixPath`: `os.path.normpath`, `relpath` and `dirname`.

Where a docstring and the code disagree, the model follows the code:

- `extract_disc_number_from_folder_name` gives `None` for "Disc3", not 3.
  The pattern needs a separator after the digits
  (`Modules/organize/organize_utils.py:71`).
- `extract_disc_name_from_folder_name` keeps the name as written. "Et tu,
  Brute?" keeps its "?" and "Damn son" keeps its case (lines 55-56).
- `extract_track_number_from_file_name` returns `None` for every input
  (lines 77-88).
- `extract_track_name_from_file_name` only drops the extension and strips.
  "01. track 1.flac" gives "01. track 1" (line 95).

## Model

| member | source | states |
|---|---|---|
| OrganizeUtils.ForbiddenIndexed | Modules/organize/organize_utils.py:4-28 | each of the 22 keys sits at its own position, and each substitute is no key or the key of its own entry |
| OrganizeUtils.ForbiddenDistinctKeys | Modules/organize/organize_utils.py:4-28 | no two entries of the table share a key |
| OrganizeUtils.ForbiddenNoChaining | Modules/organize/organize_utils.py:4-28 | no substitute is the key of a later entry, so no character is replaced twice (also lines 33-34) |
| OrganizeUtils.ForbiddenSubstitutesFixed | Modules/organize/organize_utils.py:20-27 | the keys that are also substitutes (`&`, `#`, `$`, `@`) map to themselves |
| OrganizeUtils.ForbiddenNoSpace | Modules/organize/organize_utils.py:4-28 | neither side of an entry is whitespace |
| OrganizeUtils.CleanName | Modules/organize/organize_utils.py:31-35 | the result is as long as the stripped name, and each character is the table substitute of the stripped name's character |
| OrganizeUtils.CleanNameTrimmed | Modules/organize/organize_utils.py:31-35 | a cleaned name has no whitespace at either end |
| OrganizeUtils.CleanNameIdempotent | Modules/organize/organize_utils.py:31-35 | cleaning a cleaned name changes nothing |
| OrganizeUtils.CleanNameIsSafe | Modules/organize/organize_utils.py:31-35 | no key whose substitute differs from it is left in a cleaned name |
| OrganizeUtils.UnsafeAreMovedKeys | Modules/organize/organize_utils.py:4-28 | the 18 unsafe code points are exactly the keys with a different substitute |
| OrganizeUtils.CleanNameAvoidsUnsafe | Modules/organize/organize_utils.py:31-35 | a cleaned name holds none of the 18 unsafe code points |
| OrganizeUtils.BaseFolderUnderParent | Modules/organize/organize_utils.py:38-47 | `None` exactly when the relative path has at most one component; otherwise all its components but the last, joined by '/' |
| OrganizeUtils.Proper | Modules/organize/organize_utils.py:47 | `None` exactly for "", "." and "/", else the folder itself |
| OrganizeUtils.BaseFolderBelow | Modules/organize/organize_utils.py:39-47 | a file below the parent has as base folder the folders between them, and none when it lies directly in the parent |
| OrganizeUtils.ExtractTrackNumber | Modules/organize/organize_utils.py:77-88 | every input gives `None` |
| OrganizeUtils.ExtractTrackName | Modules/organize/organize_utils.py:91-102 | the result is no longer than the input |
| OrganizeUtils.TrackNameDropsExtension | Modules/organize/organize_utils.py:91-102 | only the last extension is dropped before stripping; a leading track number stays |
| OrganizeUtils.TrackNameWithoutExtension | Modules/organize/organize_utils.py:101-102 | a name without '.' is only stripped |
| DiscFolder.KeywordAtSpelled | Modules/organize/organize_utils.py:111-114 | an alternative of `(disc\|cd\|dvd\|)` matches at a position exactly when the text there spells it, case-insensitively |
| DiscFolder.KeywordTriedMatches | Modules/organize/organize_utils.py:111-113 | the alternative tried first that fits does match |
| DiscFolder.KeywordTriedOnly | Modules/organize/organize_utils.py:111-113 | no other non-empty alternative matches at the same position |
| DiscFolder.LineEndSpec | Modules/organize/organize_utils.py:113 | `(.*)$` ends where it is found to, and cannot end anywhere when none is found |
| DiscFolder.DigitsStartSpec | Modules/organize/organize_utils.py:113 | the text before the digit group matches `^ *(disc\|cd\|dvd\|) *` and the group does not start on a space |
| DiscFolder.LocateSound | Modules/organize/organize_utils.py:113-114 | what the search finds is a match of the whole pattern |
| DiscFolder.LocateComplete | Modules/organize/organize_utils.py:113-114 | every match of the pattern has the same digit group and end as the one found, and a separator no later |
| DiscFolder.LocateIsChosen | Modules/organize/organize_utils.py:113-116 | the search finds the match `re.findall` reports, and finds none exactly when the pattern cannot match |
| DiscFolder.NonBlank | Modules/organize/organize_utils.py:118-119 | `x.strip() if x.strip() else None` |
| DiscFolder.SplitDiscFolderName | Modules/organize/organize_utils.py:105-120 | a non-empty dict comes only from a match, and its number is a run of ASCII digits |
| DiscFolder.SplitDiscFolderNameEmpty | Modules/organize/organize_utils.py:106-116 | the dict is empty exactly when there is no name or the pattern does not match it |
| DiscFolder.SplitDiscFolderNameNumber | Modules/organize/organize_utils.py:118 | the number is the digit group of the match |
| DiscFolder.SplitDiscFolderNameName | Modules/organize/organize_utils.py:119 | the name is the stripped text after the separator, `None` when blank |
| DiscFolder.ChosenIsLocated | Modules/organize/organize_utils.py:113-114 | the match `re` reports is the one the search finds |
| DiscFolder.ExtractDiscNameOfMatch | Modules/organize/organize_utils.py:50-61 | the disc name is the stripped text after the separator of the reported match |
| DiscFolder.ExtractDiscNameNoMatch | Modules/organize/organize_utils.py:50-61 | there is no disc name without a match (also lines 115-116) |
| DiscFolder.ExtractDiscNumberFound | Modules/organize/organize_utils.py:64-74 | there is a disc number exactly when the pattern matches |
| DiscFolder.ExtractDiscNumberOfMatch | Modules/organize/organize_utils.py:64-74 | the number is the value of the digit group of any match |
| DiscFolder.NumberOfLocate | Modules/organize/organize_utils.py:64-74 | the number is read off the match found |
| DiscFolder.NameOfLocate | Modules/organize/organize_utils.py:50-61 | the name is read off the match found |
| DiscFolder.ExtractOfNoLocate | Modules/organize/organize_utils.py:50-74 | nothing is extracted when no match is found |
| DiscFolder.NameAfterSpace | Modules/organize/organize_utils.py:119 | one space after the separator, then a name trimmed at both ends: the name is that text |
| DiscFolder.ExampleCdFour | Modules/organize/organize_utils.py:126 | "cd 4 : " and a plain name give disc 4 with that name |
| DiscFolder.ExampleEight | Modules/organize/organize_utils.py:128 | " 8 " gives disc 8 and no name |
| DiscFolder.ExampleDiscThreeUnseparated | Modules/organize/organize_utils.py:71 | "Disc3" gives neither a number nor a name (also line 57) |
| DiscFolder.ExampleNoNumber | Modules/organize/organize_utils.py:131 | "CD - huh" gives neither a number nor a name |
| DiscFolder.ExampleOneDot | Modules/organize/organize_utils.py:56 | "1. " and a plain name give disc 1 with that name (also line 68) |
| RenameFiles.SameKeysAsOrganizer | renameFiles.py:7-31 | the script's table has the organizer's 22 keys in the same order; the substitutes agree except for '/' and '+' |
| RenameFiles.ForbiddenWellFormed | renameFiles.py:7-31 | the keys are distinct, no substitute is the key of a later entry, and every substitute is left alone by the table |
| RenameFiles.CleanName | renameFiles.py:34-38 | the `replace` loop keeps the length and turns each character into its table substitute (itself when it is no key) |
| RenameFiles.CleanNameIdempotent | renameFiles.py:34-38 | cleaning a cleaned name changes nothing |
| RenameFiles.CleanNameOfPlain | renameFiles.py:34-38 | a name with no key of the table comes back unchanged |
| RenameFiles.CleanNameAvoidsUnsafe | renameFiles.py:7-38 | a cleaned name holds none of the 18 characters the table moves elsewhere, '/' among them |
| RenameFiles.AlbumFolder | renameFiles.py:52-58 | the album folder name is empty exactly when MOVE is off |
| RenameFiles.AlbumFolderParts | renameFiles.py:53-56 | the name opens with '[', the date reads back up to the first ']', and a catalog other than "N/A" reads back after the last '[' |
| RenameFiles.DiscFolderName | renameFiles.py:66-73 | the disc folder name is empty exactly when there is at most one disc |
| RenameFiles.DiscFolderNumber | renameFiles.py:47 | after "Disc " come digits denoting the disc, as wide as the digit count of the disc total for every disc from 1 to the total (also lines 66-69) |
| RenameFiles.CleanTitlesGet | renameFiles.py:80-84 | each slot of the cleaned titles holds the cleaned title of the same slot, and the same slots are empty |
| RenameFiles.CleanTitlesSize | renameFiles.py:42-46 | cleaning keeps the number of titled tracks, so the track width is that of the raw titles (also line 84) |
| RenameFiles.CleanTitlesSlashFree | renameFiles.py:84 | no cleaned title holds a '/' |
| RenameFiles.BaseDiscFolderIsName | renameFiles.py:68-73 | `basename(discFolderPath)` is the disc folder's own name |
| RenameFiles.NewNameNumber | renameFiles.py:46 | a new name opens with the track number in digits, as wide as for every track from 1 to the total, then " - " (also lines 79, 86) |
| RenameFiles.NewNameHasNoSlash | renameFiles.py:78-86 | a new name built from a slash-free title is a single path component |
| RenameFiles.Run | renameFiles.py:60-103 | the album folder path joins the folder path and album folder; one folder is made for the album and one per disc; the table is sorted; the scans move exactly when asked, from "Scans" beside the album into the album folder |
| RenameFiles.TargetsDiffer | renameFiles.py:66-88 | two moved files in different slots get different target paths |
| RenameFiles.DiscFoldersDiffer | renameFiles.py:66-69 | the same name under two different titled discs gives two different paths |
| RenameFiles.MovesDistinct | renameFiles.py:65-88 | files in pairwise different slots are moved to pairwise different targets |
| RenameFiles.MovesMember | renameFiles.py:76-88 | each move in the list is the move of one of the files |
| RenameFiles.MovesComplete | renameFiles.py:76-88 | the move of every file that has one is in the list |
| RenameFiles.MoveOfMeaning | renameFiles.py:80-88 | a file moves exactly when its slot has a title; it moves from its own path to the new name directly inside its disc folder |
| RenameFiles.TableRowMeaning | renameFiles.py:76-90 | a row shows the slot and the base name, and "**NO CHANGE**" exactly when the slot has no title; otherwise the new name after a space under the disc folder's name |
| RenameFiles.Table | renameFiles.py:93 | the printed table is in ascending order |
| RenameFiles.TableShowsFiles | renameFiles.py:64-93 | every row of the table is the row of one file |
| RenameFiles.TableComplete | renameFiles.py:64-93 | every file has a row |
| RenameFiles.RowsDistinct | renameFiles.py:64-90 | the rows before sorting are pairwise different |
| RenameFiles.TableKeysDistinct | renameFiles.py:64-93 | no slot has two rows |
| RenameFiles.RenameFilesTable | renameFiles.py:41-97 | the table of a run has one row per file, in ascending order, one per slot, each showing its file |
| RenameFiles.ShownRow | renameFiles.py:77-90 | a shown row has the file's base name and "**NO CHANGE**" exactly for a slot without a title, otherwise the cleaned title's new name under the disc folder |
| RenameFiles.MovesFromFiles | renameFiles.py:76-88 | every move is that of a file of the album |
| RenameFiles.MovesOfNamed | renameFiles.py:80-88 | every file whose slot has a title is moved |
| RenameFiles.RenameFilesMovesDistinct | renameFiles.py:41-88 | no two files of a run are moved to the same path |
| RenameFiles.RenameFilesMoves | renameFiles.py:41-88 | a run moves exactly the files with a title: every move is of a file, and every titled file is moved |
| RenameFiles.RenameFilesFolders | renameFiles.py:52-75 | the album folder is named only when moving; it and each disc folder are made; the scans move only when moving, the source has them and the album folder does not (also lines 98-101) |
| LocalAlbumData.FileName | Modules/Scan/models/local_album_data.py:14-16 | the file name holds no '/' and ends the file path |
| LocalAlbumData.Hash | Modules/Scan/models/local_album_data.py:21-22 | a track hashes as its path, so tracks with one hash show one file name |
| LocalAlbumData.AlbumFolderName | Modules/Scan/models/local_album_data.py:75-77 | the album folder name holds no '/' and ends the album folder path |
| LocalAlbumData.GetTrack | Modules/Scan/models/local_album_data.py:99-100 | `None` exactly when the disc or the track number is missing, otherwise the track in that slot (also lines 117-120) |
| LocalAlbumData.SetTrack | Modules/Scan/models/local_album_data.py:102-106 | the album path and the unclean tracks stay as they are |
| LocalAlbumData.SetThenGet | Modules/Scan/models/local_album_data.py:99-106 | what `set_track` writes, `get_track` reads back, overwriting any earlier track |
| LocalAlbumData.SetTrackFrame | Modules/Scan/models/local_album_data.py:99-106 | every other slot reads as before |
| LocalAlbumData.SetTrackFolderNames | Modules/Scan/models/local_album_data.py:102-106 | the discs are the old ones plus the written one; old discs keep their folder names, and a disc added here has none |
| LocalAlbumData.SetTrackWf | Modules/Scan/models/local_album_data.py:102-106 | every dict keeps its keys distinct |
| LocalAlbumData.SetTrackDiscCount | Modules/Scan/models/local_album_data.py:79-81 | `total_discs` grows by one for a new disc and stays for a known one (also lines 102-106) |
| LocalAlbumData.SetTrackTrackCount | Modules/Scan/models/local_album_data.py:83-85 | `total_tracks_in_album` grows by one when the slot was empty, and stays when a track is overwritten (also lines 102-106) |
| LocalAlbumData.DiscTracks | Modules/Scan/models/local_album_data.py:83-85 | the disc tracks are as many as `total_tracks_in_album` counts (also line 110) |
| LocalAlbumData.AllTracks | Modules/Scan/models/local_album_data.py:108-111 | the unclean tracks come first, then every disc track; the length is their sum |
| LocalAlbumData.DiscTrackListed | Modules/Scan/models/local_album_data.py:110 | every track in the two-level index is among the disc tracks |
| LocalAlbumData.AllTracksListsIndex | Modules/Scan/models/local_album_data.py:99-111 | every track `get_track` finds is in `get_all_tracks` |
| LocalAlbumData.SampleTrack | Modules/Scan/models/local_album_data.py:113-115 | a track exactly when there is an unclean or a disc track, the first unclean one when there is one, always one of all tracks; otherwise IndexError |
| LocalAlbumData.SampleOfCleanAlbum | Modules/Scan/models/local_album_data.py:113-115 | with no unclean track, the sample is the first disc track |
| LocalAlbumData.TrackLines | Modules/Scan/models/local_album_data.py:93-94 | one line per track of the disc |
| LocalAlbumData.Pprint | Modules/Scan/models/local_album_data.py:88-97 | one part per disc |
| LocalAlbumData.PprintOrder | Modules/Scan/models/local_album_data.py:91-94 | every disc appears once, in ascending number; inside each, every track once, ascending, with the path `get_track` gives |
| LocalAlbumData.DiscTracksOrdered | Modules/Scan/models/local_album_data.py:93-94 | a disc's part lists exactly its tracks, ascending, each with its path |
| LocalAlbumData.NamedFolder | Modules/Scan/models/local_album_data.py:92 | the folder name is shown exactly when it is a non-empty string |
| AudioSource.SourceOf | Modules/Scan/models/local_album_data.py:34-36 | VINYL exactly for 192 kHz and more or more than 24 bits; otherwise CD exactly for 16 bits and WEB for the rest |
| AudioSource.Kbps | Modules/Scan/models/local_album_data.py:41 | `int(bitrate / 1000)` is the whole number of kbit/s |
| AudioSource.LossyLabel | Modules/Scan/models/local_album_data.py:39-54 | a label exactly for ".mp3", ".m4a", ".ogg" and ".opus", compared as written, and never a lossless one |
| AudioSource.LosslessLabel | Modules/Scan/models/local_album_data.py:29-38 | the lossless label carries the given format, the stream's bits and rate, and the source they give |
| AudioSource.Deduce | Modules/Rename/utils.py:89-119 | `deduceAudioDetails`: a label exactly for the six known extensions, lossless exactly for ".flac" and ".wav", with FLAC for ".flac" and WAV for ".wav" |
| AudioSource.TrackSourceAsWritten | Modules/Scan/models/local_album_data.py:24-54 | any case of ".flac" or ".wav" gives a lossless label, which says FLAC only for ".flac" exactly |
| AudioSource.TrackSource | Modules/Scan/models/local_album_data.py:24-54 | any case of ".flac" or ".wav" gives a lossless label |
| AudioSource.TrackSourceFormat | Modules/Scan/models/local_album_data.py:28-29 | the corrected label names the format the extension names, in any case; other extensions are labelled as written |
| AudioSource.TrackSourceIgnoresCase | Modules/Scan/models/local_album_data.py:28-29 | extensions differing only in case get the same lossless label |
| AudioSource.LowerCaseAgrees | Modules/Scan/models/local_album_data.py:24-54 | on a lower-case extension the code as written, the corrected one and `deduceAudioDetails` agree |
| AudioSource.UpperFlacIsCalledWav | Modules/Scan/models/local_album_data.py:28-29 | ".FLAC" is labelled WAV as written and FLAC once corrected |
| RenameCommon.AudioNames | Modules/Rename/utils.py:81-84 | the listed names kept are exactly those whose lower-cased extension is supported, no more names than were listed |
| RenameCommon.CountAudioFiles | Modules/Rename/utils.py:72-86 | the track count of a non-empty `folderTrackData`; else, for a non-empty path, the number of audio names listed; else 0 |
| RenameCommon.SumLengths | Modules/Rename/utils.py:78 | the sum of the discs' track counts |
| RenameCommon.CountAudioNames | Modules/Rename/utils.py:80-85 | the loop counts exactly the audio names of the listing |
| RenameCommon.TrackCountIsFileCount | Modules/Rename/utils.py:72-78 | the summed track count is the number of files in `folderTrackData` |
| RenameCommon.ChosenDate | Modules/Rename/utils.py:136-140 | a date exactly when one of the two fixed dates is truthy, the date tag first, with every '-' read as '.' |
| RenameCommon.Year | Modules/Rename/utils.py:247 | the first four characters of a date of four or more, else "" |
| RenameCommon.DiscFolderName | Modules/Rename/utils.py:186-194 | "" exactly when the album has one disc or files are not moved |
| RenameCommon.DiscFolderNameParts | Modules/Rename/utils.py:188-191 | the folder reads back as "Disc ", the disc number, and after " - " the disc name when it is truthy |
| RenameCommon.TryRename | Modules/Rename/utils.py:148-155 | renamed exactly when the name changed and the target is free, refused when it is taken; the target then exists, the source no longer, and no other path changes |
| RenameUtils.FolderNamingTemplateAsWritten | Modules/Rename/utils.py:22-28 | a truthy template is validated first, and the call fails exactly when it does not validate; a valid one is used as given; otherwise a built-in one that keeps the folder name exactly for `same_folder_name`, and never "default" |
| RenameUtils.FolderNamingTemplate | Modules/Rename/utils.py:14-28 | as above, with the same failure for a template that does not validate, and a built-in template leads with the catalog exactly when `catalog_first` is set |
| RenameUtils.TemplateLeads | Modules/Rename/utils.py:14-19 | exactly the two catalog-first templates open with the catalog segment |
| RenameUtils.DefaultIsCatalogFirst | Modules/Rename/utils.py:28 | with no template and neither option the code picks "catalog_first", a template leading with the catalog, where "default" was meant |
| RenameUtils.TemplateChoicesAgree | Modules/Rename/utils.py:22-28 | with a template or either option set, the code as written and the corrected one agree |
| RenameUtils.TemplateMappingMeaning | Modules/Rename/utils.py:131 | the mapping's date has no '-' and is present exactly when a fixed date is; the folder name is the path's last part; a format exactly for the six known extensions (also lines 136-142) |
| RenameUtils.KeptFolderNameNeverAborts | Modules/Rename/utils.py:17-18 | the two "same_folder_name" templates mention "foldername", so a missing album never ends the rename (also line 133) |
| RenameUtils.RenameAlbumFolder | Modules/Rename/utils.py:122-155 | ends when there is no audio file, or when the album is missing and the template has no "foldername"; else the cleaned evaluated name beside the folder is used, and the folder moves exactly when the name differs and the target is free |
| RenameUtils.RenamedFolderName | Modules/Rename/utils.py:148-149 | a renamed folder's new path ends in the new name |
| RenameUtils.RenameAlbumFiles | Modules/Rename/utils.py:158-214 | the table comes out sorted; every move takes a titled file of the album to its new name in its disc folder; every titled file whose new path differs and is free at its turn is moved there |
| RenameUtils.OrganizeAlbum | Modules/Rename/utils.py:272-277 | the files are renamed first, with the table sorted; the folder step then classifies as `renameAlbumFolder` does, and never renames onto a path that exists after the file renames |
| RenameUtilsLegacy.FolderNameSegments | Modules/Rename/renameUtils.py:47-56 | the four cases are the date segment, the album and the catalog segment, each present exactly when its value is truthy |
| RenameUtilsLegacy.RenameAlbumFolder | Modules/Rename/renameUtils.py:27-68 | ends when there is no audio file, or when the album tag is missing and `sameFolderName` is unset; else the cleaned name beside the folder is used, and the folder moves exactly when the name differs and the target is free |
| RenameUtilsLegacy.RenameAlbumFiles | Modules/Rename/renameUtils.py:71-133 | as for the newer module: the table sorted, every move to the file's own new path, and every free titled file moved |
| RenameUtilsLegacy.OrganizeAlbum | Modules/Rename/renameUtils.py:218-223 | the files are renamed first, with the table sorted; the folder step then never renames onto a path that exists after the file renames |
| AlbumFiles.FileName | Modules/Rename/utils.py:182-185 | the newer module cleans "title", or "track - title", and appends the file's own extension unchanged; the older module cleans "title" plus extension, or "track - title" plus extension |
| AlbumRun.RunAlbum | Modules/Rename/utils.py:158-214 | the table comes out sorted; every move is of a titled file of `folderTrackData` to the path of its new name in its disc folder; every titled file whose new path differs from its own and is neither an existing path nor a folder or new path of an earlier file is moved there |
| AlbumFiles.FileStepMoves | Modules/Rename/utils.py:171-206 | a file moves exactly when it has a title and its new path differs and is free once its disc folder exists, and then to that path; the paths afterwards are those before plus at most its disc folder and new path |
| AlbumFiles.TrackEntries | Modules/Rename/utils.py:167 | the files of a disc in order, each with the disc number and the disc's track count |
| AlbumFiles.AlbumEntries | Modules/Rename/utils.py:164-167 | one entry per track of every disc, each naming a track of `folderTrackData` with its own disc's track count |
| AlbumRun.TracksRunSteps | Modules/Rename/utils.py:167-206 | the loop over a disc's tracks is the run over its files |
| AlbumRun.StepsAppend | Modules/Rename/utils.py:164-206 | running two runs of files in turn is running them joined |
| AlbumRun.DiscsRunSteps | Modules/Rename/utils.py:164-206 | the nested loop over discs and tracks is one run over the album's files, disc by disc |
| AlbumFiles.TurnOutcome | Modules/Rename/utils.py:196-206 | a titled file's turn moves it exactly when its target differs from its source and is neither an existing path nor its just-made disc folder; afterwards the paths are those before plus at most the folder and the target |
| AlbumFiles.ActOutcome | Modules/Rename/utils.py:173-206 | a file without a title changes nothing; otherwise its turn is as `TurnOutcome` states |
| AlbumRun.RunGrow | Modules/Rename/utils.py:204-206 | moves are only ever appended |
| AlbumRun.RunExisting | Modules/Rename/utils.py:196-204 | after a run, every path existed before or is a disc folder or target of one of its files |
| AlbumRun.RunPlanned | Modules/Rename/utils.py:198-206 | every move of a run is the move from a titled file's path to its target |
| AlbumRun.RunMovesFree | Modules/Rename/utils.py:199-206 | a titled file whose target differs from its path and is neither an existing path, nor a folder or target of an earlier file, nor its own disc folder is moved |
| AlbumRun.StepsRun | Modules/Rename/utils.py:164-206 | the loop over files is the run over their plans |
| AlbumRun.PlansProduced | Modules/Rename/utils.py:195-198 | the paths the plans can make are the disc folders and new paths of the titled files |
| AlbumRun.PlannedOf | Modules/Rename/utils.py:195-198 | a move some plan asks for is of a titled file of the run to that file's new path |
| AlbumRun.FreeOf | Modules/Rename/utils.py:199-201 | a file free at its turn has a plan free at its turn, moving the file to its new path |
| AlbumRun.StepsPlanned | Modules/Rename/utils.py:195-204 | every move of a run takes one of its titled files to that file's new path |
| AlbumRun.StepsMoveFree | Modules/Rename/utils.py:199-204 | every titled file of a run whose new path differs and was not taken before its turn is moved |
| AlbumTable.FileStepPaired | Modules/Rename/utils.py:171-206 | one file adds a table row exactly with its move, the row showing where it went |
| AlbumTable.RowShowsMove | Modules/Rename/utils.py:195-206 | a titled file's row names its old name and, joined to the album folder, its new path |
| AlbumTable.ActPaired | Modules/Rename/utils.py:204-206 | a turn whose row shows its move keeps every row showing its move |
| AlbumTable.PairedSnoc | Modules/Rename/utils.py:204-206 | a move appended with its row keeps every row showing its move |
| AlbumTable.TracksRunPaired | Modules/Rename/utils.py:167-206 | the tracks of a disc keep each row showing its move |
| AlbumTable.DiscsRunPaired | Modules/Rename/utils.py:164-206 | the discs, in turn, keep each row showing its move |
| AlbumTable.RunAlbumReport | Modules/Rename/utils.py:158-214 | one table row per move, each with the file's old name and its new path under the album folder; only titled files move, and never onto themselves (with `RunAlbum`, which moves happen) |
| AlbumTable.ReportOfPaired | Modules/Rename/utils.py:213 | sorting the rows keeps their number and what each shows |
| RenameWalk.NameChoice | Modules/Rename/utils.py:250-255 | the choice is always one of the four keys of `names` |
| RenameWalk.EntryName | Modules/Rename/utils.py:249-257 | whatever the folder's audio count, the new name is the cleaned title and extension, with the artist first in the older module |
| RenameWalk.SubFolderAsWritten | Modules/Rename/utils.py:226-227 | an entry is walked exactly when `recur` is set and its bare name is a directory, and the bare name is walked |
| RenameWalk.SubFolder | Modules/Rename/utils.py:226-227 | an entry is walked exactly when `recur` is set and its path inside the folder is a directory, and that path is walked |
| RenameWalk.NestedFolderMissed | Modules/Rename/utils.py:226-227 | a sub-folder "sub" of "/m" is missed as written and walked once the path is joined |
| RenameWalk.NumberedSnoc | Modules/Rename/utils.py:267 | a row numbered after the rows so far keeps the table numbered 1, 2, … in rename order |
| RenameWalk.RenamesNamedSnoc | Modules/Rename/utils.py:259-267 | appending a rename to its intended name keeps every rename so |
| RenameWalk.FileEntryReported | Modules/Rename/utils.py:229-269 | one listed file keeps the table numbered and every rename titled, supported and to its intended name |
| RenameWalk.WalkReported | Modules/Rename/utils.py:217-269 | a walked folder keeps the table numbered and every rename intended |
| RenameWalk.EntriesReported | Modules/Rename/utils.py:224-269 | the entries of a listing, walked or renamed in turn, keep the table numbered and every rename intended |
| RenameWalk.FlatWalksAgree | Modules/Rename/utils.py:226 | without `recur` the walk as written and the corrected one are the same |
| RenameWalk.FileEntry | Modules/Rename/utils.py:229-267 | a listed file is renamed, with a row numbered after the rows so far, exactly when its extension is supported, it has a title, and its new name differs from its own and is free in the folder; otherwise the table and the renames stay as they were |
| WalkRenames.FileEntryGrow | Modules/Rename/utils.py:259-267 | a listed file only ever appends to the renames |
| WalkRenames.WalkGrow | Modules/Rename/utils.py:224-227 | walking a folder only appends renames |
| WalkRenames.EntriesGrow | Modules/Rename/utils.py:224-267 | walking a listing only appends renames |
| WalkRenames.EntriesAppend | Modules/Rename/utils.py:224 | walking a listing is walking its first part, then the rest |
| WalkRenames.TurnRenames | Modules/Rename/utils.py:259-267 | a first listed file renamed at its turn is among the renames at the end of the listing |
| WalkRenames.EntriesRenameFree | Modules/Rename/utils.py:224-267 | every listed entry that is not walked as a folder, and whose new name differs and is free at its turn, is renamed to that name |
| WalkRenames.OrganizeFilesRenameFree | Modules/Rename/utils.py:280-282 | `organizeFiles`, as written or corrected, renames every file listed directly in the folder whose new name differs and is free at its turn |
| RenameWalk.OrganizeFilesReport | Modules/Rename/utils.py:280-290 | for the walk as written (the bare-name test of lines 226-227) and for the corrected one alike: the printed table lists the renames in the order made, numbered from 1, each from a titled audio file to its intended name, and sorting changes nothing |
| RenameWalk.FolderFilesReported | Modules/Rename/renameUtils.py:155-201 | the files of one folder keep the table numbered and every rename intended |
| RenameWalk.WalkFoldersReported | Modules/Rename/renameUtils.py:153-201 | every folder `os.walk` yields keeps the table numbered and every rename intended |
| RenameWalk.LegacyRenameFilesReport | Modules/Rename/renameUtils.py:144-214 | `renameCount` numbers the rows 1, 2, … in rename order, each from a titled audio file to "artist - title" or "title" with its extension, and sorting changes nothing |
| WalkRenames.FolderFilesGrow | Modules/Rename/renameUtils.py:155-198 | the files of one folder only append renames |
| WalkRenames.FolderFilesAppend | Modules/Rename/renameUtils.py:155 | the files of a folder are its first files, then the rest |
| WalkRenames.FolderFilesRenameFree | Modules/Rename/renameUtils.py:155-198 | every file of a folder whose new name differs and is free at its turn is renamed to that name |
| WalkRenames.FolderTurnRenames | Modules/Rename/renameUtils.py:191-198 | a first file renamed at its turn is among the renames at the end of its folder |
| WalkRenames.WalkFoldersKeep | Modules/Rename/renameUtils.py:153-155 | a rename made in one folder of `os.walk` is among the renames of the whole walk |
| WalkRenames.WalkFoldersGrow | Modules/Rename/renameUtils.py:153-198 | the folders of `os.walk` only append renames |
| WalkRenames.WalkFoldersAppend | Modules/Rename/renameUtils.py:153 | the folders of `os.walk` are its first folders, then the rest |
| WalkRenames.LegacyRenameFilesRenameFree | Modules/Rename/renameUtils.py:144-198 | `renameFiles` renames every file of every folder `os.walk` yields whose new name differs and is free at its turn |
| FlacAutoTag.UpToLastQuestion | FLAC_auto_tag.py:25-26 | the loop leaves the longest prefix ending in '?', or "" when there is none |
| FlacAutoTag.TrimLink | FLAC_auto_tag.py:24-27 | the link before its last '?', or "" when it has none |
| FlacAutoTag.FolderPath | FLAC_auto_tag.py:141 | the given path, else the default; IndexError exactly when that is empty; otherwise one trailing '/' dropped (also lines 152-157) |
| FlacAutoTag.OneSlashRemoved | FLAC_auto_tag.py:156-157 | a path ending in "//" keeps one slash |
| FlacAutoTag.Year | FLAC_auto_tag.py:114 | the first four characters of the date, or "NA" when it is shorter |
| FlacAutoTag.Rows | FLAC_auto_tag.py:109-123 | every result listed in order, numbered from `first`, with its id and year; IndexError exactly when some link has no '/' |
| FlacAutoTag.FindAlbumId | FLAC_auto_tag.py:86-137 | no term and no album tag gives `None`; a found id is the one of the result whose serial was typed; `None` otherwise means no results or no valid serial |
| FlacAutoTag.Pick | FLAC_auto_tag.py:103-137 | the id of the result the typed serial names, `None` for no results or an invalid choice, IndexError only from a bad link |
| FlacAutoTag.SerialPicksResult | FLAC_auto_tag.py:133-137 | typing the serial `k` of a result picks that result's id |
| LogOrganizer.IsFileALogMeaning | helperScripts/logOrganizer.py:5 | a name is a log exactly when its lower-cased form ends with one of the five endings (also lines 8-12) |
| LogOrganizer.UpperCaseLog | helperScripts/logOrganizer.py:8-12 | "A.LOG" and "b.TXT" are logs |
| LogOrganizer.CueWithoutDot | helperScripts/logOrganizer.py:5 | any name ending in "cue" is a log, with no dot needed, and "x.flac" is not (also lines 8-12) |
| LogOrganizer.IsLogsNameMeaning | helperScripts/logOrganizer.py:19 | the letter-by-letter test is `name.lower() == "logs"` |
| LogOrganizer.MoveLogs | helperScripts/logOrganizer.py:15-34 | nothing moves out of a folder named "logs" in any case, and every move takes a log file, not a folder, to the "Logs" folder beside it |
| LogOrganizer.Entries | helperScripts/logOrganizer.py:21-34 | every move made for the entries of a listing is a good one |
| LogOrganizer.Entry | helperScripts/logOrganizer.py:22-34 | a folder is walked, a log file moves, anything else stays, and each move is a good one |
| LogOrganizer.DirectLogMoved | helperScripts/logOrganizer.py:28-34 | every log file directly in a folder not named "logs" is moved |
| VgmdbRip.Remove | Modules/VGMDB/vgmdbrip/vgmdbrip.py:71-74 | a character is kept exactly when it is in the input and not in `chars`; the result is no longer |
| VgmdbRip.KeepAppend | Modules/VGMDB/vgmdbrip/vgmdbrip.py:71-74 | the reference filter works piece by piece |
| VgmdbRip.RemoveCharIsKeep | Modules/VGMDB/vgmdbrip/vgmdbrip.py:73 | one `replace(c, "")` is the filter by `c` |
| VgmdbRip.KeepKeep | Modules/VGMDB/vgmdbrip/vgmdbrip.py:72-73 | filtering twice is filtering once by both sets |
| VgmdbRip.RemoveIsKeep | Modules/VGMDB/vgmdbrip/vgmdbrip.py:71-74 | the `replace` loop equals the reference filter that keeps the characters not in `chars`, in order |
| VgmdbRip.KeepNothing | Modules/VGMDB/vgmdbrip/vgmdbrip.py:71-74 | filtering by nothing keeps everything |
| VgmdbRip.KeepClean | Modules/VGMDB/vgmdbrip/vgmdbrip.py:71-74 | filtering a string free of the characters keeps it whole |
| VgmdbRip.RemoveNothing | Modules/VGMDB/vgmdbrip/vgmdbrip.py:71-74 | removing no characters changes nothing |
| VgmdbRip.RemoveIdempotent | Modules/VGMDB/vgmdbrip/vgmdbrip.py:71-74 | removing the same characters again changes nothing |
| VgmdbRip.RemoveAppend | Modules/VGMDB/vgmdbrip/vgmdbrip.py:71-74 | removing from a concatenation removes from each part |
| VgmdbRip.ScanTitle | Modules/VGMDB/vgmdbrip/vgmdbrip.py:105 | the title has none of the nine forbidden characters (quote, `*`, `/`, `:`, `<`, `>`, `?`, backslash and bar) and keeps exactly the other characters of the stripped text |
| VgmdbRip.ScanFolder | Modules/VGMDB/vgmdbrip/vgmdbrip.py:99 | a "Scans" folder below the output folder for more than one scan, else the output folder itself |
| VgmdbRip.JoinStartsWith | Modules/VGMDB/vgmdbrip/vgmdbrip.py:99 | a joined path starts with the folder it was joined to |
| VgmdbRip.ClassifyReply | Modules/VGMDB/vgmdbrip/vgmdbrip.py:57-68 | IndexError exactly for a "You" reply of 223 characters or fewer; exit for a '5' at index 223 or a "Wrong" reply; retry for other "You" replies; logged in otherwise |
| VgmdbRip.LoginAttempts | Modules/VGMDB/vgmdbrip/vgmdbrip.py:38-68 | the loop ends at the first reply that is not a retry, after that many attempts, and every earlier reply asked for a retry |
| VgmdbRip.Login | Modules/VGMDB/vgmdbrip/vgmdbrip.py:28-68 | a saved session that is still logged in is used without asking; otherwise the loop runs |
| VgmdbRipLegacy.SameForbiddenCharacters | Modules/vgmdbrip/vgmdbrip.py:80 | the non-raw literal holds the same characters as the newer raw one |
| VgmdbRipLegacy.ScanTitle | Modules/vgmdbrip/vgmdbrip.py:80 | the title has none of the forbidden characters and is the newer module's title |
| VgmdbRipLegacy.ScanFolder | Modules/vgmdbrip/vgmdbrip.py:72 | scans always go to a "Scans" folder below the album folder |
| VgmdbRipLegacy.Login | Modules/vgmdbrip/vgmdbrip.py:17-50 | a session file is trusted without a check; otherwise the replies are read as in the newer module |
| AlbumTagger.TrimFolderPath | albumTagger.py:72-75 | IndexError exactly for a path of slashes only (the empty path included); otherwise the path without its trailing slashes, never empty |
| AlbumTagger.LanguageOrder | albumTagger.py:78-83 | `--japanese` beats `--english`, which beats `--romaji`, each with its fixed order; without them the configured order stays |
| AlbumTagger.SetPlain | albumTagger.py:78-90 | the language order as above; `--yes`, `--no-input` and `--backup` each turn their setting on and leave it otherwise |
| AlbumTagger.SetPairs | albumTagger.py:91-102 | each "no" switch beats its positive one, and without either the configured value stays |
| AlbumTagger.SetNames | albumTagger.py:103-112 | `--no-title` and `--one-lang` turn their setting off, the other three turn theirs on |
| AlbumTagger.SetAlbumDataOnly | albumTagger.py:114-119 | `--album-data-only` turns off titles, disc and track numbers and file renaming and ignores a mismatch; nothing else changes |
| AlbumTagger.SetPictures | albumTagger.py:121-128 | scans and pictures are turned off by their switches, overwrite and no-auth turned on |
| AlbumTagger.SetCredits | albumTagger.py:130-137 | each credit is on when `--single` or its own switch is given, and stays as configured otherwise |
| AlbumTagger.SetNoModify | albumTagger.py:139-142 | `--no-modify` turns tagging and both renames off; nothing else changes |
| AlbumTagger.SetFlagsOverrides | albumTagger.py:91-119 | after all assignments, a "no" switch beats its positive one, `--album-data-only` and `--no-modify` beat both, for every renaming, tagging, title and numbering setting (also lines 139-142) |
| AlbumTagger.SetFlagsRunMode | albumTagger.py:78-90 | the run mode and language order come out as the switches say, and the template is untouched by them |
| AlbumTagger.SetFlagsCredits | albumTagger.py:121-137 | pictures and credits come out as the switches say, `--single` turning on every credit |
| AlbumTagger.ArgumentParser | albumTagger.py:25-159 | an error exactly for an all-slash path or a given template that does not validate; otherwise the trimmed path and the switched flags, with `--ksl` beating a given template, which beats the configured one |
| AlbumTagger.CleanLink | albumTagger.py:176 | the link up to its first '?', the whole link when it has none |
| AlbumTagger.KeptCatalog | albumTagger.py:180-181 | the catalog is dropped exactly when it is "N/A" or "NA" |
| AlbumTagger.AlbumIdOf | albumTagger.py:293 | IndexError exactly when the link has no '/'; otherwise the text between the first and the second '/' |
| AlbumTagger.SplitSecond | albumTagger.py:293 | splitting on '/' gives a second part exactly when the text holds a '/', and that part runs from after the first '/' to the next one |
| AlbumTagger.SplitHead | albumTagger.py:293 | the first part of a split is the text before the first separator |
| AlbumTagger.AlbumIds | albumTagger.py:292-293 | the ids of all results, in order, or IndexError exactly when some link has no '/' |
| AlbumTagger.KeptRows | albumTagger.py:289-302 | the rows are numbered from `first` without gaps, no more than the results; without a search year every result is kept, in order |
| AlbumTagger.KeptRowsSplit | albumTagger.py:292-302 | one step of the loop: the first result's row, when kept, comes before the rows of the rest |
| AlbumTagger.KeptRowsAreKept | albumTagger.py:299-302 | every row of the table shows a result within the year, under that result's own id |
| AlbumTagger.ShownCons | albumTagger.py:299-302 | a kept first result's row before shown rows keeps every row shown |
| AlbumTagger.ShownLater | albumTagger.py:292-302 | a row shown for the later results is shown for all of them |
| AlbumTagger.KeptAreRows | albumTagger.py:299-302 | every result within the year is on the table under its own id |
| AlbumTagger.ListedCons | albumTagger.py:299-302 | a kept first result listed before the rows of the rest keeps every kept result listed |
| AlbumTagger.ListedLater | albumTagger.py:292-302 | a result listed in the later rows is listed in the whole table |
| AlbumTagger.SerialOf | albumTagger.py:318-320 | a serial exactly when the choice is all digits and its value is between 1 and the number of rows |
| AlbumTagger.SerialOfNumber | albumTagger.py:320 | every serial on the table, written out, names itself |
| AlbumTagger.FoundLater | albumTagger.py:287 | an id found by a later search, on a term the user typed, is found by the whole call (also lines 305, 322) |
| AlbumTagger.RowFound | albumTagger.py:300 | a shown row's id is the id of a result of that search (also line 324) |
| AlbumTagger.TableRowFound | albumTagger.py:300-324 | every row of a search's table holds the id of a result of that search |
| AlbumTagger.FindAlbumId | albumTagger.py:273-324 | an id returned is always the id of a result of the given term or of a term the user typed; an error is IndexError, or running out of answers while asking (each branch is stated by `SearchOutcome` and `AnswerOutcome`) |
| AlbumTagger.Choice | albumTagger.py:318-319 | the empty answer is read as "1"; any other answer is kept |
| AlbumTagger.SearchOutcome | albumTagger.py:274-312 | an empty term under `NO_INPUT` stops; no result asks again with no term and no year; an unreadable id is the error; no row within the year searches again without the year; a lone row under `NO_INPUT` or `yes_to_all` is taken; more rows under `NO_INPUT` give up |
| AlbumTagger.AnswerOutcome | albumTagger.py:313-324 | with the table shown and a choice read: no answer left is the error, "exit" stops, a serial on the table gives that row's id, and any other answer, "" read as "1", is searched for without the year |
| AlbumTagger.NoInputReadsNothing | albumTagger.py:274 | under `NO_INPUT` no answer is ever read (also lines 308-312) |
| AlbumTagger.LoneResultTaken | albumTagger.py:308-310 | with `NO_INPUT` or `yes_to_all`, a lone result within the year is taken without asking (also line 324) |
| AlbumTagger.EmptyAnswerTakesFirst | albumTagger.py:318-319 | an empty answer picks serial 1, which without a year is the first result (also line 324) |
| AlbumTagger.FindAlbumIdAsWritten | albumTagger.py:273-324 | as written, an error is IndexError, NameError, or running out of answers |
| AlbumTagger.AsWrittenNeverFinds | albumTagger.py:297 | as written no call ever returns an album id |
| AlbumTagger.AsWrittenFailsOnResult | albumTagger.py:297 | a lone usable result fails with NameError as written, where the corrected search succeeds |
| Cli.DiscRows | Modules/VGMDB/user_interface/cli.py:137-146 | one row per track of the disc, in order, with its number, title and linked file name or "" |
| Cli.RemoteRowsExact | Modules/VGMDB/user_interface/cli.py:136-146 | the VGMDB rows are exactly one per (disc, track) slot: each shows its slot's title and linked file name, no slot has two rows, and every slot has one |
| Cli.RemoteWfTail | Modules/VGMDB/user_interface/cli.py:136 | the later discs keep their track keys distinct |
| Cli.RemoteRowsSplit | Modules/VGMDB/user_interface/cli.py:136-146 | the first disc's rows come before those of the later discs |
| Cli.StepShows | Modules/VGMDB/user_interface/cli.py:136-146 | adding the first disc keeps every row showing its slot |
| Cli.TailRowOfSlot | Modules/VGMDB/user_interface/cli.py:136-146 | a row of the later discs sits after the first disc's rows and shows its slot among all discs |
| Cli.StepDistinct | Modules/VGMDB/user_interface/cli.py:136-146 | adding the first disc keeps the slots of the rows distinct |
| Cli.PairDistinct | Modules/VGMDB/user_interface/cli.py:136-146 | any two rows name different slots |
| Cli.HeadPairDistinct | Modules/VGMDB/user_interface/cli.py:137-146 | two rows of one disc differ in their track |
| Cli.TailPairDistinct | Modules/VGMDB/user_interface/cli.py:136-146 | two rows of the later discs differ as they did there |
| Cli.AfterDistinct | Modules/VGMDB/user_interface/cli.py:136-146 | rows after a prefix stay distinct |
| Cli.CrossPairDistinct | Modules/VGMDB/user_interface/cli.py:136-146 | a row of the first disc and one of the later discs differ in their disc |
| Cli.StepCovers | Modules/VGMDB/user_interface/cli.py:136-146 | adding the first disc keeps a row for every slot |
| Cli.RestRowOfSlot | Modules/VGMDB/user_interface/cli.py:136-146 | a row of the later discs is not of the first disc and shows its slot among all discs |
| Cli.UnmatchedRows | Modules/VGMDB/user_interface/cli.py:148-156 | one row per unmatched local track, with an empty title and the track's file name |
| Cli.BlankRow | Modules/VGMDB/user_interface/cli.py:158-161 | a row whose disc is the sentinel shows "" for disc and track; any other row keeps its numbers; title and file name stay |
| Cli.Report | Modules/VGMDB/user_interface/cli.py:135-161 | the report has one row per raw row, being the raw rows sorted as tuples, then blanked |
| Cli.BlankTruthy | Modules/VGMDB/user_interface/cli.py:158-161 | a blanked row is all truthy exactly when the raw row had non-zero numbers, a disc other than the sentinel, a title and a file name (also line 170) |
| Cli.TruthyOfRearranged | Modules/VGMDB/user_interface/cli.py:157 | whether every row is truthy does not depend on their order (also line 170) |
| Cli.PerfectMatchOfRows | Modules/VGMDB/user_interface/cli.py:157-170 | the report is a perfect match exactly when every raw row was matched |
| Cli.RowsTruthySplit | Modules/VGMDB/user_interface/cli.py:135-156 | the raw rows are all matched exactly when there is no unmatched local track and every VGMDB row is matched |
| Cli.PerfectMatchIff | Modules/VGMDB/user_interface/cli.py:135-171 | a perfect match exactly when no local track is unmatched and every VGMDB row has non-zero numbers, a disc other than the sentinel, a title and a linked file |
| Cli.PerfectMatchLinksAll | Modules/VGMDB/user_interface/cli.py:135-171 | under a perfect match every VGMDB track is linked to a local file, has a title and non-zero numbers |
| Cli.EmbeddedIdAsWritten | Modules/VGMDB/user_interface/cli.py:175-178 | as written, any first value of the id tag is taken, digits or not |
| Cli.EmbeddedId | Modules/VGMDB/user_interface/cli.py:175-178 | with `isdigit` called, the first value is taken exactly when it is all digits |
| Cli.NonNumericIdAccepted | Modules/VGMDB/user_interface/cli.py:176 | the tag value "x" passes as an album id as written, and is refused once corrected |
| Cli.EmbeddedIdsAgreeOnDigits | Modules/VGMDB/user_interface/cli.py:176 | the two agree on every tag whose first value is all digits |
| Cli.ExtractSearchTerm | Modules/VGMDB/user_interface/cli.py:248-258 | the first value of catalog, else barcode, else album, whichever first has any value, with its reason; none exactly when all three are empty |
| Cli.SearchTerm | Modules/VGMDB/user_interface/cli.py:181-187 | `config.search`, else the tag term, else the folder name, each only when non-empty; never an empty term |
| Cli.Filter | Modules/VGMDB/user_interface/cli.py:199 | a result stays exactly when the year filter is off or its year is the tag's non-empty year, in order |
| Cli.FilterOff | Modules/VGMDB/user_interface/cli.py:199 | without the filter every result stays, in order |
| Cli.FilterWithoutYear | Modules/VGMDB/user_interface/cli.py:199 | with the filter on and no year, the table is empty |
| Cli.TitleOrder | Modules/VGMDB/user_interface/cli.py:201 | ordering by title is total and transitive |
| Cli.SearchTable | Modules/VGMDB/user_interface/cli.py:199-201 | the table is a permutation of the filtered results |
| Cli.SearchTableSpec | Modules/VGMDB/user_interface/cli.py:199-201 | the table is sorted by title and holds exactly the results the filter keeps |
| Cli.SearchTableStable | Modules/VGMDB/user_interface/cli.py:201 | results with the same title keep the order the search gave them |
| Cli.DigitsAreNoKeyword | Modules/VGMDB/user_interface/cli.py:226-232 | a number is never one of the keywords |
| Cli.ChoiceStep | Modules/VGMDB/user_interface/cli.py:224-237 | a cancelled prompt or "exit" ends without an id; "noyearfilter" and "yearfilter", in any case, set the filter; a serial of the table picks the base name of that row's link; "0" on a non-empty table picks the last row, as Python's index -1 does; a number past the end, or any number on an empty table, raises IndexError; other text becomes the search term and `config.search` |
| Cli.FoundAt | Modules/VGMDB/user_interface/cli.py:198-201 | a row of a search's table names an id found by search (also line 234) |
| Cli.ChoiceLoopOutcome | Modules/VGMDB/user_interface/cli.py:194-238 | an id the loop returns is the link base name of a row some search showed; the loop fails only with IndexError or when the answers run out |
| Cli.DoneFound | Modules/VGMDB/user_interface/cli.py:224-234 | an answer that ends the loop picks a row the search showed, or raises IndexError |
| Cli.PyIndex | Modules/VGMDB/user_interface/cli.py:234 | Python's list index `table_data[i]`: defined exactly when `-len <= i < len`, and then a position of the list, `i` itself or `i + len` for a negative `i` |
| Cli.NumberStep | Modules/VGMDB/user_interface/cli.py:232-234 | a number always ends the loop: a serial picks its row, "0" the last row of a non-empty table, and any other number raises IndexError; a picked id is the link base name of row `table_data[n - 1]` |
| Cli.WordStep | Modules/VGMDB/user_interface/cli.py:226-231 | an answer that is not a number: "noyearfilter"/"yearfilter" in any case set the filter, "exit" ends without an id, anything else becomes the search term and `config.search`; it never ends with an id (also lines 235-237) |
| Cli.ValidatedChoiceSelects | Modules/VGMDB/user_interface/cli.py:210-223 | a number the prompt accepted from a non-empty table selects its row without raising (also lines 232-234) |
| Cli.GetAlbumIdAsWritten | Modules/VGMDB/user_interface/cli.py:174 | as written the call fails with AttributeError before anything else |
| Cli.GetAlbumId | Modules/VGMDB/user_interface/cli.py:173-238 | an album without tracks raises IndexError; a numeric embedded id is used at once; any id returned is numeric or found by a search; errors are IndexError or running out of answers |
| TagUtils.Lookup | Modules/Tag/tagUtils.py:46-47 | a name exactly when the key is present, and then one stored under that key |
| TagUtils.Dedup | Modules/Tag/tagUtils.py:50-51 | the de-duplicated list holds exactly the elements of the input, and no more of them |
| TagUtils.DedupSpec | Modules/Tag/tagUtils.py:50-51 | no element repeats, and elements keep the order of their first occurrence |
| TagUtils.DedupOfDistinct | Modules/Tag/tagUtils.py:65-67 | a list without repeats is left as it is, so de-duplicating twice changes nothing |
| TagUtils.FirstPresent | Modules/Tag/tagUtils.py:45-48 | a name exactly when one of the language's keys is in the object, and then a name of the object |
| TagUtils.PerLanguage | Modules/Tag/tagUtils.py:44-48 | at most one name per language of the order, each the name under that language's first present key |
| TagUtils.PerLanguageAppend | Modules/Tag/tagUtils.py:44-48 | the names of the earlier languages of the order come before those of the later ones |
| TagUtils.GetAllLanguages | Modules/Tag/tagUtils.py:42-54 | IndexError exactly for an empty object; otherwise a non-empty list of the object's names without repeats: the per-language names, in the order each first appears in the language order, or the first name when no language matched |
| TagUtils.NothingInEmpty | Modules/Tag/tagUtils.py:44-48 | an empty object has no name in any language |
| TagUtils.Titles | Modules/Tag/tagUtils.py:57-67 | with `TITLE` set: without `ALL_LANG`, the best title, followed by the file's non-empty title under `KEEP_TITLE` when it differs; with `ALL_LANG`, the `getAllLanguages` list, followed by the file's title under `KEEP_TITLE` when it is non-empty and not in that list; IndexError exactly for `ALL_LANG` on an empty object |
| TagUtils.WithOwnTitle | Modules/Tag/tagUtils.py:62-67 | for titles without repeats, the file's own title is appended under `KEEP_TITLE` exactly when it is non-empty and not already there, and the result has no repeats |
| TagUtils.DedupSnoc | Modules/Tag/tagUtils.py:65-66 | de-duplicating a list without repeats plus one element appends that element exactly when it is new |
| TagUtils.AlbumNames | Modules/Tag/tagUtils.py:71-75 | with `ALL_LANG` and a name object, the album names are the `getAllLanguages` list (IndexError for an empty object); otherwise the one album name |
| TagUtils.FrontCover | Modules/Tag/tagUtils.py:80-87 | without `PICS` or a cached picture the cover stays; otherwise there is one; an existing cover is replaced only under `PIC_OVERWRITE`; a changed cover is the cached picture |
| TagUtils.FrontCoverIdempotent | Modules/Tag/tagUtils.py:80-87 | tagging twice with the same picture leaves the cover as tagging once |
| TagUtils.YearTag | Modules/Tag/tagUtils.py:94-95 | the "Year" tag is set exactly under `YEAR` with a release date of four or more characters, to its first four |
| TagUtils.DateTag | Modules/Tag/tagUtils.py:89-92 | the date is set exactly under `DATE` when the fixed date is truthy, to that date |
| Text.StripSpec | Modules/organize/organize_utils.py:32 | `str.strip()` removes exactly the leading and trailing whitespace: everything cut is whitespace, and the rest starts and ends with a non-space character |
| Text.StripIdempotent | Modules/organize/organize_utils.py:32 | stripping an already stripped string changes nothing |
| Text.Lower | helperScripts/logOrganizer.py:10 | `str.lower()` keeps the length and lower-cases each character on its own |
| Text.DigitCount | renameFiles.py:46-47 | `ceil(log10(n + 1))` is the number k with `10^(k-1) <= n < 10^k` |
| Text.DigitCountIsLength | renameFiles.py:46-47 | for n of at least 1, that number is the length of the decimal of n |
| Text.ZFillDenotes | renameFiles.py:66 | `str(n).zfill(w)` is a string of digits whose value is still n, w characters wide or the width of the number when that is wider |
| Text.PaddedNumber | renameFiles.py:79 | a track number between 1 and the count, padded to the digit count of the count, is exactly that wide and still denotes the number (also lines 46-47) |
| Text.ZFillIntInjective | renameFiles.py:79 | two numbers padded to the same width give the same text only when they are equal |
| Text.SplitJoin | albumTagger.py:293 | `s.split(c)` cuts `s` into pieces free of `c` that join back, with `c` between them, into `s` |
| Text.BeforeFirst | albumTagger.py:176 | `s.split(c)[0]` is the longest prefix of `s` without `c`: the character after it, if any, is `c` |
| Text.BaseNameOfJoin | Modules/Rename/utils.py:148-149 | `os.path.basename` of `os.path.join(a, b)` is `b` when `b` is a single name |
| Text.PathJoinInjective | Modules/Rename/utils.py:195-198 | joining one relative name onto two folders that do not end in '/' gives the same path only when the folders are the same |
| Text.SplitExtOfStem | Modules/Rename/utils.py:169 | `os.path.splitext("stem.x")` gives the stem and ".x" when `x` has no dot or slash |
| Text.SplitExtWithoutDot | Modules/Rename/utils.py:169 | a name with no dot has an empty extension |
| CharTable.ReplaceInOrderIsTranslate | Modules/organize/organize_utils.py:33-34 | the `str.replace` of each forbidden character in turn equals replacing each character at once, when no replacement is the key of a later entry |
| CharTable.TranslateIdempotent | Modules/organize/organize_utils.py:33-34 | when every replacement is left alone by the table, cleaning twice is cleaning once |
| CharTable.TranslateAvoidsMovedKeys | Modules/organize/organize_utils.py:33-34 | no character that the table replaces by another survives the cleaning |
| CharTable.TranslateKeepsTrimmed | Modules/organize/organize_utils.py:32-34 | a table that neither takes nor gives whitespace keeps a stripped name stripped |
| PosixPath.RStripSlashes | albumTagger.py:74-75 | the loop that drops the trailing '/' leaves a prefix of the path that does not end in '/', and only slashes were dropped |
| PosixPath.RelPartsBelow | Modules/organize/organize_utils.py:45 | `os.path.relpath` of a path below the parent is the part of the path after the parent |
| PosixPath.DirNameOfJoin | Modules/organize/organize_utils.py:46 | `os.path.dirname` of a relative path of one name is "", and of several names is all of them but the last |
| Ordering.SortBySorted | Modules/VGMDB/user_interface/cli.py:201 | `sorted(..., key=...)` under a total, transitive order gives a sequence in that order |
| Ordering.SortByMember | Modules/VGMDB/user_interface/cli.py:201 | sorting keeps exactly the elements it was given |
| Ordering.Peers | Modules/VGMDB/user_interface/cli.py:201 | the elements ranking the same as a given one are elements of the list that rank the same |
| Ordering.InsertByPeers | Modules/VGMDB/user_interface/cli.py:201 | an inserted element lands ahead of every element ranking the same |
| Ordering.SortByStable | Modules/VGMDB/user_interface/cli.py:201 | `sorted` is stable: the elements ranking the same keep the order they came in |
| Ordering.SortRows | Modules/VGMDB/user_interface/cli.py:157 | `list.sort()` of the table rows is a permutation of them in tuple order |
| Ordering.SortStrRows | Modules/Rename/utils.py:213 | `list.sort()` of the rows of strings is a permutation of them in tuple order, strings compared by code point |
| Ordering.StrLeTotal | Modules/Rename/utils.py:213 | any two strings compare one way or the other |
| Ordering.StrLeTrans | Modules/Rename/utils.py:213 | string order is transitive |
| Ordering.StrLeAntisym | Modules/Rename/utils.py:213 | two strings each at most the other are equal |
| Dict.PutGet | Modules/Scan/models/local_album_data.py:105-106 | after `d[k] = v`, looking up `k` gives `v` |
| Dict.PutOther | Modules/Scan/models/local_album_data.py:105-106 | `d[k] = v` leaves every other key's value as it was |
| Dict.PutKeys | Modules/Scan/models/local_album_data.py:105-106 | a new key goes to the end of the key order; an old key keeps its place |
| Dict.SortedKeysAscending | Modules/Scan/models/local_album_data.py:91-93 | `sorted(d.items())` visits every key once, in strictly increasing order |
| Dict.FlattenExact | Modules/Scan/models/local_album_data.py:110 | the nested comprehension lists each (disc, track) pair once, every pair present, with its own value, and nothing else |
| Wrappers.CollectComplete | renameFiles.py:76-88 | every element that has a result contributes that result to the collected list |
| Wrappers.CollectMember | renameFiles.py:76-88 | everything in the collected list is the result of some element |

## Left out

- I/O and the platform are not modelled: the file system, `os.rename`, `shutil.move`, `os.makedirs`, pickle files, the network and the VGMDB API, thread pools, logging, `tabulate` output, and the scan download itself. Directory listings, `isdir`, existing paths, search results and tag values enter as parameters. A path that `os.makedirs` would create is added to the set of existing paths.
- `rename` and `_rename` (`Modules/Rename/utils.py:51-69`) are not modelled. `rename` only chooses a template and builds an options dict it never uses, and `_rename` refers to names it does not define. The template choice is modelled by `RenameUtils.FolderNamingTemplate`.
- Code the core calls but does not define enters as function parameters: `getBest`, `fixDate`, `getProperCount`, `cleanName` from `Utility/generalUtils.py`, `TemplateResolver`'s validation and evaluation, `getYearFromDate`, `extractYearFromDate`, the VGMDB search, the language map and `NULL_INT`. These files are not part of this model.
- `ifNot`, imported at `Modules/VGMDB/user_interface/cli.py:24`, is defined in a file that is not part of this model. `Cli.IfNot` is a plain definition of what its use at lines 151-152 needs: the value when it is present and not 0, else the default. No property of it is claimed.
- The interactive flows are not modelled beyond their decisions: the prompts of `tagAndRenameFiles` (`albumTagger.py:162-262`), the menus of `FLAC_auto_tag.py:11-83`, and `CLI.run`, `operate`, `_confirm_before_proceeding`, `_scan_for_proper_albums`, `_get_args` and `_get_json_args` (`Modules/VGMDB/user_interface/cli.py:53-121,240-246,260-276`). Also not modelled: the translation loop (cli.py:125-133) and the `pauseOnFinish` input.
- Where the source waits for another answer or reply, it is given as a finite sequence. Running out of answers ends with `Aborted`, which the source cannot reach.
- The module-level call at the end of `helperScripts/logOrganizer.py` (lines 38-42) is not modelled.
- `Text.Lower`: lower-cases ASCII letters only, because Python's full Unicode case mapping is out of scope; the source lower-cases file extensions, keywords and menu answers, which are ASCII.
- `Text.IsDigits`: `str.isdigit` is taken as ASCII digits only, because Unicode digit classes are out of scope.
- `RenameWalk.Walk`: a `depth` bound limits how deep the recursion into sub-folders goes; folders nested deeper than the bound are not visited.
- `LogOrganizer.MoveLogs`: a `depth` bound limits how deep the recursion into sub-folders goes; folders nested deeper than the bound are not visited.
- `LogOrganizer.Tree`: each folder's listing is fixed before anything moves, so the "Logs" folder created during the walk is not listed again.
- `AudioSource.TrackSource`: the sample rate is a whole number of Hz, and the kHz text for fractional rates is not modelled, because floating point is out of scope.
- `TagUtils`: in `tagAudioFile`, the copy-through tags are not modelled. These are the multi-value tags (`addMultiValues`), organizations, catalog and barcode, comment, and track and disc numbers. Each is `getBest` or `getProperCount` of the album data, and both are parameters.
- `TagUtils.Titles`: the caller is assumed to have checked the TITLE flag already.
- `Text.DigitCount`: gives the exact number of decimal digits. The source computes `ceil(log10(n + 1))` in floating point, which can round to one digit fewer for counts from about 10^15 up. No album has that many tracks or discs, and floating point is out of scope.
- `AlbumRun.RunAlbum`: a file is promised to move when its new path is neither an existing path nor a folder or new path of an earlier file. That condition is sufficient, not necessary: a path an earlier move vacated is free too, and the model makes that move, but the contract does not promise it.
- `Dict`: Python dictionaries are modelled as insertion-ordered association lists with integer keys. That is the order `get_all_tracks`, `items()` and the report rows depend on.

## Findings

| source | as written | input that shows it | evidently intended | confidence | as-written member | corrected member |
|---|---|---|---|---|---|---|
| Modules/Scan/models/local_album_data.py:28-29 | any case of ".flac" passes the lossless test, but the format is "FLAC" only for the exact ".flac" | a track with the extension ".FLAC" is labelled "WAV" | the format is "FLAC" for every case of ".flac" | not executed | AudioSource.TrackSourceAsWritten, AudioSource.UpperFlacIsCalledWav | AudioSource.TrackSource, AudioSource.TrackSourceFormat |
| Modules/VGMDB/user_interface/cli.py:176 | `vgmdb_id[0].isdigit` is never called; a bound method is always truthy | an id tag holding "x" is taken as the album id | call `isdigit()`, so only a numeric id is used | not executed | Cli.EmbeddedIdAsWritten, Cli.NonNumericIdAccepted | Cli.EmbeddedId |
| Modules/VGMDB/user_interface/cli.py:174 | calls `get_one_random_track`, which `LocalAlbumData` does not define | any album: AttributeError before anything else | `get_one_sample_track` (local_album_data.py:113-115) | not executed | Cli.GetAlbumIdAsWritten | Cli.GetAlbumId |
| Modules/Rename/utils.py:28 | with neither `catalog_first` nor `same_folder_name` set, returns the "catalog_first" template | `get_folder_naming_template(None, False, False)` gives the template that leads with the catalog | the "default" template, which leads with the date | not executed | RenameUtils.FolderNamingTemplateAsWritten, RenameUtils.DefaultIsCatalogFirst | RenameUtils.FolderNamingTemplate, RenameUtils.TemplateLeads |
| Modules/Rename/utils.py:226-227 | `os.path.isdir(item)` and the recursive call use the bare entry name, resolved against the working directory | a folder "/m" whose entry "sub" is a folder, with the working directory elsewhere: "sub" is not walked | test and walk `os.path.join(folderPath, item)` | not executed | RenameWalk.SubFolderAsWritten, RenameWalk.NestedFolderMissed | RenameWalk.SubFolder |
| albumTagger.py:297 | `getYearFromDate` is called but never imported into the module | a search with one result raises NameError | import `getYearFromDate` along with the other helpers | not executed | AlbumTagger.FindAlbumIdAsWritten, AlbumTagger.AsWrittenFailsOnResult | AlbumTagger.FindAlbumId |
