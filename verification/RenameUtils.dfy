/** The naming decisions of Modules/Rename/utils.py: which folder-naming
    template is used, when `renameAlbumFolder` gives up and what it renames
    the folder to, and the names and moves of `renameAlbumFiles` and
    `renameFilesInternal`. The template evaluator, `cleanName`,
    `getProperCount` and `fixDate` are not part of this model and enter as
    parameters; the file system is the set of paths that exist. */
module RenameUtils {
  import opened Wrappers
  import Text
  import Dict
  import Ordering
  import PosixPath
  import AudioSource
  import RenameCommon
  import AlbumFiles
  import AlbumRun

  // ---------------------------------------------------------------------------
  // get_folder_naming_template

  /** The keys of `FOLDER_NAMING_TEMPLATE`. */
  datatype TemplateKey = Default | CatalogFirst | SameFolderNameDefault | SameFolderNameCatalogFirst

  /** The optional segments a built-in template opens with. */
  const DateLead := "{[{date}] }"
  const CatalogLead := "{[{catalog}] }"

  /** The template key of the folder's own name. */
  const FolderKey := "foldername"

  function TemplateText(k: TemplateKey): string {
    match k
    case Default => DateLead + "{albumname}{ [{catalog}]}{ [{format}]}"
    case CatalogFirst => CatalogLead + "{albumname}{ [{date}]}{ [{format}]}"
    case SameFolderNameDefault => DateLead + "{" + FolderKey + "}{ [{catalog}]}{ [{format}]}"
    case SameFolderNameCatalogFirst => CatalogLead + "{" + FolderKey + "}{ [{date}]}{ [{format}]}"
  }

  /** The built-in templates that name the folder after itself. */
  predicate KeepsFolderName(k: TemplateKey) {
    k == SameFolderNameDefault || k == SameFolderNameCatalogFirst
  }

  /** A template whose text opens with the optional catalog segment. */
  predicate LeadsWithCatalog(template: string) {
    Text.StartsWith(template, CatalogLead)
  }

  /** The template used: the one supplied, or a built-in one. */
  datatype Template = Supplied(text: string) | Builtin(key: TemplateKey)

  function TextOf(t: Template): string {
    match t
    case Supplied(text) => text
    case Builtin(key) => TemplateText(key)
  }

  /** `get_folder_naming_template` as written: a supplied template is
      validated first, and one that fails stops the call; without a
      supplied template and without `catalog_first`, the last line falls
      back to the catalog-first template too, so "default" is never
      chosen. `valid` stands for `TemplateResolver.validateTemplate`. */
  function FolderNamingTemplateAsWritten(supplied: Option<string>, catalogFirst: bool, sameFolderName: bool, valid: string -> bool): (r: Result<Template>)
    ensures r.Err? <==> RenameCommon.Truthy(supplied) && !valid(supplied.value)
    ensures r.Ok? && RenameCommon.Truthy(supplied) ==> r.value == Supplied(supplied.value)
    ensures !RenameCommon.Truthy(supplied) ==> r.Ok? && r.value.Builtin? && r.value.key != Default
    ensures !RenameCommon.Truthy(supplied) ==> (KeepsFolderName(r.value.key) <==> sameFolderName)
  {
    if RenameCommon.Truthy(supplied) then
      if valid(supplied.value) then Ok(Supplied(supplied.value)) else Err(Aborted("invalid template"))
    else if catalogFirst then Ok(Builtin(if sameFolderName then SameFolderNameCatalogFirst else CatalogFirst))
    else Ok(Builtin(if sameFolderName then SameFolderNameDefault else CatalogFirst))
  }

  /** `get_folder_naming_template` with "default" as the last fallback, the
      choice the table of templates is laid out for: each built-in template
      opens with the catalog exactly when `catalog_first` is set. */
  function FolderNamingTemplate(supplied: Option<string>, catalogFirst: bool, sameFolderName: bool, valid: string -> bool): (r: Result<Template>)
    ensures r.Err? <==> RenameCommon.Truthy(supplied) && !valid(supplied.value)
    ensures r.Ok? && RenameCommon.Truthy(supplied) ==> r.value == Supplied(supplied.value)
    ensures !RenameCommon.Truthy(supplied) ==>
      && r.Ok? && r.value.Builtin?
      && (LeadsWithCatalog(TemplateText(r.value.key)) <==> catalogFirst)
      && (KeepsFolderName(r.value.key) <==> sameFolderName)
  {
    if RenameCommon.Truthy(supplied) then
      if valid(supplied.value) then Ok(Supplied(supplied.value)) else Err(Aborted("invalid template"))
    else
      var key :=
        if catalogFirst then (if sameFolderName then SameFolderNameCatalogFirst else CatalogFirst)
        else (if sameFolderName then SameFolderNameDefault else Default);
      TemplateLeads(key);
      Ok(Builtin(key))
  }

  /** Which built-in templates open with the catalog segment. */
  lemma TemplateLeads(k: TemplateKey)
    ensures LeadsWithCatalog(TemplateText(k)) <==> k == CatalogFirst || k == SameFolderNameCatalogFirst
  {
    var t := TemplateText(k);
    if k == CatalogFirst || k == SameFolderNameCatalogFirst {
      assert t == CatalogLead + t[|CatalogLead|..];
    } else {
      assert t[3] == DateLead[3] == 'd' && CatalogLead[3] == 'c';
    }
  }

  /** With no template and neither option, the code as written picks a
      template that opens with the catalog. */
  lemma DefaultIsCatalogFirst()
    ensures forall valid: string -> bool :: FolderNamingTemplateAsWritten(None, false, false, valid) == Ok(Builtin(CatalogFirst))
    ensures LeadsWithCatalog(TemplateText(CatalogFirst))
    ensures forall valid: string -> bool :: FolderNamingTemplate(None, false, false, valid) == Ok(Builtin(Default))
  {
    TemplateLeads(CatalogFirst);
  }

  /** The two choices differ only there. */
  lemma TemplateChoicesAgree(supplied: Option<string>, catalogFirst: bool, sameFolderName: bool, valid: string -> bool)
    requires RenameCommon.Truthy(supplied) || catalogFirst || sameFolderName
    ensures FolderNamingTemplateAsWritten(supplied, catalogFirst, sameFolderName, valid)
      == FolderNamingTemplate(supplied, catalogFirst, sameFolderName, valid)
  {
  }

  // ---------------------------------------------------------------------------
  // renameAlbumFolder

  /** What `renameAlbumFolder` reads from the one audio file it opens: the
      album, catalog and barcode tags, `fixDate` of the date tag and of the
      "year" tag, and the extension and stream properties that
      `deduceAudioDetails` reads. */
  datatype AlbumAudio = AlbumAudio(
    album: Option<string>, catalog: Option<string>, barcode: Option<string>,
    fixedDate: Option<string>, fixedYear: Option<string>,
    extension: string, info: AudioSource.StreamInfo)

  /** The mapping handed to the template evaluator; `format` is `None` for
      the empty label. */
  datatype Mapping = Mapping(
    albumName: Option<string>, catalog: Option<string>, date: Option<string>,
    folderName: string, barcode: Option<string>, format: Option<AudioSource.Label>)

  function TemplateMapping(folderPath: string, audio: AlbumAudio): Mapping {
    Mapping(
      audio.album, audio.catalog, RenameCommon.ChosenDate(audio.fixedDate, audio.fixedYear),
      Text.BaseName(folderPath), audio.barcode, AudioSource.Deduce(audio.extension, audio.info))
  }

  /** The mapping's date has no '-', its folder name is the folder's own
      name, and its format is the label of the file's extension. */
  lemma TemplateMappingMeaning(folderPath: string, audio: AlbumAudio)
    ensures var m := TemplateMapping(folderPath, audio);
      && (RenameCommon.Truthy(m.date) ==> '-' !in m.date.value)
      && (RenameCommon.Truthy(m.date) <==> RenameCommon.Truthy(audio.fixedDate) || RenameCommon.Truthy(audio.fixedYear))
      && '/' !in m.folderName && Text.EndsWith(folderPath, m.folderName)
      && (m.format.Some? <==> audio.extension in {".flac", ".wav", ".mp3", ".m4a", ".ogg", ".opus"})
  {
  }

  /** Giving up for want of an album name: only when the tag is missing and
      the lower-cased template does not mention "foldername". */
  predicate Aborts(album: Option<string>, template: string) {
    album.None? && !Text.Contains(Text.Lower(template), "foldername")
  }

  /** The built-in templates that keep the folder name never give up. */
  lemma KeptFolderNameNeverAborts(k: TemplateKey, album: Option<string>)
    requires KeepsFolderName(k)
    ensures !Aborts(album, TemplateText(k))
  {
    var t := TemplateText(k);
    assert Text.Lower(FolderKey) == FolderKey by {
      var l := Text.Lower(FolderKey);
      assert l[0] == 'f' && l[1] == 'o' && l[2] == 'l' && l[3] == 'd' && l[4] == 'e';
      assert l[5] == 'r' && l[6] == 'n' && l[7] == 'a' && l[8] == 'm' && l[9] == 'e';
    }
    var head := (if k == SameFolderNameDefault then DateLead else CatalogLead) + "{";
    var tail := if k == SameFolderNameDefault then "}{ [{catalog}]}{ [{format}]}" else "}{ [{date}]}{ [{format}]}";
    assert t == head + FolderKey + tail;
    assert t[|head|..|head| + |FolderKey|] == FolderKey;
    Text.ContainsLowered(t, FolderKey, |head|);
  }

  datatype FolderOutcome =
    | NoAudioFile
    | NoAlbumName
    | Attempted(newName: string, target: string, attempt: RenameCommon.Attempt, existing: set<string>)

  /** `renameAlbumFolder`: no audio file, or a missing album name that the
      template cannot do without, ends it; otherwise the evaluated, cleaned
      name is tried next to the folder, and the folder is renamed when the
      name differs and nothing is there yet. */
  function RenameAlbumFolder(
    folderPath: string, template: string, audio: Option<AlbumAudio>,
    evaluate: (Mapping, string) -> string, clean: string -> string,
    existing: set<string>): (r: FolderOutcome)
    ensures r.NoAudioFile? <==> audio.None?
    ensures r.NoAlbumName? <==> audio.Some? && Aborts(audio.value.album, template)
    ensures r.Attempted? ==>
      && r.newName == clean(evaluate(TemplateMapping(folderPath, audio.value), template))
      && r.target == Text.PathJoin(PosixPath.DirName(folderPath), r.newName)
      && (r.attempt == RenameCommon.Renamed <==> Text.BaseName(folderPath) != r.newName && r.target !in existing)
      && (r.attempt == RenameCommon.Renamed ==> r.target in r.existing && (folderPath !in r.existing || folderPath == r.target))
      && (r.attempt != RenameCommon.Renamed ==> r.existing == existing)
  {
    if audio.None? then NoAudioFile
    else if Aborts(audio.value.album, template) then NoAlbumName
    else
      var newName := clean(evaluate(TemplateMapping(folderPath, audio.value), template));
      var target := Text.PathJoin(PosixPath.DirName(folderPath), newName);
      var (attempt, after) := RenameCommon.TryRename(existing, Text.BaseName(folderPath) != newName, folderPath, target);
      Attempted(newName, target, attempt, after)
  }

  /** A renamed folder keeps its parent: its new path ends in the new name,
      and nothing that existed is overwritten. */
  lemma RenamedFolderName(
    folderPath: string, template: string, audio: Option<AlbumAudio>,
    evaluate: (Mapping, string) -> string, clean: string -> string,
    existing: set<string>)
    requires var r := RenameAlbumFolder(folderPath, template, audio, evaluate, clean, existing);
      r.Attempted? && |r.newName| > 0 && '/' !in r.newName
    ensures var r := RenameAlbumFolder(folderPath, template, audio, evaluate, clean, existing);
      Text.BaseName(r.target) == r.newName
  {
    var r := RenameAlbumFolder(folderPath, template, audio, evaluate, clean, existing);
    Text.BaseNameOfJoin(PosixPath.DirName(folderPath), r.newName);
  }

  // ---------------------------------------------------------------------------
  // renameAlbumFiles

  /** `renameAlbumFiles`: a disc with a single track drops the track
      number, the extension is not cleaned, and the table shows the full
      old file name. */
  function RenameAlbumFiles(
    folderPath: string, folderTrackData: Dict.Dict<Dict.Dict<string>>,
    tagsOf: string -> AlbumFiles.TrackTags, properCount: (int, int) -> string, clean: string -> string,
    noMove: bool, existing: set<string>): (r: AlbumFiles.FilesResult)
    ensures forall i, j :: 0 <= i < j < |r.table| ==> Ordering.StrRowLe(r.table[i], r.table[j])
    ensures var env := AlbumFiles.AlbumEnv(AlbumFiles.PerDisc, folderPath, folderTrackData, tagsOf, properCount, clean, noMove);
      forall m :: m in r.moves ==> AlbumFiles.Planned(env, AlbumFiles.AlbumEntries(folderTrackData), m)
    ensures var env := AlbumFiles.AlbumEnv(AlbumFiles.PerDisc, folderPath, folderTrackData, tagsOf, properCount, clean, noMove);
      var es := AlbumFiles.AlbumEntries(folderTrackData);
      forall k :: 0 <= k < |es| && AlbumFiles.FreeAtTurn(env, existing, es, k) ==>
        AlbumFiles.Move(es[k].filePath, AlbumFiles.NewPathOf(env, es[k])) in r.moves
  {
    AlbumRun.RunAlbum(AlbumFiles.PerDisc, folderPath, folderTrackData, tagsOf, properCount, clean, noMove, existing)
  }

  // ---------------------------------------------------------------------------
  // organizeAlbum

  /** `organizeAlbum`: the files first, with the table shown, then the
      folder, which sees the paths as the file renames left them. The
      folder is never renamed onto a path that exists after the files. */
  function OrganizeAlbum(
    folderPath: string, template: string, folderTrackData: Dict.Dict<Dict.Dict<string>>,
    tagsOf: string -> AlbumFiles.TrackTags, properCount: (int, int) -> string, clean: string -> string,
    audio: Option<AlbumAudio>, evaluate: (Mapping, string) -> string, existing: set<string>): (r: (AlbumFiles.FilesResult, FolderOutcome))
    ensures forall i, j :: 0 <= i < j < |r.0.table| ==> Ordering.StrRowLe(r.0.table[i], r.0.table[j])
    ensures r.1.NoAudioFile? <==> audio.None?
    ensures r.1.NoAlbumName? <==> audio.Some? && Aborts(audio.value.album, template)
    ensures r.1.Attempted? && r.1.attempt == RenameCommon.Renamed ==>
      r.1.target !in r.0.existing && r.1.target in r.1.existing
  {
    var files := RenameAlbumFiles(folderPath, folderTrackData, tagsOf, properCount, clean, false, existing);
    (files, RenameAlbumFolder(folderPath, template, audio, evaluate, clean, files.existing))
  }
}
