/** Modules/organize/organize_utils.py: the name cleaner, the disc-folder name
    parser and the file-name and folder helpers built on it. */
module OrganizeUtils {
  import opened Wrappers
  import Text
  import CharTable
  import PosixPath

  // ---------------------------------------------------------------------------
  // clean_name

  /** `forbiddenCharacters`, in dict order: each filesystem-unsafe code point and
      the look-alike that replaces it. */
  const ForbiddenCharacters: CharTable.Table := [
    ('<', '\U{1438}'), ('>', '\U{1433}'), (':', '\U{a789}'), ('"', '\U{2ee}'), ('\'', '\U{2bb}'),
    ('/', '\U{2cc6}'), ('\\', '\U{2216}'), ('|', '\U{1c0}'), ('?', '\U{294}'), ('*', '\U{2217}'),
    ('+', '\U{ff0b}'), ('%', '\U{66a}'), ('!', '\U{2d51}'), ('`', '\U{55d}'), ('&', '&'),
    ('{', '\U{2774}'), ('}', '\U{2775}'), ('=', '\U{1400}'), ('~', '\U{ff5e}'), ('#', '#'),
    ('$', '$'), ('@', '@')]

  /** The keys whose substitute differs from them: what never appears in a
      cleaned name. */
  const UnsafeCharacters: set<char> :=
    {'<', '>', ':', '"', '\'', '/', '\\', '|', '?', '*', '+', '%', '!', '`', '{', '}', '=', '~'}

  /** The position of `c` among the table's keys, -1 when it is none. */
  function KeyIndex(c: char): int {
    if c == '<' then 0
    else if c == '>' then 1
    else if c == ':' then 2
    else if c == '"' then 3
    else if c == '\'' then 4
    else if c == '/' then 5
    else if c == '\\' then 6
    else if c == '|' then 7
    else if c == '?' then 8
    else if c == '*' then 9
    else if c == '+' then 10
    else if c == '%' then 11
    else if c == '!' then 12
    else if c == '`' then 13
    else if c == '&' then 14
    else if c == '{' then 15
    else if c == '}' then 16
    else if c == '=' then 17
    else if c == '~' then 18
    else if c == '#' then 19
    else if c == '$' then 20
    else if c == '@' then 21
    else -1
  }

  /** Each key sits at its own position, and each substitute is no key or
      the key of its own entry. */
  lemma ForbiddenIndexed()
    ensures forall i :: 0 <= i < |ForbiddenCharacters| ==> KeyIndex(ForbiddenCharacters[i].0) == i
    ensures forall i :: 0 <= i < |ForbiddenCharacters| ==>
      KeyIndex(ForbiddenCharacters[i].1) == -1 || KeyIndex(ForbiddenCharacters[i].1) == i
  {
  }

  /** No two entries share a key. */
  lemma ForbiddenDistinctKeys()
    ensures CharTable.DistinctKeys(ForbiddenCharacters)
  {
    ForbiddenIndexed();
  }

  /** No substitute is the key of a later entry. */
  lemma ForbiddenNoChaining()
    ensures CharTable.NoChaining(ForbiddenCharacters)
  {
    ForbiddenIndexed();
  }

  /** No substitute is a different key: the keys that are also substitutes
      (`&`, `#`, `$`, `@`) map to themselves. */
  lemma ForbiddenSubstitutesFixed()
    ensures CharTable.SubstitutesFixed(ForbiddenCharacters)
  {
    ForbiddenIndexed();
  }

  /** Neither side of an entry is whitespace. */
  lemma ForbiddenNoSpace()
    ensures CharTable.SpaceFree(ForbiddenCharacters)
  {
  }

  /** `clean_name`: strip, then apply every table entry in turn. */
  function CleanName(name: string): (r: string)
    ensures |r| == |Text.Strip(name)|
    ensures forall i :: 0 <= i < |r| ==> r[i] == CharTable.Lookup(ForbiddenCharacters, Text.Strip(name)[i])
  {
    var s := Text.Strip(name);
    ForbiddenNoChaining();
    CharTable.ReplaceInOrderIsTranslate(s, ForbiddenCharacters);
    CharTable.ReplaceInOrder(s, ForbiddenCharacters)
  }

  /** A cleaned name has no whitespace at either end. */
  lemma CleanNameTrimmed(name: string)
    ensures var r := CleanName(name); |r| == 0 || (!Text.IsSpace(r[0]) && !Text.IsSpace(r[|r| - 1]))
  {
    var t := ForbiddenCharacters;
    var s := Text.Strip(name);
    Text.StripSpec(name);
    ForbiddenNoChaining();
    ForbiddenNoSpace();
    CharTable.ReplaceInOrderIsTranslate(s, t);
    assert CleanName(name) == CharTable.Translate(s, t);
    CharTable.TranslateKeepsTrimmed(s, t);
  }

  /** Cleaning a cleaned name changes nothing. */
  lemma CleanNameIdempotent(name: string)
    ensures CleanName(CleanName(name)) == CleanName(name)
  {
    var t := ForbiddenCharacters;
    var s := Text.Strip(name);
    var r := CleanName(name);
    ForbiddenNoChaining();
    ForbiddenSubstitutesFixed();
    CharTable.ReplaceInOrderIsTranslate(s, t);
    assert r == CharTable.Translate(s, t);
    CleanNameTrimmed(name);
    Text.StripOfTrimmed(r);
    CharTable.ReplaceInOrderIsTranslate(r, t);
    CharTable.TranslateIdempotent(s, t);
  }

  /** A cleaned name holds no key of a non-identity entry. */
  lemma CleanNameIsSafe(name: string)
    ensures forall k :: 0 <= k < |ForbiddenCharacters| && ForbiddenCharacters[k].0 != ForbiddenCharacters[k].1 ==>
      ForbiddenCharacters[k].0 !in CleanName(name)
  {
    ForbiddenNoChaining();
    ForbiddenDistinctKeys();
    ForbiddenSubstitutesFixed();
    CharTable.ReplaceInOrderIsTranslate(Text.Strip(name), ForbiddenCharacters);
    CharTable.TranslateAvoidsMovedKeys(Text.Strip(name), ForbiddenCharacters);
  }

  /** The unsafe code points are exactly the keys of the non-identity entries. */
  lemma UnsafeAreMovedKeys()
    ensures UnsafeCharacters ==
      set k | 0 <= k < |ForbiddenCharacters| && ForbiddenCharacters[k].0 != ForbiddenCharacters[k].1 :: ForbiddenCharacters[k].0
  {
    var t := ForbiddenCharacters;
    var moved := set k | 0 <= k < |t| && t[k].0 != t[k].1 :: t[k].0;
    MovedKeysAreUnsafe();
    forall c | c in UnsafeCharacters
      ensures c in moved
    {
      UnsafeIsMovedKey(c);
      var k := KeyIndex(c);
      assert t[k].0 == c;
    }
  }

  lemma MovedKeysAreUnsafe()
    ensures forall k :: 0 <= k < |ForbiddenCharacters| && ForbiddenCharacters[k].0 != ForbiddenCharacters[k].1 ==>
      ForbiddenCharacters[k].0 in UnsafeCharacters
  {
  }

  lemma UnsafeIsMovedKey(c: char)
    requires c in UnsafeCharacters
    ensures 0 <= KeyIndex(c) < |ForbiddenCharacters|
    ensures ForbiddenCharacters[KeyIndex(c)].0 == c && ForbiddenCharacters[KeyIndex(c)].1 != c
  {
  }

  /** A cleaned name holds none of `< > : " ' / \ | ? * + % ! ` { } = ~`. */
  lemma CleanNameAvoidsUnsafe(name: string)
    ensures forall c :: c in UnsafeCharacters ==> c !in CleanName(name)
  {
    CleanNameIsSafe(name);
    UnsafeAreMovedKeys();
  }

  // ---------------------------------------------------------------------------
  // get_base_folder_under_parent, extract_track_number_from_file_name,
  // extract_track_name_from_file_name

  /** `get_base_folder_under_parent`: the directory part of the file's path
      relative to the parent directory, unless that is "", "." or "/". Both
      paths are resolved against the working directory `cwd`. */
  function BaseFolderUnderParent(cwd: string, filePath: string, parentDirectory: string): (r: Option<string>)
    ensures var rel := PosixPath.RelParts(PosixPath.AbsParts(cwd, filePath), PosixPath.AbsParts(cwd, parentDirectory));
      && (r.None? <==> |rel| <= 1)
      && (r.Some? ==> r.value == Text.JoinWith(rel[..|rel| - 1], '/'))
  {
    var rel := PosixPath.RelParts(PosixPath.AbsParts(cwd, filePath), PosixPath.AbsParts(cwd, parentDirectory));
    var baseDir := PosixPath.DirName(PosixPath.JoinParts(rel));
    PosixPath.DirNameOfJoin(rel);
    if |rel| >= 2 then PosixPath.DirNameOfJoinIsProper(rel); Proper(baseDir) else Proper(baseDir)
  }

  /** `base_dir if base_dir not in ["", ".", "/"] else None`. */
  function Proper(baseDir: string): (r: Option<string>)
    ensures r.None? <==> baseDir in {"", ".", "/"}
    ensures r.Some? ==> r.value == baseDir
  {
    if baseDir == "" || baseDir == "." || baseDir == "/" then None else Some(baseDir)
  }

  /** A file below the parent: its base folder is the directory part of what
      lies below the parent, and there is none for a file directly in it. */
  lemma BaseFolderBelow(cwd: string, filePath: string, parentDirectory: string, tail: seq<string>)
    requires PosixPath.AbsParts(cwd, filePath) == PosixPath.AbsParts(cwd, parentDirectory) + tail
    ensures |tail| <= 1 ==> BaseFolderUnderParent(cwd, filePath, parentDirectory).None?
    ensures |tail| >= 2 ==>
      BaseFolderUnderParent(cwd, filePath, parentDirectory) == Some(Text.JoinWith(tail[..|tail| - 1], '/'))
  {
    PosixPath.RelPartsBelow(PosixPath.AbsParts(cwd, parentDirectory), tail);
  }

  /** `extract_track_number_from_file_name`: the body ends after its guard, so
      every input gives `None`. */
  function ExtractTrackNumber(fileName: Option<string>): (r: Option<nat>)
    ensures r.None?
  {
    None
  }

  /** `extract_track_name_from_file_name`: the file name without its last
      extension, stripped. */
  function ExtractTrackName(fileNameFull: string): (r: string)
    ensures |r| <= |fileNameFull|
  {
    Text.Strip(Text.SplitExt(fileNameFull).0)
  }

  /** The extension after the last '.' is dropped and nothing else: a leading
      track number stays part of the name. */
  lemma TrackNameDropsExtension(stem: string, ext: string)
    requires |stem| > 0 && stem[|stem| - 1] != '.' && stem[|stem| - 1] != '/'
    requires '.' !in ext && '/' !in ext
    ensures ExtractTrackName(stem + "." + ext) == Text.Strip(stem)
  {
    Text.SplitExtOfStem(stem, ext);
  }

  /** A name without '.' is only stripped. */
  lemma TrackNameWithoutExtension(fileNameFull: string)
    requires '.' !in fileNameFull
    ensures ExtractTrackName(fileNameFull) == Text.Strip(fileNameFull)
  {
    Text.SplitExtWithoutDot(fileNameFull);
  }
}
