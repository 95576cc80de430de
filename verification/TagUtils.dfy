/** The value choices of `tagAudioFile` in Modules/Tag/tagUtils.py: the
    list of names in every preferred language, the titles and album names
    written, the front-cover rule and the year. A language object is a
    name per language key, in insertion order; `languages`, `getBest` and
    `fixDate` are not part of this model and enter as parameters. */
module TagUtils {
  import opened Wrappers

  /** A language object: (language key, name) pairs in insertion order. */
  type LangObject = seq<(string, string)>

  predicate HasKey(o: LangObject, key: string) {
    exists i :: 0 <= i < |o| && o[i].0 == key
  }

  /** `o[key]`: the name under the first pair with that key. */
  function Lookup(o: LangObject, key: string): (r: Option<string>)
    ensures r.Some? <==> HasKey(o, key)
    ensures r.Some? ==> exists i :: 0 <= i < |o| && o[i] == (key, r.value)
  {
    if |o| == 0 then None
    else if o[0].0 == key then Some(o[0].1)
    else
      var r := Lookup(o[1..], key);
      if r.Some? then
        var i :| 0 <= i < |o[1..]| && o[1..][i] == (key, r.value);
        assert o[i + 1] == (key, r.value);
        r
      else
        assert !HasKey(o, key) by {
          forall i | 0 <= i < |o|
            ensures o[i].0 != key
          {
            if i > 0 {
              assert o[1..][i - 1] == o[i];
            }
          }
        }
        r
  }

  /** A name of `o`. */
  predicate IsValue(o: LangObject, x: string) {
    exists i :: 0 <= i < |o| && o[i].1 == x
  }

  // ---------------------------------------------------------------------------
  // Order-preserving de-duplication

  /** `[res.append(x) for x in xs if x not in res]`: after each element the
      list holds the distinct elements so far, in order of first
      appearance. */
  function Dedup<T(==,!new)>(xs: seq<T>): (r: seq<T>)
    ensures forall x :: x in r <==> x in xs
    ensures |r| <= |xs|
  {
    if |xs| == 0 then []
    else
      var init := Dedup(xs[..|xs| - 1]);
      var last := xs[|xs| - 1];
      assert xs == xs[..|xs| - 1] + [last];
      if last in init then init else init + [last]
  }

  predicate Distinct<T(==)>(s: seq<T>) {
    forall i, j :: 0 <= i < j < |s| ==> s[i] != s[j]
  }

  /** The position of the first `x` in `xs`. */
  function FirstIndex<T(==,!new)>(xs: seq<T>, x: T): (k: nat)
    requires x in xs
    ensures k < |xs| && xs[k] == x && x !in xs[..k]
  {
    if xs[0] == x then 0
    else
      var k := FirstIndex(xs[1..], x);
      assert xs[..k + 1] == [xs[0]] + xs[1..][..k];
      k + 1
  }

  lemma FirstIndexOfPrefix<T(!new)>(xs: seq<T>, n: nat, x: T)
    requires n <= |xs| && x in xs[..n]
    ensures FirstIndex(xs, x) == FirstIndex(xs[..n], x)
  {
    var k := FirstIndex(xs[..n], x);
    assert xs[..n][..k] == xs[..k];
    assert xs[k] == x;
  }

  /** The result has no repeats, and lists elements in the order of their
      first appearance. */
  lemma {:induction false} DedupSpec<T(!new)>(xs: seq<T>)
    ensures Distinct(Dedup(xs))
    ensures forall i, j :: 0 <= i < j < |Dedup(xs)| ==>
      FirstIndex(xs, Dedup(xs)[i]) < FirstIndex(xs, Dedup(xs)[j])
    decreases |xs|
  {
    if |xs| > 0 {
      var n := |xs| - 1;
      var pre := xs[..n];
      var init := Dedup(pre);
      var last := xs[n];
      DedupSpec(pre);
      var r := Dedup(xs);
      forall i | 0 <= i < |init|
        ensures FirstIndex(xs, init[i]) == FirstIndex(pre, init[i]) < n
      {
        FirstIndexOfPrefix(xs, n, init[i]);
      }
      if last !in init {
        assert last !in pre;
        assert FirstIndex(xs, last) == n;
        assert r == init + [last];
      }
    }
  }

  /** De-duplicating twice changes nothing. */
  lemma {:induction false} DedupOfDistinct<T(!new)>(xs: seq<T>)
    requires Distinct(xs)
    ensures Dedup(xs) == xs
    decreases |xs|
  {
    if |xs| > 0 {
      var n := |xs| - 1;
      assert Distinct(xs[..n]);
      DedupOfDistinct(xs[..n]);
      assert xs[n] !in xs[..n];
      assert xs == xs[..n] + [xs[n]];
    }
  }

  // ---------------------------------------------------------------------------
  // getAllLanguages

  /** The name under the first of `keys` that `o` has. */
  function FirstPresent(keys: seq<string>, o: LangObject): (r: Option<string>)
    ensures r.Some? <==> exists k :: k in keys && HasKey(o, k)
    ensures r.Some? ==> IsValue(o, r.value)
  {
    if |keys| == 0 then None
    else
      var here := Lookup(o, keys[0]);
      if here.Some? then here
      else
        var r := FirstPresent(keys[1..], o);
        assert forall k :: k in keys ==> k == keys[0] || k in keys[1..];
        r
  }

  /** The first loop of `getAllLanguages`: per language of `languageOrder`,
      the name under its first key in the object, if any. */
  function PerLanguage(languageOrder: seq<string>, languages: string -> seq<string>, o: LangObject): (r: seq<string>)
    ensures |r| <= |languageOrder|
    ensures forall x :: x in r <==> exists l :: l in languageOrder && FirstPresent(languages(l), o) == Some(x)
  {
    if |languageOrder| == 0 then []
    else
      var l := languageOrder[0];
      var rest := PerLanguage(languageOrder[1..], languages, o);
      assert forall l' :: l' in languageOrder <==> l' == l || l' in languageOrder[1..];
      match FirstPresent(languages(l), o)
      case Some(x) => [x] + rest
      case None => rest
  }

  /** The name of one language, if the object has one. */
  function NameIn(l: string, languages: string -> seq<string>, o: LangObject): seq<string> {
    match FirstPresent(languages(l), o)
    case Some(x) => [x]
    case None => []
  }

  lemma PerLanguageCons(languageOrder: seq<string>, languages: string -> seq<string>, o: LangObject)
    requires |languageOrder| > 0
    ensures PerLanguage(languageOrder, languages, o)
      == NameIn(languageOrder[0], languages, o) + PerLanguage(languageOrder[1..], languages, o)
  {
  }

  /** The names of the earlier languages of the order come first. */
  lemma {:induction false} PerLanguageAppend(a: seq<string>, b: seq<string>, languages: string -> seq<string>, o: LangObject)
    ensures PerLanguage(a + b, languages, o) == PerLanguage(a, languages, o) + PerLanguage(b, languages, o)
    decreases |a|
  {
    if |a| == 0 {
      assert a + b == b;
    } else {
      var ab := a + b;
      assert ab[0] == a[0] && ab[1..] == a[1..] + b;
      PerLanguageCons(ab, languages, o);
      PerLanguageAppend(a[1..], b, languages, o);
      PerLanguageCons(a, languages, o);
      Assoc(NameIn(a[0], languages, o), PerLanguage(a[1..], languages, o), PerLanguage(b, languages, o));
    }
  }

  lemma Assoc(x: seq<string>, y: seq<string>, z: seq<string>)
    ensures x + (y + z) == (x + y) + z
  {
  }

  /** `getAllLanguages`; `None` is the IndexError on an empty object. A
      name found comes before the names found only for later languages. */
  function GetAllLanguages(languageOrder: seq<string>, languages: string -> seq<string>, o: LangObject): (r: Option<seq<string>>)
    ensures r.None? <==> |o| == 0
    ensures r.Some? ==> Distinct(r.value) && |r.value| > 0
    ensures r.Some? ==> forall x :: x in r.value ==> IsValue(o, x)
    ensures r.Some? && |PerLanguage(languageOrder, languages, o)| == 0 ==> r.value == [o[0].1]
    ensures r.Some? && |PerLanguage(languageOrder, languages, o)| > 0 ==>
      forall x :: x in r.value <==> exists l :: l in languageOrder && FirstPresent(languages(l), o) == Some(x)
    ensures r.Some? && |PerLanguage(languageOrder, languages, o)| > 0 ==>
      forall i, j :: 0 <= i < j < |r.value| ==>
        && r.value[i] in PerLanguage(languageOrder, languages, o) && r.value[j] in PerLanguage(languageOrder, languages, o)
        && FirstIndex(PerLanguage(languageOrder, languages, o), r.value[i]) < FirstIndex(PerLanguage(languageOrder, languages, o), r.value[j])
  {
    var ans := PerLanguage(languageOrder, languages, o);
    var res := Dedup(ans);
    DedupSpec(ans);
    if |o| == 0 then
      NothingInEmpty(languageOrder, languages, o);
      None
    else if |res| > 0 then Some(res)
    else
      assert IsValue(o, o[0].1);
      Some([o[0].1])
  }

  /** An empty object has no name in any language. */
  lemma {:induction false} NothingInEmpty(languageOrder: seq<string>, languages: string -> seq<string>, o: LangObject)
    requires |o| == 0
    ensures PerLanguage(languageOrder, languages, o) == []
    decreases |languageOrder|
  {
    if |languageOrder| > 0 {
      NothingInEmpty(languageOrder[1..], languages, o);
    }
  }

  // ---------------------------------------------------------------------------
  // tagAudioFile

  /** The flags `tagAudioFile` reads. */
  datatype TagFlags = TagFlags(
    title: bool, allLang: bool, keepTitle: bool, pics: bool, picOverwrite: bool,
    date: bool, year: bool, catalog: bool, barcode: bool)

  /** The titles written: the best title, or with `ALL_LANG` every language;
      then the file's own title with `KEEP_TITLE`; without repeats. `None`
      is the IndexError of an empty title object. */
  function Titles(
    flags: TagFlags, languageOrder: seq<string>, languages: string -> seq<string>,
    trackTitles: LangObject, best: string, existing: Option<string>): (r: Option<seq<string>>)
    ensures r.None? <==> flags.allLang && |trackTitles| == 0
    ensures r.Some? ==> Distinct(r.value)
    ensures r.Some? && flags.keepTitle && existing.Some? && |existing.value| > 0 ==> existing.value in r.value
    ensures r.Some? && !flags.allLang ==> best in r.value
    ensures r.Some? && flags.allLang ==> forall x :: x in r.value ==>
      IsValue(trackTitles, x) || (flags.keepTitle && existing == Some(x))
    ensures !flags.allLang ==> r == Some(
      if flags.keepTitle && existing.Some? && |existing.value| > 0 && existing.value != best
      then [best, existing.value] else [best])
    ensures flags.allLang && |trackTitles| > 0 ==>
      var all := GetAllLanguages(languageOrder, languages, trackTitles).value;
      r == Some(
        if flags.keepTitle && existing.Some? && |existing.value| > 0 && existing.value !in all
        then all + [existing.value] else all)
  {
    var titles := if flags.allLang then GetAllLanguages(languageOrder, languages, trackTitles) else Some([best]);
    if titles.None? then None
    else
      var r := WithOwnTitle(flags.keepTitle, existing, titles.value);
      assert !flags.allLang && existing.Some? ==>
        (existing.value in [best] <==> existing.value == best) && [best] + [existing.value] == [best, existing.value];
      Some(r)
  }

  /** The second half of the titles: the file's own title appended under
      `KEEP_TITLE` when truthy, then the repeats removed. */
  function WithOwnTitle(keepTitle: bool, existing: Option<string>, titles: seq<string>): (r: seq<string>)
    requires Distinct(titles)
    ensures Distinct(r)
    ensures r == if keepTitle && existing.Some? && |existing.value| > 0 && existing.value !in titles
      then titles + [existing.value] else titles
  {
    var kept := if keepTitle && existing.Some? && |existing.value| > 0 then titles + [existing.value] else titles;
    DedupSpec(kept);
    DedupOfDistinct(titles);
    if kept != titles then DedupSnoc(titles, existing.value); Dedup(kept)
    else Dedup(kept)
  }

  /** Adding one element to a list without repeats keeps it, unless it is
      already there. */
  lemma DedupSnoc<T(!new)>(xs: seq<T>, x: T)
    requires Distinct(xs)
    ensures Dedup(xs + [x]) == if x in xs then xs else xs + [x]
  {
    DedupOfDistinct(xs);
    assert (xs + [x])[..|xs|] == xs;
  }

  /** The album names written: every language with `ALL_LANG` when the
      album has a name object, else the one album name. */
  function AlbumNames(
    flags: TagFlags, languageOrder: seq<string>, languages: string -> seq<string>,
    albumNames: Option<LangObject>, albumName: string): (r: Option<seq<string>>)
    ensures r.None? <==> flags.allLang && albumNames.Some? && |albumNames.value| == 0
    ensures r.Some? && !(flags.allLang && albumNames.Some?) ==> r.value == [albumName]
    ensures r.Some? && flags.allLang && albumNames.Some? ==>
      Distinct(r.value) && forall x :: x in r.value ==> IsValue(albumNames.value, x)
    ensures flags.allLang && albumNames.Some? ==> r == GetAllLanguages(languageOrder, languages, albumNames.value)
  {
    if flags.allLang && albumNames.Some? then GetAllLanguages(languageOrder, languages, albumNames.value)
    else Some([albumName])
  }

  /** The front cover (picture type 3) after tagging: the album's picture
      is added when the file has none, and replaces the one there only
      with `PIC_OVERWRITE`. */
  function FrontCover<Image(==)>(flags: TagFlags, cache: Option<Image>, front: Option<Image>): (r: Option<Image>)
    ensures !flags.pics || cache.None? ==> r == front
    ensures flags.pics && cache.Some? ==> r.Some?
    ensures front.Some? && !flags.picOverwrite ==> r == front
    ensures r != front ==> r == cache
  {
    if flags.pics && cache.Some? then
      if front.Some? then (if flags.picOverwrite then cache else front)
      else cache
    else front
  }

  /** Tagging twice with the same picture leaves the cover as once. */
  lemma FrontCoverIdempotent<Image>(flags: TagFlags, cache: Option<Image>, front: Option<Image>)
    ensures FrontCover(flags, cache, FrontCover(flags, cache, front)) == FrontCover(flags, cache, front)
  {
  }

  /** The "Year" tag: set only when the release date has at least four
      characters, to its first four. */
  function YearTag(flags: TagFlags, releaseDate: Option<string>): (r: Option<string>)
    ensures r.Some? <==> flags.year && releaseDate.Some? && |releaseDate.value| >= 4
    ensures r.Some? ==> |r.value| == 4 && r.value == releaseDate.value[..4]
  {
    if flags.year && releaseDate.Some? && |releaseDate.value| >= 4 then Some(releaseDate.value[0..4]) else None
  }

  /** The date tag: `fixDate` of the release date, when truthy. */
  function DateTag(flags: TagFlags, fixedDate: Option<string>): (r: Option<string>)
    ensures r.Some? <==> flags.date && fixedDate.Some? && |fixedDate.value| > 0
    ensures r.Some? ==> r == fixedDate
  {
    if flags.date && fixedDate.Some? && |fixedDate.value| > 0 then fixedDate else None
  }
}
