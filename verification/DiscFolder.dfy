/** The disc-folder name parser of Modules/organize/organize_utils.py
    (`_split_disc_folder_name` and the two extractors built on it). */
module DiscFolder {
  import opened Wrappers
  import Text

  // ---------------------------------------------------------------------------
  // _split_disc_folder_name: the pattern
  //   ^ *(disc|cd|dvd|) *([0-9]+) *([<separators>])(.*)$
  // matched case-insensitively against the whole folder name.

  /** The separator class: `":-. _~"` together with `clean_name` of it, which
      adds the substitutes of ':' and '~' from the table. */
  const Separators: set<char> := {':', '-', '.', ' ', '_', '~', '\U{a789}', '\U{ff5e}'}

  predicate IsSeparator(c: char) {
    c in Separators
  }

  /** The alternatives of `(disc|cd|dvd|)`, in the order they are tried. */
  datatype Keyword = Disc | Cd | Dvd | Bare

  /** The pattern text of each alternative. */
  function Spelling(k: Keyword): string {
    match k
    case Disc => "disc"
    case Cd => "cd"
    case Dvd => "dvd"
    case Bare => ""
  }

  /** How many code points the alternative consumes. */
  function Width(k: Keyword): (n: nat)
    ensures n == |Spelling(k)|
  {
    match k
    case Disc => 4
    case Cd => 2
    case Dvd => 3
    case Bare => 0
  }

  /** The ASCII upper-case form of the letters the keywords use. */
  function UpperOf(k: char): char {
    if k == 'c' then 'C'
    else if k == 'd' then 'D'
    else if k == 'i' then 'I'
    else if k == 's' then 'S'
    else if k == 'v' then 'V'
    else k
  }

  /** `c` matches the lower-case pattern letter `k` under `re.IGNORECASE`:
      besides the ASCII case pair, 'i' also matches U+0130 and U+0131 and 's'
      also matches U+017F. */
  predicate LetterMatches(c: char, k: char) {
    || c == k
    || c == UpperOf(k)
    || (k == 'i' && (c == '\U{130}' || c == '\U{131}'))
    || (k == 's' && c == '\U{17f}')
  }

  /** The alternative `k` matches `s` at position `p`, letter by letter. */
  predicate KeywordAt(s: string, p: nat, k: Keyword) {
    match k
    case Disc =>
      p + 4 <= |s| && LetterMatches(s[p], 'd') && LetterMatches(s[p + 1], 'i')
      && LetterMatches(s[p + 2], 's') && LetterMatches(s[p + 3], 'c')
    case Cd => p + 2 <= |s| && LetterMatches(s[p], 'c') && LetterMatches(s[p + 1], 'd')
    case Dvd =>
      p + 3 <= |s| && LetterMatches(s[p], 'd') && LetterMatches(s[p + 1], 'v') && LetterMatches(s[p + 2], 'd')
    case Bare => p <= |s|
  }

  /** `KeywordAt` is the pattern text matched letter by letter. */
  lemma KeywordAtSpelled(s: string, p: nat, k: Keyword)
    ensures KeywordAt(s, p, k) <==>
      p + |Spelling(k)| <= |s| && forall j :: 0 <= j < |Spelling(k)| ==> LetterMatches(s[p + j], Spelling(k)[j])
  {
    var w := Spelling(k);
    if p + |w| <= |s| && forall j :: 0 <= j < |w| ==> LetterMatches(s[p + j], w[j]) {
      if |w| > 0 { assert LetterMatches(s[p + 0], w[0]); }
      if |w| > 1 { assert LetterMatches(s[p + 1], w[1]); }
      if |w| > 2 { assert LetterMatches(s[p + 2], w[2]); }
      if |w| > 3 { assert LetterMatches(s[p + 3], w[3]); }
    }
  }

  /** `s[a..b]` is made of ' ' only (the pattern's ` *`). */
  predicate SpacesIn(s: string, a: nat, b: nat) {
    a <= b <= |s| && forall j :: a <= j < b ==> s[j] == ' '
  }

  /** `s[a..b]` is a non-empty run of ASCII digits (`[0-9]+`). */
  predicate DigitsIn(s: string, a: nat, b: nat) {
    a < b <= |s| && forall j :: a <= j < b ==> Text.IsDigit(s[j])
  }

  /** `(.*)$` from `a` ends at `e`: no newline in `s[a..e]`, and `$` holds at
      `e`, which is the end of `s` or a final newline. */
  predicate LineEndsAt(s: string, a: nat, e: nat) {
    a <= e <= |s|
    && (forall j :: a <= j < e ==> s[j] != '\n')
    && (e == |s| || (e == |s| - 1 && s[e] == '\n'))
  }

  /** `^ *(disc|cd|dvd|) *` can match `s[..q]`. */
  ghost predicate PrefixBefore(s: string, q: nat) {
    exists lead: nat, k: Keyword ::
      SpacesIn(s, 0, lead) && KeywordAt(s, lead, k) && SpacesIn(s, lead + Width(k), q)
  }

  /** Where the groups of one match lie: the digits are
      `s[digitsStart..digitsEnd]`, the separator is `s[sep]`, the name group
      `s[sep + 1..end]`. */
  datatype DiscMatch = DiscMatch(digitsStart: nat, digitsEnd: nat, sep: nat, end: nat)

  /** One way the pattern can match `s` as a whole. */
  ghost predicate IsMatch(s: string, m: DiscMatch) {
    && PrefixBefore(s, m.digitsStart)
    && DigitsIn(s, m.digitsStart, m.digitsEnd)
    && SpacesIn(s, m.digitsEnd, m.sep)
    && m.sep < |s| && IsSeparator(s[m.sep])
    && LineEndsAt(s, m.sep + 1, m.end)
  }

  /** The match `re` reports: greedy ` *` before the separator makes it the
      one whose separator lies furthest right. */
  ghost predicate IsChosenMatch(s: string, m: DiscMatch) {
    IsMatch(s, m) && forall m' :: IsMatch(s, m') ==> m'.sep <= m.sep
  }

  /** Number of ' ' in `s` from `i` on, before anything else. */
  function SpacesFrom(s: string, i: nat): (n: nat)
    requires i <= |s|
    ensures i + n <= |s|
    decreases |s| - i
  {
    if i < |s| && s[i] == ' ' then 1 + SpacesFrom(s, i + 1) else 0
  }

  /** `SpacesFrom` counts the whole run of spaces at `i`. */
  lemma {:induction false} SpacesFromSpec(s: string, i: nat)
    requires i <= |s|
    ensures SpacesIn(s, i, i + SpacesFrom(s, i))
    ensures i + SpacesFrom(s, i) < |s| ==> s[i + SpacesFrom(s, i)] != ' '
    decreases |s| - i
  {
    if i < |s| && s[i] == ' ' {
      SpacesFromSpec(s, i + 1);
    }
  }

  /** A run of spaces from `i` that ends before a non-space is what
      `SpacesFrom` counts. */
  lemma {:induction false} SpacesFromExact(s: string, i: nat, q: nat)
    requires SpacesIn(s, i, q) && (q < |s| ==> s[q] != ' ')
    ensures SpacesFrom(s, i) == q - i
    decreases q - i
  {
    if i < q {
      SpacesFromExact(s, i + 1, q);
    }
  }

  /** Number of ASCII digits in `s` from `i` on, before anything else. */
  function DigitsFrom(s: string, i: nat): (n: nat)
    requires i <= |s|
    ensures i + n <= |s|
    decreases |s| - i
  {
    if i < |s| && Text.IsDigit(s[i]) then 1 + DigitsFrom(s, i + 1) else 0
  }

  /** `DigitsFrom` counts the whole run of digits at `i`. */
  lemma {:induction false} DigitsFromSpec(s: string, i: nat)
    requires i <= |s|
    ensures forall j :: i <= j < i + DigitsFrom(s, i) ==> Text.IsDigit(s[j])
    ensures i + DigitsFrom(s, i) < |s| ==> !Text.IsDigit(s[i + DigitsFrom(s, i)])
    decreases |s| - i
  {
    if i < |s| && Text.IsDigit(s[i]) {
      DigitsFromSpec(s, i + 1);
    }
  }

  /** The alternative `(disc|cd|dvd|)` takes at `p`: the first that matches. */
  function KeywordTried(s: string, p: nat): Keyword {
    if KeywordAt(s, p, Disc) then Disc
    else if KeywordAt(s, p, Cd) then Cd
    else if KeywordAt(s, p, Dvd) then Dvd
    else Bare
  }

  /** The alternative tried matches ... */
  lemma KeywordTriedMatches(s: string, p: nat)
    requires p <= |s|
    ensures KeywordAt(s, p, KeywordTried(s, p))
  {
  }

  /** ... and it is the only non-empty one that does. */
  lemma KeywordTriedOnly(s: string, p: nat, k: Keyword)
    requires KeywordAt(s, p, k) && k != Bare
    ensures k == KeywordTried(s, p)
  {
  }

  /** Where `(.*)$` from `a` ends, if it can. */
  function LineEnd(s: string, a: nat): (e: Option<nat>)
    requires a <= |s|
    ensures e.Some? ==> a <= e.value <= |s|
  {
    var k := Text.Find(s[a..], '\n');
    if k < 0 then Some(|s|)
    else if a + k == |s| - 1 then Some(|s| - 1)
    else None
  }

  /** `LineEnd` finds where `(.*)$` ends, and finds nothing only when it
      cannot end anywhere. */
  lemma LineEndSpec(s: string, a: nat)
    requires a <= |s|
    ensures LineEnd(s, a).Some? ==> LineEndsAt(s, a, LineEnd(s, a).value)
    ensures LineEnd(s, a).None? ==> forall e :: !LineEndsAt(s, a, e)
  {
    var k := Text.Find(s[a..], '\n');
    if 0 <= k && a + k != |s| - 1 {
      assert s[a + k] == s[a..][k];
    }
  }

  /** Where the digit group starts: after the leading spaces, the keyword and
      the spaces that follow it. */
  function DigitsStart(s: string): (q: nat)
    ensures q <= |s|
  {
    var lead := SpacesFrom(s, 0);
    var p := lead + Width(KeywordTried(s, lead));
    KeywordTriedMatches(s, lead);
    p + SpacesFrom(s, p)
  }

  /** The text before `DigitsStart` matches `^ *(disc|cd|dvd|) *`, and is not
      followed by a space. */
  lemma DigitsStartSpec(s: string)
    ensures PrefixBefore(s, DigitsStart(s))
    ensures DigitsStart(s) < |s| ==> s[DigitsStart(s)] != ' '
  {
    var lead := SpacesFrom(s, 0);
    var k := KeywordTried(s, lead);
    var p := lead + Width(k);
    SpacesFromSpec(s, 0);
    KeywordTriedMatches(s, lead);
    SpacesFromSpec(s, p);
    assert SpacesIn(s, 0, lead) && KeywordAt(s, lead, k) && SpacesIn(s, p, DigitsStart(s));
  }

  /** Where the digit group ends: the whole run of digits from its start. */
  function DigitsEnd(s: string): (d: nat)
    ensures DigitsStart(s) <= d <= |s|
  {
    DigitsStart(s) + DigitsFrom(s, DigitsStart(s))
  }

  lemma DigitsEndSpec(s: string)
    ensures forall j :: DigitsStart(s) <= j < DigitsEnd(s) ==> Text.IsDigit(s[j])
    ensures DigitsEnd(s) < |s| ==> !Text.IsDigit(s[DigitsEnd(s)])
  {
    DigitsFromSpec(s, DigitsStart(s));
  }

  /** The separator the greedy ` *` leaves: the code point after the spaces
      that follow the digits if it is a separator, otherwise the last of those
      spaces; `|s|` when there is neither. */
  function SeparatorAt(s: string): (u: nat)
    ensures DigitsEnd(s) <= u <= |s|
  {
    var d := DigitsEnd(s);
    var i3 := d + SpacesFrom(s, d);
    if i3 < |s| && IsSeparator(s[i3]) then i3
    else if i3 > d then i3 - 1
    else |s|
  }

  lemma SeparatorAtSpec(s: string)
    ensures SeparatorAt(s) < |s| ==> SpacesIn(s, DigitsEnd(s), SeparatorAt(s)) && IsSeparator(s[SeparatorAt(s)])
  {
    SpacesFromSpec(s, DigitsEnd(s));
  }

  /** Without a newline after `a`, `(.*)$` runs to the end. */
  lemma LineEndWithoutNewline(s: string, a: nat)
    requires a <= |s| && forall j :: a <= j < |s| ==> s[j] != '\n'
    ensures LineEnd(s, a) == Some(|s|)
  {
    var k := Text.Find(s[a..], '\n');
    if k >= 0 {
      assert s[a..][k] == s[a + k];
    }
  }

  /** The regular-expression search, done the way the pattern reads: the
      leading spaces, the keyword, the spaces, the maximal digit run, then the
      furthest separator the spaces allow. */
  function Locate(s: string): (r: Option<DiscMatch>) {
    var u := SeparatorAt(s);
    if DigitsEnd(s) == DigitsStart(s) || u == |s| then None
    else
      match LineEnd(s, u + 1)
      case None => None
      case Some(e) => Some(DiscMatch(DigitsStart(s), DigitsEnd(s), u, e))
  }

  /** What `Locate` finds is a match of the pattern. */
  lemma LocateSound(s: string)
    ensures Locate(s).Some? ==> IsMatch(s, Locate(s).value)
  {
    DigitsStartSpec(s);
    DigitsEndSpec(s);
    SeparatorAtSpec(s);
    if SeparatorAt(s) < |s| {
      LineEndSpec(s, SeparatorAt(s) + 1);
    }
  }

  /** Any way of matching the text before the digits puts the digits where
      `DigitsStart` does. */
  lemma DigitsStartUnique(s: string, q: nat)
    requires PrefixBefore(s, q)
    requires q < |s| && Text.IsDigit(s[q])
    ensures q == DigitsStart(s)
  {
    var lead: nat, k: Keyword :| SpacesIn(s, 0, lead) && KeywordAt(s, lead, k)
      && SpacesIn(s, lead + Width(k), q);
    if k != Bare {
      DigitsStartAfterKeyword(s, lead, k, q);
    } else {
      DigitsStartWithoutKeyword(s, lead, q);
    }
  }

  lemma DigitsStartAfterKeyword(s: string, lead: nat, k: Keyword, q: nat)
    requires k != Bare
    requires SpacesIn(s, 0, lead) && KeywordAt(s, lead, k) && SpacesIn(s, lead + Width(k), q)
    requires q < |s| && Text.IsDigit(s[q])
    ensures q == DigitsStart(s)
  {
    SpacesFromExact(s, 0, lead);
    KeywordTriedOnly(s, lead, k);
    SpacesFromExact(s, lead + Width(k), q);
  }

  lemma DigitsStartWithoutKeyword(s: string, lead: nat, q: nat)
    requires SpacesIn(s, 0, lead) && SpacesIn(s, lead, q)
    requires q < |s| && Text.IsDigit(s[q])
    ensures q == DigitsStart(s)
  {
    SpacesFromExact(s, 0, q);
    BareBeforeDigit(s, q);
    SpacesFromExact(s, q, q);
  }

  /** No keyword matches at a digit. */
  lemma BareBeforeDigit(s: string, q: nat)
    requires q < |s| && Text.IsDigit(s[q])
    ensures KeywordTried(s, q) == Bare
  {
  }

  /** A digit run from `DigitsStart` followed by a non-digit is `DigitsEnd`. */
  lemma DigitsEndUnique(s: string, r: nat)
    requires DigitsIn(s, DigitsStart(s), r)
    requires r < |s| && !Text.IsDigit(s[r])
    ensures r == DigitsEnd(s)
  {
    DigitsEndSpec(s);
  }

  /** Any separator reachable through spaces after the digits lies no further
      right than `SeparatorAt`. */
  lemma SeparatorFurthest(s: string, u: nat)
    requires SpacesIn(s, DigitsEnd(s), u) && u < |s| && IsSeparator(s[u])
    ensures u <= SeparatorAt(s) < |s|
  {
    var d := DigitsEnd(s);
    SpacesFromSpec(s, d);
    var i3 := d + SpacesFrom(s, d);
    assert u <= i3;
  }

  /** `(.*)$` ends at the same place from any start before the end. */
  lemma LineEndFrom(s: string, a: nat, a': nat, e: nat)
    requires a' <= a <= e && LineEndsAt(s, a', e)
    ensures LineEnd(s, a) == Some(e)
  {
    LineEndSpec(s, a);
  }

  /** What follows a digit group on the way to a separator is no digit. */
  lemma NoDigitBeforeSeparator(s: string, r: nat, u: nat)
    requires SpacesIn(s, r, u) && u < |s| && IsSeparator(s[u])
    ensures r < |s| && !Text.IsDigit(s[r])
  {
    if r < u {
      assert s[r] == ' ';
    }
  }

  /** A separator at or after the start of `(.*)` lies before its end. */
  lemma SeparatorBeforeLineEnd(s: string, u: nat, a: nat, e: nat)
    requires u < |s| && IsSeparator(s[u]) && LineEndsAt(s, a, e) && a <= u + 1
    ensures u + 1 <= e
  {
  }

  /** Every match of the pattern has the digit group and the name's end that
      `Locate` reports, and a separator no further right. */
  lemma LocateComplete(s: string, m': DiscMatch)
    requires IsMatch(s, m')
    ensures Locate(s).Some?
    ensures Locate(s).value.digitsStart == m'.digitsStart && Locate(s).value.digitsEnd == m'.digitsEnd
    ensures Locate(s).value.end == m'.end
    ensures m'.sep <= Locate(s).value.sep
  {
    DigitsStartUnique(s, m'.digitsStart);
    NoDigitBeforeSeparator(s, m'.digitsEnd, m'.sep);
    DigitsEndUnique(s, m'.digitsEnd);
    SeparatorFurthest(s, m'.sep);
    SeparatorAtSpec(s);
    var u := SeparatorAt(s);
    SeparatorBeforeLineEnd(s, u, m'.sep + 1, m'.end);
    LineEndFrom(s, u + 1, m'.sep + 1, m'.end);
  }

  /** `Locate` finds the match `re` reports, and finds nothing exactly when the
      pattern does not match. */
  lemma LocateIsChosen(s: string)
    ensures Locate(s).Some? ==> IsChosenMatch(s, Locate(s).value)
    ensures Locate(s).None? ==> forall m :: !IsMatch(s, m)
  {
    LocateSound(s);
    forall m | IsMatch(s, m)
      ensures Locate(s).Some? && m.sep <= Locate(s).value.sep
    {
      LocateComplete(s, m);
    }
  }

  /** `x.strip() if x.strip() else None`. */
  function NonBlank(x: string): (r: Option<string>)
    ensures r.Some? <==> |Text.Strip(x)| > 0
    ensures r.Some? ==> r.value == Text.Strip(x)
  {
    if |Text.Strip(x)| > 0 then Some(Text.Strip(x)) else None
  }

  /** The dict `_split_disc_folder_name` returns: empty, or the two groups
      it keeps, each stripped and `None` when blank. */
  datatype DiscFields = NoFields | Fields(number: Option<string>, name: Option<string>)

  ghost predicate HasMatch(s: string) {
    exists m :: IsMatch(s, m)
  }

  /** A successful `Locate` means the pattern matches ... */
  lemma LocateFound(s: string, m: DiscMatch)
    requires Locate(s) == Some(m)
    ensures HasMatch(s)
  {
    LocateSound(s);
    assert IsMatch(s, m);
  }

  /** ... with a digit group of ASCII digits. */
  lemma LocateDigits(s: string, m: DiscMatch)
    requires Locate(s) == Some(m)
    ensures Text.IsDigits(s[m.digitsStart..m.digitsEnd])
  {
    DigitsEndSpec(s);
    var d := s[m.digitsStart..m.digitsEnd];
    forall i | 0 <= i < |d|
      ensures Text.IsDigit(d[i])
    {
      assert d[i] == s[m.digitsStart + i];
    }
  }

  /** A failed `Locate` means the pattern does not match. */
  lemma LocateMissed(s: string)
    requires Locate(s).None?
    ensures !HasMatch(s)
    ensures forall m :: !IsChosenMatch(s, m)
  {
    LocateIsChosen(s);
  }

  /** `_split_disc_folder_name`: nothing for an empty or missing name,
      otherwise the groups of the match `re` reports. */
  function SplitDiscFolderName(folder: Option<string>): (r: DiscFields)
    ensures r.Fields? ==> folder.Some? && Locate(folder.value).Some?
    ensures r.Fields? ==> r.number.Some? && Text.IsDigits(r.number.value)
  {
    if folder.None? || |folder.value| == 0 then NoFields
    else
      match Locate(folder.value)
      case None => NoFields
      case Some(m) =>
        var digits := folder.value[m.digitsStart..m.digitsEnd];
        LocateDigits(folder.value, m);
        Text.StripOfTrimmed(digits);
        Fields(NonBlank(digits), NonBlank(folder.value[m.sep + 1..m.end]))
  }

  /** The dict is empty exactly when the pattern does not match. */
  lemma SplitDiscFolderNameEmpty(folder: Option<string>)
    ensures SplitDiscFolderName(folder).NoFields? <==> folder.None? || !HasMatch(folder.value)
  {
    if folder.Some? {
      if Locate(folder.value).None? {
        LocateMissed(folder.value);
      } else {
        LocateFound(folder.value, Locate(folder.value).value);
      }
    }
  }

  /** The number is the digit group of the match `Locate` finds. */
  lemma SplitDiscFolderNameNumber(s: string, m: DiscMatch)
    requires Locate(s) == Some(m)
    ensures SplitDiscFolderName(Some(s)).Fields?
    ensures SplitDiscFolderName(Some(s)).number == Some(s[m.digitsStart..m.digitsEnd])
  {
    LocateDigits(s, m);
    NonBlankOfDigits(s[m.digitsStart..m.digitsEnd]);
  }

  /** A run of digits is its own strip. */
  lemma NonBlankOfDigits(d: string)
    requires |d| > 0 && Text.IsDigits(d)
    ensures NonBlank(d) == Some(d)
  {
    Text.StripOfTrimmed(d);
  }

  /** The name is the stripped text after the separator of the match
      `Locate` finds. */
  lemma SplitDiscFolderNameName(s: string, m: DiscMatch)
    requires Locate(s) == Some(m)
    ensures SplitDiscFolderName(Some(s)).Fields?
    ensures SplitDiscFolderName(Some(s)).name == NonBlank(s[m.sep + 1..m.end])
  {
    assert |s| > 0;
  }

  /** `extract_disc_name_from_folder_name`. */
  function ExtractDiscName(folder: Option<string>): Option<string> {
    match SplitDiscFolderName(folder)
    case NoFields => None
    case Fields(_, name) => name
  }

  /** `extract_disc_number_from_folder_name`. */
  function ExtractDiscNumber(folder: Option<string>): Option<nat> {
    match SplitDiscFolderName(folder)
    case NoFields => None
    case Fields(d, _) =>
      if d.Some? && Text.IsDigits(d.value) then Some(Text.DigitsValue(d.value)) else None
  }

  /** The match `re` reports is the one `Locate` finds. */
  lemma ChosenIsLocated(s: string, m: DiscMatch)
    requires IsChosenMatch(s, m)
    ensures Locate(s) == Some(m)
  {
    LocateComplete(s, m);
    LocateSound(s);
    var m0 := Locate(s).value;
    assert IsMatch(s, m0);
    assert m0.sep <= m.sep;
    assert m0 == DiscMatch(m.digitsStart, m.digitsEnd, m.sep, m.end);
  }

  /** The disc name is the stripped text after the separator of the match
      `re` reports, `None` when that text is blank. */
  lemma ExtractDiscNameOfMatch(s: string, m: DiscMatch)
    requires IsChosenMatch(s, m)
    ensures ExtractDiscName(Some(s)) == NonBlank(s[m.sep + 1..m.end])
  {
    ChosenIsLocated(s, m);
    SplitDiscFolderNameName(s, m);
  }

  /** No disc name without a match. */
  lemma ExtractDiscNameNoMatch(folder: Option<string>)
    requires folder.None? || !HasMatch(folder.value)
    ensures ExtractDiscName(folder).None?
  {
    SplitDiscFolderNameEmpty(folder);
  }

  /** There is a disc number exactly when the pattern matches ... */
  lemma ExtractDiscNumberFound(folder: Option<string>)
    ensures ExtractDiscNumber(folder).Some? <==> folder.Some? && HasMatch(folder.value)
  {
    SplitDiscFolderNameEmpty(folder);
  }

  /** ... and it is the value of the digit group of any match. */
  lemma ExtractDiscNumberOfMatch(s: string, m: DiscMatch)
    requires IsMatch(s, m)
    ensures Text.IsDigits(s[m.digitsStart..m.digitsEnd])
    ensures ExtractDiscNumber(Some(s)) == Some(Text.DigitsValue(s[m.digitsStart..m.digitsEnd]))
  {
    LocateComplete(s, m);
    NumberOfLocate(s, Locate(s).value);
  }

  // ---------------------------------------------------------------------------
  // The docstring examples of the disc-folder helpers, worked through.

  /** The extracted number, read off the match `Locate` finds. */
  lemma NumberOfLocate(s: string, m: DiscMatch)
    requires Locate(s) == Some(m)
    ensures Text.IsDigits(s[m.digitsStart..m.digitsEnd])
    ensures ExtractDiscNumber(Some(s)) == Some(Text.DigitsValue(s[m.digitsStart..m.digitsEnd]))
  {
    LocateDigits(s, m);
    SplitDiscFolderNameNumber(s, m);
  }

  /** The extracted name, read off the match `Locate` finds. */
  lemma NameOfLocate(s: string, m: DiscMatch)
    requires Locate(s) == Some(m)
    ensures ExtractDiscName(Some(s)) == NonBlank(s[m.sep + 1..m.end])
  {
    SplitDiscFolderNameName(s, m);
  }

  /** Nothing is extracted when `Locate` finds nothing. */
  lemma ExtractOfNoLocate(s: string)
    requires Locate(s).None?
    ensures ExtractDiscNumber(Some(s)).None? && ExtractDiscName(Some(s)).None?
  {
  }

  /** One space, then text with no whitespace at either end: that text is
      what stripping keeps. */
  lemma NonBlankAfterSpace(t: string)
    requires |t| >= 2 && t[0] == ' ' && !Text.IsSpace(t[1]) && !Text.IsSpace(t[|t| - 1])
    ensures NonBlank(t) == Some(t[1..])
  {
    Text.StripAfterSpace(t);
  }

  /** One space after the separator, then a name with no whitespace at
      either end: the disc name is that text. */
  lemma NameAfterSpace(s: string, m: DiscMatch)
    requires Locate(s) == Some(m)
    requires m.sep + 2 < m.end <= |s| && s[m.sep + 1] == ' '
    requires !Text.IsSpace(s[m.sep + 2]) && !Text.IsSpace(s[m.end - 1])
    ensures ExtractDiscName(Some(s)) == Some(s[m.sep + 2..m.end])
  {
    GroupAfterSpace(s, m.sep, m.end);
    NameOfLocateIs(s, m, Some(s[m.sep + 2..m.end]));
  }

  /** `NameOfLocate`, with the stripped group already known. */
  lemma NameOfLocateIs(s: string, m: DiscMatch, name: Option<string>)
    requires Locate(s) == Some(m)
    requires NonBlank(s[m.sep + 1..m.end]) == name
    ensures ExtractDiscName(Some(s)) == name
  {
    NameOfLocate(s, m);
  }

  /** The name group `s[sep + 1..e]` is one space and then text with no
      whitespace at either end. */
  lemma GroupAfterSpace(s: string, sep: nat, e: nat)
    requires sep + 2 < e <= |s| && s[sep + 1] == ' '
    requires !Text.IsSpace(s[sep + 2]) && !Text.IsSpace(s[e - 1])
    ensures NonBlank(s[sep + 1..e]) == Some(s[sep + 2..e])
  {
    var t := s[sep + 1..e];
    assert t[0] == s[sep + 1] && t[1] == s[sep + 2] && t[|t| - 1] == s[e - 1];
    NonBlankAfterSpace(t);
    assert t[1..] == s[sep + 2..e];
  }

  /** A disc name that the pattern keeps whole: no newline, and no
      whitespace at either end. */
  predicate PlainName(name: string) {
    |name| > 0 && !Text.IsSpace(name[0]) && !Text.IsSpace(name[|name| - 1])
    && forall j :: 0 <= j < |name| ==> name[j] != '\n'
  }

  /** `s` spells "cd 4 : " followed by a plain name. */
  predicate SpellsCdFour(s: string) {
    |s| > 7 && s[0] == 'c' && s[1] == 'd' && s[2] == ' ' && s[3] == '4' && s[4] == ' ' && s[5] == ':'
    && s[6] == ' ' && PlainName(s[7..])
  }

  lemma LocateCdFour(s: string)
    requires SpellsCdFour(s)
    ensures Locate(s) == Some(DiscMatch(3, 4, 5, |s|))
  {
    assert KeywordAt(s, 0, Cd);
    assert SpacesFrom(s, 0) == 0;
    assert KeywordTried(s, 0) == Cd;
    assert SpacesFrom(s, 2) == 1 by { assert SpacesFrom(s, 3) == 0; }
    assert DigitsFrom(s, 3) == 1 by { assert DigitsFrom(s, 4) == 0; }
    assert SpacesFrom(s, 4) == 1 by { assert SpacesFrom(s, 5) == 0; }
    assert DigitsStart(s) == 3;
    assert DigitsEnd(s) == 4;
    assert SeparatorAt(s) == 5;
    forall j | 6 <= j < |s|
      ensures s[j] != '\n'
    {
      if j > 6 {
        assert s[j] == s[7..][j - 7];
      }
    }
    LineEndWithoutNewline(s, 6);
  }

  lemma CdFourNumber(s: string)
    requires SpellsCdFour(s)
    ensures ExtractDiscNumber(Some(s)) == Some(4)
  {
    LocateCdFour(s);
    NumberOfLocate(s, DiscMatch(3, 4, 5, |s|));
    assert s[3..4] == ['4'];
    assert Text.DigitsValue(['4']) == 4;
  }

  lemma CdFourName(s: string)
    requires SpellsCdFour(s)
    ensures ExtractDiscName(Some(s)) == Some(s[7..])
  {
    LocateCdFour(s);
    assert s[7] == s[7..][0] && s[|s| - 1] == s[7..][|s| - 8];
    NameAfterSpace(s, DiscMatch(3, 4, 5, |s|));
    assert s[7..|s|] == s[7..];
  }

  /** "cd 4 : damn" is disc 4, named "damn"; so is "cd 4 : " followed by any
      other plain name, which is kept whole. */
  lemma ExampleCdFour(name: string)
    requires PlainName(name)
    ensures ExtractDiscNumber(Some("cd 4 : " + name)) == Some(4)
    ensures ExtractDiscName(Some("cd 4 : " + name)) == Some(name)
  {
    var s := "cd 4 : " + name;
    assert s[7..] == name;
    CdFourNumber(s);
    CdFourName(s);
  }

  /** `s` spells " 8 ". */
  predicate SpellsEight(s: string) {
    |s| == 3 && s[0] == ' ' && s[1] == '8' && s[2] == ' '
  }

  /** The separator is the trailing space, and nothing follows it. */
  lemma LocateEight(s: string)
    requires SpellsEight(s)
    ensures Locate(s) == Some(DiscMatch(1, 2, 2, 3))
  {
    assert SpacesFrom(s, 0) == 1 by { assert SpacesFrom(s, 1) == 0; }
    assert KeywordTried(s, 1) == Bare;
    assert DigitsFrom(s, 1) == 1 by { assert DigitsFrom(s, 2) == 0; }
    assert DigitsStart(s) == 1;
    assert DigitsEnd(s) == 2;
    assert SpacesFrom(s, 2) == 1 by { assert SpacesFrom(s, 3) == 0; }
    assert SeparatorAt(s) == 2;
    LineEndWithoutNewline(s, 3);
  }

  lemma EightFields(s: string)
    requires SpellsEight(s)
    ensures ExtractDiscNumber(Some(s)) == Some(8)
    ensures ExtractDiscName(Some(s)).None?
  {
    LocateEight(s);
    NumberOfLocate(s, DiscMatch(1, 2, 2, 3));
    NameOfLocate(s, DiscMatch(1, 2, 2, 3));
    assert s[1..2] == ['8'];
    assert Text.DigitsValue(['8']) == 8;
    assert s[3..3] == [];
  }

  /** " 8 " is disc 8, with no name. */
  lemma ExampleEight()
    ensures ExtractDiscNumber(Some(" 8 ")) == Some(8)
    ensures ExtractDiscName(Some(" 8 ")).None?
  {
    EightFields(" 8 ");
  }

  /** `s` spells "Disc3". */
  predicate SpellsDiscThree(s: string) {
    |s| == 5 && s[0] == 'D' && s[1] == 'i' && s[2] == 's' && s[3] == 'c' && s[4] == '3'
  }

  lemma DiscThreeFields(s: string)
    requires SpellsDiscThree(s)
    ensures ExtractDiscNumber(Some(s)).None? && ExtractDiscName(Some(s)).None?
  {
    assert SpacesFrom(s, 0) == 0;
    assert KeywordAt(s, 0, Disc);
    assert KeywordTried(s, 0) == Disc;
    assert SpacesFrom(s, 4) == 0;
    assert DigitsFrom(s, 4) == 1 by { assert DigitsFrom(s, 5) == 0; }
    assert SpacesFrom(s, 5) == 0;
    assert SeparatorAt(s) == 5;
    ExtractOfNoLocate(s);
  }

  /** "Disc3" has no separator after the number, so nothing is extracted. */
  lemma ExampleDiscThreeUnseparated()
    ensures ExtractDiscNumber(Some("Disc3")).None? && ExtractDiscName(Some("Disc3")).None?
  {
    DiscThreeFields("Disc3");
  }

  /** `s` spells "CD - huh". */
  predicate SpellsNoNumber(s: string) {
    |s| == 8 && s[0] == 'C' && s[1] == 'D' && s[2] == ' ' && s[3] == '-' && s[4] == ' '
    && s[5] == 'h' && s[6] == 'u' && s[7] == 'h'
  }

  lemma NoNumberFields(s: string)
    requires SpellsNoNumber(s)
    ensures ExtractDiscNumber(Some(s)).None? && ExtractDiscName(Some(s)).None?
  {
    assert SpacesFrom(s, 0) == 0;
    assert KeywordAt(s, 0, Cd);
    assert KeywordTried(s, 0) == Cd;
    assert SpacesFrom(s, 2) == 1 by { assert SpacesFrom(s, 3) == 0; }
    assert DigitsFrom(s, 3) == 0;
    ExtractOfNoLocate(s);
  }

  /** "CD - huh" has no number, so nothing is extracted. */
  lemma ExampleNoNumber()
    ensures ExtractDiscNumber(Some("CD - huh")).None? && ExtractDiscName(Some("CD - huh")).None?
  {
    NoNumberFields("CD - huh");
  }

  /** `s` spells "1. " followed by a plain name. */
  predicate SpellsOneDot(s: string) {
    |s| > 3 && s[0] == '1' && s[1] == '.' && s[2] == ' ' && PlainName(s[3..])
  }

  lemma LocateOneDot(s: string)
    requires SpellsOneDot(s)
    ensures Locate(s) == Some(DiscMatch(0, 1, 1, |s|))
  {
    assert SpacesFrom(s, 0) == 0;
    BareBeforeDigit(s, 0);
    assert DigitsFrom(s, 0) == 1 by { assert DigitsFrom(s, 1) == 0; }
    assert DigitsStart(s) == 0;
    assert DigitsEnd(s) == 1;
    assert SpacesFrom(s, 1) == 0;
    assert SeparatorAt(s) == 1;
    forall j | 2 <= j < |s|
      ensures s[j] != '\n'
    {
      if j > 2 {
        assert s[j] == s[3..][j - 3];
      }
    }
    LineEndWithoutNewline(s, 2);
  }

  lemma OneDotNumber(s: string)
    requires SpellsOneDot(s)
    ensures ExtractDiscNumber(Some(s)) == Some(1)
  {
    LocateOneDot(s);
    NumberOfLocate(s, DiscMatch(0, 1, 1, |s|));
    assert s[0..1] == ['1'];
    assert Text.DigitsValue(['1']) == 1;
  }

  lemma OneDotName(s: string)
    requires SpellsOneDot(s)
    ensures ExtractDiscName(Some(s)) == Some(s[3..])
  {
    LocateOneDot(s);
    assert s[3] == s[3..][0] && s[|s| - 1] == s[3..][|s| - 4];
    NameAfterSpace(s, DiscMatch(0, 1, 1, |s|));
    assert s[3..|s|] == s[3..];
  }

  /** "1. Damn son" is disc 1, named "Damn son"; so is "1. " followed by any
      other plain name. */
  lemma ExampleOneDot(name: string)
    requires PlainName(name)
    ensures ExtractDiscNumber(Some("1. " + name)) == Some(1)
    ensures ExtractDiscName(Some("1. " + name)) == Some(name)
  {
    var s := "1. " + name;
    assert s[3..] == name;
    OneDotNumber(s);
    OneDotName(s);
  }
}
