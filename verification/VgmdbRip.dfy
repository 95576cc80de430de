/** The string decisions of Modules/VGMDB/vgmdbrip/vgmdbrip.py, the scan
    downloader: the character filter `remove`, the file name given to a
    scan, the folder scans go to, and how the login loop reads the reply
    of the forum. The network, the session file and the download pool
    are not part of this model. */
module VgmdbRip {
  import opened Wrappers
  import Text

  // ---------------------------------------------------------------------------
  // remove

  /** `remove(instring, chars)`: `str.replace(c, "")` for each character
      of `chars`, in order. */
  function Remove(s: string, chars: string): (r: string)
    ensures forall c :: c in r <==> c in s && c !in chars
    ensures |r| <= |s|
    decreases |chars|
  {
    if |chars| == 0 then s
    else
      var r := Remove(Text.RemoveChar(s, chars[0]), chars[1..]);
      assert forall c :: c in chars <==> c == chars[0] || c in chars[1..];
      r
  }

  /** The reference filter: the characters of `s` that are not in
      `chars`, in their order. */
  function Keep(s: string, chars: string): string
    decreases |s|
  {
    if |s| == 0 then "" else (if s[0] in chars then "" else [s[0]]) + Keep(s[1..], chars)
  }

  /** Filtering works piece by piece: it keeps the order of what it keeps. */
  lemma {:induction false} KeepAppend(a: string, b: string, chars: string)
    ensures Keep(a + b, chars) == Keep(a, chars) + Keep(b, chars)
    decreases |a|
  {
    if |a| == 0 {
      assert a + b == b;
    } else {
      assert (a + b)[0] == a[0] && (a + b)[1..] == a[1..] + b;
      KeepAppend(a[1..], b, chars);
    }
  }

  /** Removing one character is filtering by it. */
  lemma {:induction false} RemoveCharIsKeep(s: string, a: char)
    ensures Text.RemoveChar(s, a) == Keep(s, [a])
    decreases |s|
  {
    if |s| > 0 {
      RemoveCharIsKeep(s[1..], a);
    }
  }

  /** Filtering twice is filtering once by both sets. */
  lemma {:induction false} KeepKeep(s: string, a: string, b: string)
    ensures Keep(Keep(s, a), b) == Keep(s, a + b)
    decreases |s|
  {
    if |s| > 0 {
      var head := if s[0] in a then "" else [s[0]];
      KeepAppend(head, Keep(s[1..], a), b);
      KeepKeep(s[1..], a, b);
      assert s[0] in a + b <==> s[0] in a || s[0] in b;
    }
  }

  /** `remove` is the filter. */
  lemma {:induction false} RemoveIsKeep(s: string, chars: string)
    ensures Remove(s, chars) == Keep(s, chars)
    decreases |chars|
  {
    if |chars| > 0 {
      var t := Text.RemoveChar(s, chars[0]);
      RemoveCharIsKeep(s, chars[0]);
      RemoveIsKeep(t, chars[1..]);
      KeepKeep(s, [chars[0]], chars[1..]);
      assert [chars[0]] + chars[1..] == chars;
      calc {
        Remove(s, chars);
        Remove(t, chars[1..]);
        Keep(Keep(s, [chars[0]]), chars[1..]);
        Keep(s, chars);
      }
    } else {
      KeepNothing(s);
    }
  }

  /** A filter by nothing keeps everything. */
  lemma {:induction false} KeepNothing(s: string)
    ensures Keep(s, "") == s
    decreases |s|
  {
    if |s| > 0 {
      KeepNothing(s[1..]);
      assert s == [s[0]] + s[1..];
    }
  }

  /** Filtering what holds none of the characters keeps it whole. */
  lemma {:induction false} KeepClean(s: string, chars: string)
    requires forall i :: 0 <= i < |s| ==> s[i] !in chars
    ensures Keep(s, chars) == s
    decreases |s|
  {
    if |s| > 0 {
      assert s[0] !in chars;
      KeepClean(s[1..], chars);
      assert s == [s[0]] + s[1..];
    }
  }

  /** `remove(s, "")` is `s`, and removing the same characters again
      changes nothing. */
  lemma RemoveNothing(s: string)
    ensures Remove(s, "") == s
  {
  }

  lemma RemoveIdempotent(s: string, chars: string)
    ensures Remove(Remove(s, chars), chars) == Remove(s, chars)
  {
    var r := Remove(s, chars);
    RemoveIsKeep(r, chars);
    KeepClean(r, chars);
  }

  /** Removing from a concatenation removes from each part: the kept
      characters stay in their order. */
  lemma RemoveAppend(a: string, b: string, chars: string)
    ensures Remove(a + b, chars) == Remove(a, chars) + Remove(b, chars)
  {
    RemoveIsKeep(a + b, chars);
    RemoveIsKeep(a, chars);
    RemoveIsKeep(b, chars);
    KeepAppend(a, b, chars);
  }

  // ---------------------------------------------------------------------------
  // downloadScans

  /** The characters a scan title loses: `"`, `*`, `/`, `:`, `<`, `>`, `?`,
      backslash and `|`. */
  const TitleForbidden := "\"*/:<>?\\|"

  /** The file name of a scan: its stripped link text without the
      forbidden characters. */
  function ScanTitle(text: string): (r: string)
    ensures forall i :: 0 <= i < |TitleForbidden| ==> TitleForbidden[i] !in r
    ensures forall c :: c in r <==> c in Text.Strip(text) && c !in TitleForbidden
  {
    Remove(Text.Strip(text), TitleForbidden)
  }

  /** Scans go to a "Scans" folder below the output folder only when there
      is more than one of them. */
  function ScanFolder(outputDir: string, pictureCount: int): (r: string)
    ensures pictureCount > 1 ==> Text.BaseName(r) == "Scans" && Text.StartsWith(r, outputDir)
    ensures pictureCount <= 1 ==> r == outputDir
  {
    if pictureCount > 1 then
      assert '/' !in "Scans";
      Text.BaseNameOfJoin(outputDir, "Scans");
      JoinStartsWith(outputDir, "Scans");
      Text.PathJoin(outputDir, "Scans")
    else outputDir
  }

  lemma JoinStartsWith(a: string, b: string)
    requires |b| > 0 && b[0] != '/'
    ensures Text.StartsWith(Text.PathJoin(a, b), a)
  {
    Text.PathJoinShape(a, b);
    assert (a + Text.JoinSep(a) + b)[..|a|] == a;
  }

  // ---------------------------------------------------------------------------
  // login

  /** What the login loop does with the forum's reply. */
  datatype LoginStep = Exit | Retry | LoggedIn

  /** A reply starting "You" ends the program when its 224th character is
      '5' and asks again otherwise; one starting "Wrong" ends it; any other
      reply means the login worked. A "You" reply of 223 characters or
      fewer raises IndexError. */
  function ClassifyReply(message: string): (r: Result<LoginStep>)
    ensures r.Err? <==> Text.StartsWith(message, "You") && |message| <= 223
    ensures r.Err? ==> r.error == IndexError
    ensures r == Ok(Retry) <==> Text.StartsWith(message, "You") && |message| > 223 && message[223] != '5'
    ensures r == Ok(Exit) <==>
      || (Text.StartsWith(message, "You") && |message| > 223 && message[223] == '5')
      || (!Text.StartsWith(message, "You") && Text.StartsWith(message, "Wrong"))
    ensures r == Ok(LoggedIn) <==> !Text.StartsWith(message, "You") && !Text.StartsWith(message, "Wrong")
  {
    if Text.StartsWith(message, "You") then
      if |message| <= 223 then Err(IndexError)
      else if message[223] == '5' then Ok(Exit)
      else Ok(Retry)
    else if Text.StartsWith(message, "Wrong") then Ok(Exit)
    else Ok(LoggedIn)
  }

  /** The `while True` loop over the forum's replies to each attempt; the
      result is the step that ended it and the number of attempts made.
      Running out of replies is reported as `Aborted`. */
  function LoginAttempts(replies: seq<string>): (r: Result<(LoginStep, nat)>)
    ensures r.Ok? ==> (
      && r.value.0 != Retry && 0 < r.value.1 <= |replies|
      && ClassifyReply(replies[r.value.1 - 1]) == Ok(r.value.0)
      && forall k :: 0 <= k < r.value.1 - 1 ==> ClassifyReply(replies[k]) == Ok(Retry))
    ensures r.Err? && r.error == Aborted("no reply") ==> forall k :: 0 <= k < |replies| ==> ClassifyReply(replies[k]) == Ok(Retry)
    decreases |replies|
  {
    if |replies| == 0 then Err(Aborted("no reply"))
    else match ClassifyReply(replies[0])
      case Err(e) => Err(e)
      case Ok(Retry) =>
        var r := LoginAttempts(replies[1..]);
        assert forall k :: 1 <= k < |replies| ==> replies[k] == replies[1..][k - 1];
        if r.Ok? then Ok((r.value.0, r.value.1 + 1)) else r
      case Ok(step) => Ok((step, 1))
  }

  /** `login`: a saved session that is still logged in is used without
      asking; otherwise the loop runs. */
  function Login(configExists: bool, savedSessionLoggedIn: bool, replies: seq<string>): (r: Result<(LoginStep, nat)>)
    ensures configExists && savedSessionLoggedIn ==> r == Ok((LoggedIn, 0))
    ensures !(configExists && savedSessionLoggedIn) ==> r == LoginAttempts(replies)
  {
    if configExists && savedSessionLoggedIn then Ok((LoggedIn, 0)) else LoginAttempts(replies)
  }
}
