/** The parts of Python's `posixpath` that the modelled code calls, over
    paths split into their non-empty components. */
module PosixPath {
  import Text

  /** The components of a path: the pieces between slashes, empty ones
      dropped. */
  function Components(p: string): (r: seq<string>)
    ensures forall i :: 0 <= i < |r| ==> |r[i]| > 0 && '/' !in r[i]
  {
    NonEmpty(Text.Split(p, '/'))
  }

  function NonEmpty(parts: seq<string>): (r: seq<string>)
    requires forall i :: 0 <= i < |parts| ==> '/' !in parts[i]
    ensures forall i :: 0 <= i < |r| ==> |r[i]| > 0 && '/' !in r[i]
  {
    if |parts| == 0 then []
    else if |parts[0]| == 0 then NonEmpty(parts[1..])
    else [parts[0]] + NonEmpty(parts[1..])
  }

  /** Components with no `.` or `..` left, as `normpath` leaves an absolute path. */
  predicate IsNormal(parts: seq<string>) {
    forall i :: 0 <= i < |parts| ==> |parts[i]| > 0 && '/' !in parts[i] && parts[i] != "." && parts[i] != ".."
  }

  /** `normpath` on an absolute path: `.` dropped, `..` removes the component
      before it and is dropped at the root. */
  function Resolve(done: seq<string>, todo: seq<string>): (r: seq<string>)
    requires IsNormal(done)
    requires forall i :: 0 <= i < |todo| ==> |todo[i]| > 0 && '/' !in todo[i]
    ensures IsNormal(r)
    decreases |todo|
  {
    if |todo| == 0 then done
    else if todo[0] == "." then Resolve(done, todo[1..])
    else if todo[0] == ".." then Resolve(if |done| > 0 then done[..|done| - 1] else done, todo[1..])
    else Resolve(done + [todo[0]], todo[1..])
  }

  /** `abspath(normpath(p)).split('/')` with the empty pieces dropped: a
      relative `p` is taken from the working directory `cwd`. */
  function AbsParts(cwd: string, p: string): (r: seq<string>)
    ensures IsNormal(r)
  {
    var base := if |p| > 0 && p[0] == '/' then [] else Components(cwd);
    Resolve([], base + Components(p))
  }

  /** Length of the longest common prefix of two component lists. */
  function CommonPrefixLen(a: seq<string>, b: seq<string>): (n: nat)
    ensures n <= |a| && n <= |b|
    ensures a[..n] == b[..n]
    ensures n < |a| && n < |b| ==> a[n] != b[n]
  {
    if |a| == 0 || |b| == 0 || a[0] != b[0] then 0
    else
      var n := 1 + CommonPrefixLen(a[1..], b[1..]);
      assert a[..n] == [a[0]] + a[1..][..n - 1];
      assert b[..n] == [b[0]] + b[1..][..n - 1];
      n
  }

  /** `n` copies of `..`. */
  function Parents(n: nat): (r: seq<string>)
    ensures |r| == n
    ensures forall i :: 0 <= i < n ==> r[i] == ".."
  {
    seq(n, i => "..")
  }

  /** The components of `relpath(path, start)`: up from `start` to the common
      prefix, then down to `path`. */
  function RelParts(path: seq<string>, start: seq<string>): (r: seq<string>)
    requires IsNormal(path)
    ensures |r| == |start| - CommonPrefixLen(start, path) + |path| - CommonPrefixLen(start, path)
    ensures IsRelative(r)
  {
    var n := CommonPrefixLen(start, path);
    Parents(|start| - n) + path[n..]
  }

  /** Components as `relpath` produces them: non-empty, slash-free, never `.`. */
  predicate IsRelative(parts: seq<string>) {
    forall i :: 0 <= i < |parts| ==> |parts[i]| > 0 && '/' !in parts[i] && parts[i] != "."
  }

  /** `relpath` in components: the path under the start is what is left of
      it below the start. */
  lemma RelPartsBelow(start: seq<string>, tail: seq<string>)
    requires IsNormal(start + tail)
    ensures RelParts(start + tail, start) == tail
  {
    var path := start + tail;
    assert path[..|start|] == start;
    var n := CommonPrefixLen(start, path);
    assert n == |start|;
    assert path[n..] == tail;
  }

  /** `os.path.dirname` on POSIX: everything before the last '/', with the
      trailing slashes dropped unless it is all slashes. */
  function DirName(p: string): (r: string)
    ensures Text.StartsWith(p, r)
  {
    var head := p[..Text.RFind(p, '/') + 1];
    if |head| > 0 && exists i :: 0 <= i < |head| && head[i] != '/' then RStripSlashes(head) else head
  }

  /** `s.rstrip('/')`. */
  function RStripSlashes(s: string): (r: string)
    ensures Text.StartsWith(s, r)
    ensures |r| > 0 ==> r[|r| - 1] != '/'
    ensures forall i :: |r| <= i < |s| ==> s[i] == '/'
  {
    if |s| > 0 && s[|s| - 1] == '/' then RStripSlashes(s[..|s| - 1]) else s
  }

  /** `os.path.join(*parts)` of components, or "." when there are none: the
      string `relpath` returns. */
  function JoinParts(parts: seq<string>): string {
    if |parts| == 0 then "." else Text.JoinWith(parts, '/')
  }

  /** Joining one more component adds a slash and the component. */
  lemma {:induction false} JoinSnoc(parts: seq<string>, x: string)
    requires |parts| > 0
    ensures Text.JoinWith(parts + [x], '/') == Text.JoinWith(parts, '/') + "/" + x
    decreases |parts|
  {
    if |parts| == 1 {
      assert parts + [x] == [parts[0], x];
    } else {
      assert (parts + [x])[1..] == parts[1..] + [x];
      JoinSnoc(parts[1..], x);
    }
  }

  /** Joined non-empty components neither start nor end with a slash. */
  lemma {:induction false} JoinEnds(parts: seq<string>)
    requires |parts| > 0
    requires forall i :: 0 <= i < |parts| ==> |parts[i]| > 0 && '/' !in parts[i]
    ensures var j := Text.JoinWith(parts, '/'); |j| > 0 && j[0] != '/' && j[|j| - 1] != '/'
    decreases |parts|
  {
    if |parts| > 1 {
      JoinEnds(parts[1..]);
    }
  }

  /** The last slash of `a + "/" + b`, when `b` has none, is the one added. */
  lemma RFindAfterJoin(a: string, b: string)
    requires '/' !in b
    ensures Text.RFind(a + "/" + b, '/') == |a|
  {
    var p := a + "/" + b;
    NoSlashAfterJoin(a, b, p);
    Text.RFindIsLast(p, '/', |a|);
  }

  lemma NoSlashAfterJoin(a: string, b: string, p: string)
    requires '/' !in b && p == a + "/" + b
    ensures |a| < |p| && p[|a|] == '/'
    ensures forall j :: |a| < j < |p| ==> p[j] != '/'
  {
    forall j | |a| < j < |p|
      ensures p[j] != '/'
    {
      var i := j - |a| - 1;
      assert p[j] == b[i];
      assert b[i] in b;
    }
  }

  /** `dirname(relpath)`: the joined components but the last, or "" when
      there is at most one. */
  lemma DirNameOfJoin(parts: seq<string>)
    requires forall i :: 0 <= i < |parts| ==> |parts[i]| > 0 && '/' !in parts[i]
    ensures |parts| <= 1 ==> DirName(JoinParts(parts)) == ""
    ensures |parts| >= 2 ==> DirName(JoinParts(parts)) == Text.JoinWith(parts[..|parts| - 1], '/')
  {
    if |parts| == 0 {
      assert Text.RFind(".", '/') == -1;
    } else if |parts| == 1 {
      assert JoinParts(parts) == parts[0];
      assert Text.RFind(parts[0], '/') == -1;
    } else {
      var init := parts[..|parts| - 1];
      var last := parts[|parts| - 1];
      assert parts == init + [last];
      JoinSnoc(init, last);
      var a := Text.JoinWith(init, '/');
      JoinEnds(init);
      RFindAfterJoin(a, last);
      var p := a + "/" + last;
      var head := p[..|a| + 1];
      assert head == a + "/";
      assert head[0] != '/';
      assert RStripSlashes(head) == a by {
        assert head[..|head| - 1] == a;
      }
    }
  }

  /** The directory part of a relative path with two or more components is
      none of "", "." and "/". */
  lemma DirNameOfJoinIsProper(parts: seq<string>)
    requires IsRelative(parts) && |parts| >= 2
    ensures var d := DirName(JoinParts(parts)); d != "" && d != "." && d != "/"
  {
    DirNameOfJoin(parts);
    var init := parts[..|parts| - 1];
    JoinEnds(init);
    if |init| > 1 {
      JoinLength(init);
    } else {
      assert Text.JoinWith(init, '/') == init[0];
    }
  }

  /** Two or more joined components are at least three code points long. */
  lemma JoinLength(parts: seq<string>)
    requires |parts| >= 2
    requires forall i :: 0 <= i < |parts| ==> |parts[i]| > 0
    ensures |Text.JoinWith(parts, '/')| >= 3
  {
    var rest := Text.JoinWith(parts[1..], '/');
    assert Text.JoinWith(parts, '/') == parts[0] + "/" + rest;
    if |parts| == 2 {
      assert rest == parts[1];
    }
  }
}
