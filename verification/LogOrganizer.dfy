/** helperScripts/logOrganizer.py: which files count as logs, and the moves
    `move_logs` makes into a "Logs" folder beside them. The listing of each
    folder and which paths are folders enter as parameters. */
module LogOrganizer {
  import Text

  /** The endings of log files; "cue" has no dot of its own. */
  const Extensions: seq<string> := [".log", "cue", ".m3u", ".txt", ".m3u8"]

  /** `is_file_a_log`: the lower-cased name ends with one of the endings. */
  predicate IsFileALog(fileName: string) {
    EndsWithAny(Text.Lower(fileName), Extensions)
  }

  /** A name is a log exactly when its lower-cased form has one of the
      endings. */
  lemma IsFileALogMeaning(fileName: string)
    ensures IsFileALog(fileName) <==> exists k :: 0 <= k < |Extensions| && Text.EndsWith(Text.Lower(fileName), Extensions[k])
  {
    EndsWithAnyMeaning(Text.Lower(fileName), Extensions);
  }

  predicate EndsWithAny(s: string, endings: seq<string>) {
    if |endings| == 0 then false
    else Text.EndsWith(s, endings[0]) || EndsWithAny(s, endings[1..])
  }

  lemma {:induction false} EndsWithAnyMeaning(s: string, endings: seq<string>)
    ensures EndsWithAny(s, endings) <==> exists k :: 0 <= k < |endings| && Text.EndsWith(s, endings[k])
  {
    if |endings| > 0 {
      EndsWithAnyMeaning(s, endings[1..]);
      assert forall k :: 1 <= k < |endings| ==> endings[k] == endings[1..][k - 1];
    }
  }

  /** Upper case does not matter. */
  lemma UpperCaseLog()
    ensures IsFileALog("A.LOG") && IsFileALog("b.TXT")
  {
    assert Text.Lower("A.LOG") == "a.log";
    assert Text.EndsWith("a.log", Extensions[0]);
    assert Text.Lower("b.TXT") == "b.txt";
    assert Text.EndsWith("b.txt", Extensions[3]);
  }

  /** Any name ending in "cue" is a log, with or without a dot; a FLAC file
      is not. */
  lemma CueWithoutDot()
    ensures IsFileALog("barbecue")
    ensures !IsFileALog("x.flac")
  {
    assert Text.Lower("barbecue") == "barbecue";
    assert Text.EndsWith("barbecue", Extensions[1]);
    var l := Text.Lower("x.flac");
    assert l == "x.flac";
    forall k | 0 <= k < |Extensions|
      ensures !Text.EndsWith(l, Extensions[k])
    {
      var e := Extensions[k];
      assert e[|e| - 1] != 'c' || e == "cue";
      assert l[|l| - 1] == 'c' && l[|l| - 2] == 'a';
    }
  }

  /** `shutil.move(file_path, logs_dir)` of the entry `name` of folder
      `dir`: from `dir/name` into `dir/Logs`. */
  datatype Move = Move(dir: string, name: string) {
    function Source(): string { Text.PathJoin(dir, name) }
    function Target(): string { LogsDir(dir) }
  }

  /** The folder a log of `dir` is moved to. */
  function LogsDir(dir: string): string {
    Text.PathJoin(dir, "Logs")
  }

  /** `move_logs` skips every entry of a folder named "logs" in any case. */
  predicate Skipped(dir: string) {
    IsLogsName(Text.BaseName(dir))
  }

  /** `name.lower() == "logs"`, spelled out letter by letter. */
  predicate IsLogsName(name: string) {
    && |name| == 4
    && Text.LowerChar(name[0]) == 'l' && Text.LowerChar(name[1]) == 'o'
    && Text.LowerChar(name[2]) == 'g' && Text.LowerChar(name[3]) == 's'
  }

  lemma IsLogsNameMeaning(name: string)
    ensures IsLogsName(name) <==> Text.Lower(name) == "logs"
  {
    var l := Text.Lower(name);
    if l == "logs" {
      assert l[0] == 'l' && l[1] == 'o' && l[2] == 'g' && l[3] == 's';
    }
  }

  /** The folders and files as `move_logs` sees them: the listing of each
      folder, taken before anything moves, and which paths are folders. */
  datatype Tree = Tree(listingOf: string -> seq<string>, isDir: string -> bool)

  /** Every move takes a log file to the "Logs" folder of the folder it is
      in: the entry is not a folder, and that folder is not one named
      "logs". */
  predicate GoodMove(tree: Tree, m: Move) {
    IsFileALog(m.name) && !tree.isDir(m.Source()) && !Skipped(m.dir)
  }

  predicate AllGood(tree: Tree, moves: seq<Move>) {
    forall i :: 0 <= i < |moves| ==> GoodMove(tree, moves[i])
  }

  lemma AllGoodAppend(tree: Tree, a: seq<Move>, b: seq<Move>)
    ensures AllGood(tree, a) && AllGood(tree, b) ==> AllGood(tree, a + b)
  {
    if AllGood(tree, a) && AllGood(tree, b) {
      forall i | 0 <= i < |a + b|
        ensures GoodMove(tree, (a + b)[i])
      {
        if i >= |a| {
          assert (a + b)[i] == b[i - |a|];
        }
      }
    }
  }

  /** `move_logs(dir)`: every log file of the listing, and of every
      sub-folder in turn, moves to the "Logs" folder beside it; `depth`
      bounds the recursion into sub-folders. Nothing moves out of a folder
      named "logs", and every move is a good one. */
  function MoveLogs(tree: Tree, dir: string, depth: nat): (r: seq<Move>)
    ensures Skipped(dir) ==> r == []
    ensures AllGood(tree, r)
    decreases depth, 1
  {
    if Skipped(dir) then [] else Entries(tree, dir, tree.listingOf(dir), depth)
  }

  /** The entries of the listing of `dir`, in order. */
  function Entries(tree: Tree, dir: string, items: seq<string>, depth: nat): (r: seq<Move>)
    ensures !Skipped(dir) ==> AllGood(tree, r)
    decreases depth, 0, |items|
  {
    if |items| == 0 then []
    else
      var here := Entry(tree, dir, items[0], depth);
      var rest := Entries(tree, dir, items[1..], depth);
      AllGoodAppend(tree, here, rest);
      here + rest
  }

  /** One entry of a listing: a sub-folder is walked, a log file moves,
      anything else stays. */
  function Entry(tree: Tree, dir: string, name: string, depth: nat): (r: seq<Move>)
    ensures !Skipped(dir) ==> AllGood(tree, r)
    decreases depth, 0, 0
  {
    var path := Text.PathJoin(dir, name);
    if tree.isDir(path) then (if depth == 0 then [] else MoveLogs(tree, path, depth - 1))
    else if IsFileALog(name) then
      assert Move(dir, name).Source() == path;
      [Move(dir, name)]
    else []
  }

  /** A log file directly in the folder is moved, unless the folder is
      named "logs". */
  lemma {:induction false} DirectLogMoved(tree: Tree, dir: string, items: seq<string>, depth: nat, k: nat)
    requires !Skipped(dir) && k < |items|
    requires IsFileALog(items[k]) && !tree.isDir(Text.PathJoin(dir, items[k]))
    ensures Move(dir, items[k]) in Entries(tree, dir, items, depth)
    decreases |items|
  {
    if k > 0 {
      DirectLogMoved(tree, dir, items[1..], depth, k - 1);
      assert items[1..][k - 1] == items[k];
    }
  }
}
