/** The append step of `main`, over a filesystem given as a map from path
    to contents.  A path is a key exactly when it names a readable regular
    file; writing a file replaces its value.
 */
module Effects {
  import opened Faults
  import opened Text

  type FileMap = map<string, string>

  /** The all-mode loop: for each path in order, skip it when it is not a
      file, otherwise read it and (unless dry-running) write it back with
      the line appended.  A path listed twice is read again after its first
      write, so it receives the line twice. */
  function AppendEach(paths: seq<string>, fs: FileMap, line: string, dryrun: bool): (r: FileMap)
    ensures r.Keys == fs.Keys
    ensures dryrun ==> r == fs
    ensures forall k :: k in fs ==>
              r[k] == if dryrun then fs[k] else fs[k] + Repeat(line, multiset(paths)[k])
    decreases |paths|
  {
    if |paths| == 0 then fs
    else
      var p := paths[0];
      var next := if p in fs && !dryrun then fs[p := fs[p] + line] else fs;
      var r := AppendEach(paths[1..], next, line, dryrun);
      AppendEachStep(paths, fs, line, dryrun, next, r);
      r
  }

  /** One iteration of the all-mode loop: appending to the first path and
      then handling the others appends once per listing overall. */
  lemma AppendEachStep(paths: seq<string>, fs: FileMap, line: string, dryrun: bool, next: FileMap, r: FileMap)
    requires |paths| > 0
    requires next == if paths[0] in fs && !dryrun then fs[paths[0] := fs[paths[0]] + line] else fs
    requires r.Keys == next.Keys
    requires forall k :: k in next ==>
               r[k] == if dryrun then next[k] else next[k] + Repeat(line, multiset(paths[1..])[k])
    ensures r.Keys == fs.Keys
    ensures forall k :: k in fs ==>
              r[k] == if dryrun then fs[k] else fs[k] + Repeat(line, multiset(paths)[k])
  {
    forall k | k in fs && !dryrun
      ensures r[k] == fs[k] + Repeat(line, multiset(paths)[k])
    {
      AppendEachKey(paths, line, k, fs[k], next[k], r[k]);
    }
  }

  /** The same step for one file: `before` is its contents after the first
      path was handled, `after` its contents at the end. */
  lemma AppendEachKey(paths: seq<string>, line: string, k: string, contents: string, before: string, after: string)
    requires |paths| > 0
    requires before == if k == paths[0] then contents + line else contents
    requires after == before + Repeat(line, multiset(paths[1..])[k])
    ensures after == contents + Repeat(line, multiset(paths)[k])
  {
    assert multiset(paths) == multiset{paths[0]} + multiset(paths[1..]) by {
      assert paths == [paths[0]] + paths[1..];
    }
    var n := multiset(paths[1..])[k];
    if k == paths[0] {
      assert multiset(paths)[k] == n + 1;
      assert Repeat(line, n + 1) == line + Repeat(line, n);
      assert contents + (line + Repeat(line, n)) == (contents + line) + Repeat(line, n);
    } else {
      assert multiset(paths)[k] == n;
    }
  }

  /** A file the all-mode loop does not name keeps its contents, and no
      file is created or deleted. */
  lemma AppendEachFrame(paths: seq<string>, fs: FileMap, line: string, dryrun: bool, k: string)
    requires k in fs && k !in paths
    ensures AppendEach(paths, fs, line, dryrun)[k] == fs[k]
  {
    assert multiset(paths)[k] == 0;
  }

  /** Each named file that exists receives the line exactly once per time
      it is named, appended after its old contents. */
  lemma AppendEachOnce(paths: seq<string>, fs: FileMap, line: string, k: string)
    requires k in fs && multiset(paths)[k] == 1
    ensures AppendEach(paths, fs, line, false)[k] == fs[k] + line
  {
    assert Repeat(line, 1) == line + "";
  }

  /** The single-target step: a missing file is fatal; otherwise only that
      file changes, gaining the line at its end unless dry-running. */
  function AppendOne(path: string, fs: FileMap, line: string, dryrun: bool): (r: Result<FileMap>)
    ensures r.Err? <==> path !in fs
    ensures r.Err? ==> r.fault == Unreadable(path)
    ensures r.Ok? ==> r.value.Keys == fs.Keys
    ensures r.Ok? ==> forall k :: k in fs && k != path ==> r.value[k] == fs[k]
    ensures r.Ok? ==> r.value[path] == if dryrun then fs[path] else fs[path] + line
    ensures r.Ok? && dryrun ==> r.value == fs
  {
    if path !in fs then Err(Unreadable(path))
    else if dryrun then Ok(fs)
    else Ok(fs[path := fs[path] + line])
  }
}
