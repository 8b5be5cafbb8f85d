/** The test-data file name convention of tests/offline_solve.rs: captchas
    are stored as `captcha_<solution>.jpg`, picked out of the test directory
    by their name and checked against the part of the file stem after its
    last `_`. */
module OfflineSolve {
  import opened Wrappers

  /** `sub` occurs in `s` starting at `i`. */
  predicate OccursAt(s: string, sub: string, i: int)
  {
    0 <= i && i + |sub| <= |s| && s[i..i + |sub|] == sub
  }

  /** `str::contains`, searching from the left. */
  function Contains(s: string, sub: string): (b: bool)
    ensures b <==> exists i :: OccursAt(s, sub, i)
  {
    if |sub| > |s| then
      assert forall i :: !OccursAt(s, sub, i);
      false
    else if s[..|sub|] == sub then
      assert OccursAt(s, sub, 0);
      true
    else
      var b := Contains(s[1..], sub);
      assert forall i :: OccursAt(s[1..], sub, i) <==> OccursAt(s, sub, i + 1);
      assert !OccursAt(s, sub, 0);
      assert b ==> exists i :: OccursAt(s, sub, i);
      assert (exists i :: OccursAt(s, sub, i)) ==> b by {
        if exists i :: OccursAt(s, sub, i) {
          var i :| OccursAt(s, sub, i);
          assert i != 0;
          assert OccursAt(s[1..], sub, i - 1);
        }
      }
      b
  }

  /** `str::ends_with` */
  predicate EndsWith(s: string, suffix: string)
  {
    |suffix| <= |s| && s[|s| - |suffix|..] == suffix
  }

  /** The filter of the test: the path's text contains `captcha_` and ends
      with `.jpg`. */
  predicate Selected(path: string)
  {
    Contains(path, "captcha_") && EndsWith(path, ".jpg")
  }

  /** The paths the test solves, in directory order. */
  function SelectFiles(paths: seq<string>): (selected: seq<string>)
    ensures forall p :: p in selected <==> p in paths && Selected(p)
    ensures |selected| <= |paths|
  {
    if paths == [] then []
    else (if Selected(paths[0]) then [paths[0]] else []) + SelectFiles(paths[1..])
  }

  /** What follows the last `c` in `s`, or all of `s` when it has none:
      `s.split(c).last()`. */
  function AfterLast(s: string, c: char): (r: string)
    ensures c !in r
    ensures |r| <= |s| && r == s[|s| - |r|..]
    ensures |r| < |s| ==> s[|s| - |r| - 1] == c
  {
    if s == [] then []
    else if s[|s| - 1] == c then []
    else AfterLast(s[..|s| - 1], c) + [s[|s| - 1]]
  }

  /** What follows a `c` that is not followed by another `c`. */
  lemma {:induction false} AfterLastOf(prefix: string, c: char, tail: string)
    requires c !in tail
    ensures AfterLast(prefix + [c] + tail, c) == tail
  {
    var s := prefix + [c] + tail;
    if tail == [] {
      assert s[|s| - 1] == c;
    } else {
      var init := tail[..|tail| - 1];
      assert tail[|tail| - 1] in tail;
      assert s[..|s| - 1] == prefix + [c] + init;
      assert forall x :: x in init ==> x in tail;
      AfterLastOf(prefix, c, init);
      assert tail == init + [tail[|tail| - 1]];
    }
  }

  /** `Path::file_name` of a path that `read_dir` produced: its last
      component, which is not there when that component is empty or `..`. */
  function FileName(path: string): (r: Option<string>)
    ensures r.Some? ==> r.value != [] && '/' !in r.value && EndsWith(path, r.value)
  {
    var name := AfterLast(path, '/');
    if name == [] || name == ".." then None else Some(name)
  }

  /** `Path::file_stem`: the file name without its last extension; a name
      whose only dot is its first character, or that has no dot, or that
      is `..`, is its own stem. */
  function FileStem(name: string): (stem: string)
    ensures |stem| <= |name| && stem == name[..|stem|]
    ensures stem == name || (|stem| < |name| && name[|stem|] == '.' && stem != [])
  {
    if name == ".." then name
    else
      var extension := AfterLast(name, '.');
      if |extension| == |name| then name
      else
        var before := name[..|name| - |extension| - 1];
        if before == [] then name else before
  }

  /** `r` is all of `s` after its last `c`: a suffix without `c` that is
      either the whole of `s` or preceded by `c`. */
  predicate WholeLastSegment(s: string, r: string, c: char)
  {
    EndsWith(s, r) && c !in r && (|r| == |s| || s[|s| - |r| - 1] == c)
  }

  lemma AfterLastIsLastSegment(s: string, c: char)
    ensures WholeLastSegment(s, AfterLast(s, c), c)
  {
  }

  /** The expected solution of a test file: the whole segment of its stem
      after the last `_` (all of the stem when it has none); None where the
      test would panic on `unwrap`. */
  function ExpectedSolution(path: string): (r: Option<string>)
    ensures r.None? <==> FileName(path).None?
    ensures r.Some? ==> WholeLastSegment(FileStem(FileName(path).value), r.value, '_')
  {
    match FileName(path)
    case None => None
    case Some(name) =>
      AfterLastIsLastSegment(FileStem(name), '_');
      Some(AfterLast(FileStem(name), '_'))
  }

  /** The name under which the capture tool stores a captcha with its
      solution. */
  function TestDataPath(solution: string): string
  {
    "./tests/data/captcha_" + solution + ".jpg"
  }

  /** Every stored captcha is picked up by the test. */
  lemma WrittenNameSelected(solution: string)
    ensures Selected(TestDataPath(solution))
  {
    var path := TestDataPath(solution);
    assert OccursAt(path, "captcha_", 13);
    assert path[|path| - 4..] == ".jpg";
  }

  lemma FileNameOf(directory: string, name: string)
    requires '/' !in name && name != [] && name != ".."
    ensures FileName(directory + ['/'] + name) == Some(name)
  {
    AfterLastOf(directory, '/', name);
  }

  lemma FileStemOf(stem: string, extension: string)
    requires '.' !in extension && extension != [] && stem != []
    ensures FileStem(stem + ['.'] + extension) == stem
  {
    var name := stem + ['.'] + extension;
    assert |name| >= 3;
    AfterLastOf(stem, '.', extension);
    assert name[..|name| - |extension| - 1] == stem;
  }

  /** The test reads back the solution the capture tool stored, as long as
      the solution has no `_` and no `/`. */
  lemma RoundTrip(solution: string)
    requires '_' !in solution && '/' !in solution
    ensures ExpectedSolution(TestDataPath(solution)) == Some(solution)
  {
    var stem := "captcha" + ['_'] + solution;
    var name := stem + ['.'] + "jpg";
    assert TestDataPath(solution) == "./tests/data" + ['/'] + name;
    assert '/' !in name by {
      assert forall k :: 0 <= k < |name| ==> name[k] == '/' ==> 8 <= k < 8 + |solution| && name[k] == solution[k - 8];
    }
    FileNameOf("./tests/data", name);
    FileStemOf(stem, "jpg");
    AfterLastOf("captcha", '_', solution);
  }
}
