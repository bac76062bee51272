/**
 * The pure helpers of the file-system utilities: the file record, the hidden-file test,
 * the progress record, and the text layout that `concat_files` produces for a list of
 * selected files. Walking directories, hashing and reading files are I/O and stay
 * outside; the contents of the files are an input (`files`, a map from path to text).
 */
module FsUtils {
  import opened Wrappers
  import opened Paths

  /** One crawled file (`FileInfo`); `size` is a `u64` and `token_count` a `usize`. */
  datatype FileInfo = FileInfo(name: string, path: Path, size: nat, tokenCount: nat)

  /** The error `concat_files` propagates when a file cannot be opened or read. */
  datatype IoError = CannotRead(path: Path)

  // ---------------------------------------------------------------------------
  // is_hidden
  // ---------------------------------------------------------------------------

  /** A path is hidden when it has a file name and that name starts with a dot. */
  function IsHidden(p: Path): (r: bool)
    ensures FileName(p).None? ==> !r
    ensures r <==> |p| > 0 && IsNormal(p[|p| - 1]) && StartsWith(p[|p| - 1], ".")
  {
    match FileName(p)
    case Some(name) => |name| > 0 && name[0] == '.'
    case None => false
  }

  lemma HiddenExamples()
    ensures IsHidden(["/", "home", ".git"])
    ensures IsHidden([".env"])
    ensures !IsHidden(["/", ".config", "app.toml"])
    ensures !IsHidden(["/"]) && !IsHidden([])
    ensures !IsHidden(["src", ".."])
  {
    assert StartsWith(".git", ".");
    assert StartsWith(".env", ".");
  }

  // ---------------------------------------------------------------------------
  // ProgressState
  // ---------------------------------------------------------------------------

  /** Progress of a long-running crawl, as shown in the progress dialog. */
  class ProgressState {
    var completed: nat
    var total: nat
    var message: string

    constructor ()
      ensures completed == 0 && total == 0 && message == ""
    {
      completed, total, message := 0, 0, "";
    }

    method Update(completed: nat, total: nat, message: string)
      modifies this
      ensures this.completed == completed && this.total == total && this.message == message
    {
      this.completed := completed;
      this.total := total;
      this.message := message;
    }
  }

  // ---------------------------------------------------------------------------
  // Common parent of the selected paths (concat_files, first half)
  // ---------------------------------------------------------------------------

  /** The walk starts at the parent of the first path, or the empty path when it has none. */
  function StartParent(first: Path): (r: Path)
    ensures IsPrefix(r, first)
  {
    match Parent(first)
    case Some(p) => p
    case None => []
  }

  ghost predicate PrefixOfAll(q: Path, paths: seq<Path>) {
    forall i :: 0 <= i < |paths| ==> IsPrefix(q, paths[i])
  }

  /**
   * Climbing from `q`: stay when every path starts with `q`, otherwise move to the
   * parent of `q`, and give up with the empty path when `q` has no parent.
   */
  function Climb(q: Path, paths: seq<Path>): (r: Path)
    ensures IsPrefix(r, q)
    ensures forall i :: 0 <= i < |paths| ==> IsPrefix(r, paths[i])
    decreases |q|
  {
    if forall i :: 0 <= i < |paths| ==> IsPrefix(q, paths[i]) then q
    else match Parent(q)
      case None => []
      case Some(up) => Climb(up, paths)
  }

  /** The directory `concat_files` makes the headers relative to. */
  function CommonParentOf(paths: seq<Path>): Path {
    if |paths| == 0 then [] else Climb(StartParent(paths[0]), paths)
  }

  ghost predicate FailsSomewhere(paths: seq<Path>, q: Path) {
    exists i :: 0 <= i < |paths| && !IsPrefix(q, paths[i])
  }

  /**
   * The common parent is a prefix of every path and of the first path's parent, and it
   * is the longest such prefix: every longer prefix of the starting directory is missed by
   * some path.
   */
  lemma {:induction false} ClimbIsLongest(q: Path, paths: seq<Path>)
    requires ValidPath(q)
    ensures forall k :: |Climb(q, paths)| < k <= |q| ==> FailsSomewhere(paths, q[..k])
    decreases |q|
  {
    if forall i :: 0 <= i < |paths| ==> IsPrefix(q, paths[i]) {
    } else {
      var i :| 0 <= i < |paths| && !IsPrefix(q, paths[i]);
      assert q[..|q|] == q;
      match Parent(q)
      case None =>
        assert |q| == 1;
      case Some(up) =>
        assert ValidPath(up);
        ClimbIsLongest(up, paths);
        forall k | |Climb(up, paths)| < k <= |up|
          ensures FailsSomewhere(paths, q[..k])
        {
          assert q[..k] == up[..k];
        }
        assert FailsSomewhere(paths, q[..|q|]);
    }
  }

  lemma CommonParentProperties(paths: seq<Path>)
    ensures |paths| == 0 ==> CommonParentOf(paths) == []
    ensures PrefixOfAll(CommonParentOf(paths), paths)
    ensures |paths| > 0 ==> IsPrefix(CommonParentOf(paths), StartParent(paths[0]))
    ensures |paths| > 0 && ValidPath(paths[0]) ==>
      forall k :: |CommonParentOf(paths)| < k <= |StartParent(paths[0])| ==>
        FailsSomewhere(paths, StartParent(paths[0])[..k])
  {
    if |paths| > 0 && ValidPath(paths[0]) {
      var p0 := StartParent(paths[0]);
      assert p0 == paths[0][..|p0|];
      ClimbIsLongest(p0, paths);
    }
  }

  /** The `while !found` walk of `concat_files` over the paths. */
  method CommonParent(paths: seq<Path>) returns (parent: Path)
    ensures parent == CommonParentOf(paths)
  {
    if |paths| == 0 {
      return [];
    }
    ghost var target := CommonParentOf(paths);
    parent := StartParent(paths[0]);
    var found := false;
    while !found
      invariant Climb(parent, paths) == target
      invariant found ==> PrefixOfAll(parent, paths)
      decreases |parent|
    {
      found := true;
      ghost var before := |parent|;
      var j := 0;
      while j < |paths|
        invariant 0 <= j <= |paths|
        invariant Climb(parent, paths) == target
        invariant found ==> forall i :: 0 <= i < j ==> IsPrefix(parent, paths[i])
        invariant found ==> |parent| == before
        invariant !found ==> |parent| < before
      {
        if !IsPrefix(parent, paths[j]) {
          found := false;
          match Parent(parent) {
            case Some(up) =>
              parent := up;
            case None =>
              parent := [];
              found := true;
              break;
          }
        }
        j := j + 1;
      }
      if found {
        break;
      }
    }
  }

  // ---------------------------------------------------------------------------
  // Header and separator layout (concat_files, second half)
  // ---------------------------------------------------------------------------

  /** `path.strip_prefix(common_parent).unwrap_or(path)`. */
  function RelativePath(path: Path, commonParent: Path): Path {
    if IsPrefix(commonParent, path) then path[|commonParent|..] else path
  }

  /** "./" goes in front of a relative path unless it is rooted or already starts with "./". */
  predicate NeedsDotSlash(rel: Path) {
    !HasRoot(rel) && !StartsWith(Render(rel), "./")
  }

  /** The header line of one file, followed by a blank line. */
  function Header(rel: Path): string {
    (if NeedsDotSlash(rel) then "@@@ " + "./" else "@@@ ") + Render(rel) + " @@@\n\n"
  }

  function Block(path: Path, commonParent: Path, content: string): string {
    Header(RelativePath(path, commonParent)) + content
  }

  ghost predicate AllReadable(paths: seq<Path>, files: map<Path, string>) {
    forall i :: 0 <= i < |paths| ==> paths[i] in files
  }

  /**
   * The concatenated text: one block per file, header then content, the blocks joined
   * by a blank line and nothing after the last one.
   */
  function ConcatOutput(paths: seq<Path>, commonParent: Path, files: map<Path, string>): (r: string)
    requires AllReadable(paths, files)
    ensures |paths| == 0 ==> r == ""
    decreases |paths|
  {
    if |paths| == 0 then ""
    else
      var last := paths[|paths| - 1];
      var block := Block(last, commonParent, files[last]);
      if |paths| == 1 then block
      else ConcatOutput(paths[..|paths| - 1], commonParent, files) + "\n\n" + block
  }

  lemma ConcatStep(paths: seq<Path>, i: nat, commonParent: Path, files: map<Path, string>)
    requires i < |paths|
    requires forall k :: 0 <= k <= i ==> paths[k] in files
    ensures AllReadable(paths[..i], files) && AllReadable(paths[..i + 1], files)
    ensures ConcatOutput(paths[..i + 1], commonParent, files) ==
      ConcatOutput(paths[..i], commonParent, files) + (if i == 0 then "" else "\n\n")
      + Block(paths[i], commonParent, files[paths[i]])
  {
    assert paths[..i + 1][..i] == paths[..i];
  }

  lemma Append(a: string, b: string, c: string)
    ensures a + b + c == a + (b + c)
  {
  }

  /** `concat_files(paths)`, with the file system given as the map `files`. */
  method ConcatFiles(paths: seq<Path>, files: map<Path, string>) returns (r: Result<string, IoError>)
    ensures r.Ok? <==> AllReadable(paths, files)
    ensures r.Ok? ==> r.value == ConcatOutput(paths, CommonParentOf(paths), files)
    ensures r.Err? ==> r.error.path !in files
  {
    var commonParent := CommonParent(paths);
    var result := "";
    var first := true;
    for i := 0 to |paths|
      invariant first <==> i == 0
      invariant forall k :: 0 <= k < i ==> paths[k] in files
      invariant AllReadable(paths[..i], files)
      invariant result == ConcatOutput(paths[..i], commonParent, files)
    {
      if !first {
        result := result + "\n\n";
      }
      ghost var separated := result;
      var rel := RelativePath(paths[i], commonParent);
      ghost var header: string := "@@@ ";
      result := result + "@@@ ";
      if !HasRoot(rel) && !StartsWith(Render(rel), "./") {
        Append(separated, header, "./");
        result, header := result + "./", header + "./";
      }
      Append(separated, header, Render(rel));
      result, header := result + Render(rel), header + Render(rel);
      Append(separated, header, " @@@\n\n");
      result, header := result + " @@@\n\n", header + " @@@\n\n";
      assert header == Header(rel);
      if paths[i] !in files {
        return Err(CannotRead(paths[i]));
      }
      Append(separated, header, files[paths[i]]);
      result := result + files[paths[i]];
      ConcatStep(paths, i, commonParent, files);
      first := false;
    }
    assert paths[..|paths|] == paths;
    return Ok(result);
  }

  // ---------------------------------------------------------------------------
  // Properties of the layout
  // ---------------------------------------------------------------------------

  /** Stripping the common parent never falls back to the full path. */
  lemma StripNeverFallsBack(paths: seq<Path>, i: nat)
    requires i < |paths|
    ensures CommonParentOf(paths) + RelativePath(paths[i], CommonParentOf(paths)) == paths[i]
  {
    var cp := CommonParentOf(paths);
    assert IsPrefix(cp, paths[i]);
    assert paths[i] == paths[i][..|cp|] + paths[i][|cp|..];
  }

  /**
   * The printed path starts with "./" exactly when the relative path is not rooted: the
   * prefix is added only when missing, and a rooted path is printed from its '/'.
   */
  lemma DotSlashIffNotRooted(rel: Path)
    ensures var shown := (if NeedsDotSlash(rel) then "./" else "") + Render(rel);
      StartsWith(shown, "./") <==> !HasRoot(rel)
  {
    var shown := (if NeedsDotSlash(rel) then "./" else "") + Render(rel);
    if HasRoot(rel) {
      assert shown == "/" + JoinSlash(rel[1..]);
      assert shown[0] == '/';
    } else if NeedsDotSlash(rel) {
      assert shown[..2] == "./";
    } else {
      assert shown == Render(rel);
    }
  }

  lemma ReadableConcat(a: seq<Path>, b: seq<Path>, files: map<Path, string>)
    requires AllReadable(a, files) && AllReadable(b, files)
    ensures AllReadable(a + b, files)
  {
    var ab := a + b;
    forall i | 0 <= i < |ab| ensures ab[i] in files {
      if i < |a| { assert ab[i] == a[i]; } else { assert ab[i] == b[i - |a|]; }
    }
  }

  /** Joining two non-empty runs of blocks puts exactly one separator between them. */
  lemma {:induction false} ConcatSplit(a: seq<Path>, b: seq<Path>, commonParent: Path, files: map<Path, string>)
    requires |a| > 0 && |b| > 0
    requires AllReadable(a, files) && AllReadable(b, files)
    ensures AllReadable(a + b, files)
    ensures ConcatOutput(a + b, commonParent, files) ==
      ConcatOutput(a, commonParent, files) + "\n\n" + ConcatOutput(b, commonParent, files)
    decreases |b|
  {
    ReadableConcat(a, b, files);
    var ab := a + b;
    var last := b[|b| - 1];
    assert ab[|ab| - 1] == last;
    var block := Block(last, commonParent, files[last]);
    if |b| == 1 {
      assert ab[..|ab| - 1] == a;
    } else {
      var b' := b[..|b| - 1];
      assert ab[..|ab| - 1] == a + b';
      assert AllReadable(b', files);
      ConcatSplit(a, b', commonParent, files);
      var left := ConcatOutput(a, commonParent, files) + "\n\n";
      var middle := ConcatOutput(b', commonParent, files);
      assert ConcatOutput(ab, commonParent, files) == left + middle + "\n\n" + block;
      Append(left + middle, "\n\n", block);
      Append(left, middle, "\n\n" + block);
      Append(middle, "\n\n", block);
    }
  }

  /** The header of a file directly inside the common parent, hidden or not. */
  lemma PlainHeader(name: string)
    requires IsNormal(name) && '/' !in name
    ensures Header([name]) == "@@@ ./" + name + " @@@\n\n"
  {
    assert Render([name]) == name;
    assert |name| < 2 || name[..2] != "./" by {
      if |name| >= 2 {
        assert name[1] in name;
        assert name[..2][1] == name[1];
      }
    }
  }

  /** A hidden file such as `.env` gets the same `./` header. */
  lemma HiddenHeader()
    ensures Header([".env"]) == "@@@ ./.env @@@\n\n"
  {
    PlainHeader(".env");
  }

  /** The directory two files `/w/a.txt` and `/w/b.txt` share. */
  lemma CommonParentExample()
    ensures CommonParentOf([["/", "w", "a.txt"], ["/", "w", "b.txt"]]) == ["/", "w"]
  {
    var paths: seq<Path> := [["/", "w", "a.txt"], ["/", "w", "b.txt"]];
    assert StartParent(paths[0]) == ["/", "w"];
    assert IsPrefix(["/", "w"], paths[0]) && IsPrefix(["/", "w"], paths[1]);
  }

  /** The block of a plainly named file directly inside `/w`. */
  lemma PlainBlock(name: string, content: string)
    requires IsNormal(name) && '/' !in name
    ensures Block(["/", "w", name], ["/", "w"], content) == "@@@ ./" + name + " @@@\n\n" + content
  {
    assert RelativePath(["/", "w", name], ["/", "w"]) == [name];
    PlainHeader(name);
  }

  /** The two-file example: `a.txt` holding "X" and `b.txt` holding "Y" under `/w`. */
  lemma TwoFileExample()
    ensures ConcatOutput([["/", "w", "a.txt"], ["/", "w", "b.txt"]], ["/", "w"],
                         map[["/", "w", "a.txt"] := "X", ["/", "w", "b.txt"] := "Y"])
            == "@@@ ./a.txt @@@\n\nX" + "\n\n" + "@@@ ./b.txt @@@\n\nY"
  {
    var paths: seq<Path> := [["/", "w", "a.txt"], ["/", "w", "b.txt"]];
    var files := map[["/", "w", "a.txt"] := "X", ["/", "w", "b.txt"] := "Y"];
    PlainBlock("a.txt", "X");
    PlainBlock("b.txt", "Y");
    assert Block(paths[0], ["/", "w"], "X") == "@@@ ./a.txt @@@\n\nX";
    assert Block(paths[1], ["/", "w"], "Y") == "@@@ ./b.txt @@@\n\nY";
    assert paths[..1] == [paths[0]];
    assert ConcatOutput(paths, ["/", "w"], files) == Block(paths[0], ["/", "w"], "X") + "\n\n" + Block(paths[1], ["/", "w"], "Y");
  }
}
