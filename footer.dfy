/**
 * The footer's token total: the token counts of the crawled files whose path is selected,
 * added up, and the warning shown once that total passes the 32k context limit.
 */
module Footer {
  import opened Paths
  import opened FsUtils

  /** The context size the footer warns about. */
  const TokenLimit: nat := 32000

  /** The sum of `token_count` over the files whose path is in `selected`. */
  function TotalTokens(files: seq<FileInfo>, selected: set<Path>): nat
    decreases |files|
  {
    if |files| == 0 then 0
    else (if files[0].path in selected then files[0].tokenCount else 0) + TotalTokens(files[1..], selected)
  }

  /** The sum of `token_count` over every file. */
  function AllTokens(files: seq<FileInfo>): nat
    decreases |files|
  {
    if |files| == 0 then 0 else files[0].tokenCount + AllTokens(files[1..])
  }

  /** The footer turns red when the total is strictly above the limit. */
  predicate IsOverLimit(total: nat) {
    total > TokenLimit
  }

  // ---------------------------------------------------------------------------
  // Properties of the total
  // ---------------------------------------------------------------------------

  lemma {:induction false} NothingSelected(files: seq<FileInfo>)
    ensures TotalTokens(files, {}) == 0
    decreases |files|
  {
    if |files| > 0 {
      NothingSelected(files[1..]);
    }
  }

  /** With every file selected the footer shows the tokens of the whole crawl. */
  lemma {:induction false} EverythingSelected(files: seq<FileInfo>, selected: set<Path>)
    requires forall i :: 0 <= i < |files| ==> files[i].path in selected
    ensures TotalTokens(files, selected) == AllTokens(files)
    decreases |files|
  {
    if |files| > 0 {
      EverythingSelected(files[1..], selected);
    }
  }

  /** The total over a list is the total over its two parts. */
  lemma {:induction false} TotalConcat(a: seq<FileInfo>, b: seq<FileInfo>, selected: set<Path>)
    ensures TotalTokens(a + b, selected) == TotalTokens(a, selected) + TotalTokens(b, selected)
    decreases |a|
  {
    if |a| == 0 {
      assert a + b == b;
    } else {
      assert (a + b)[1..] == a[1..] + b;
      TotalConcat(a[1..], b, selected);
    }
  }

  /** Selecting more never lowers the total, and it never exceeds the tokens of the whole crawl. */
  lemma {:induction false} TotalMonotone(files: seq<FileInfo>, smaller: set<Path>, larger: set<Path>)
    requires smaller <= larger
    ensures TotalTokens(files, smaller) <= TotalTokens(files, larger) <= AllTokens(files)
    decreases |files|
  {
    if |files| > 0 {
      TotalMonotone(files[1..], smaller, larger);
    }
  }

  /**
   * Totals of two selections add up like the selections do: what the union counts plus
   * what the overlap counts equals the two totals together. For disjoint selections the
   * total of the union is the sum.
   */
  lemma {:induction false} TotalInclusionExclusion(files: seq<FileInfo>, s1: set<Path>, s2: set<Path>)
    ensures TotalTokens(files, s1 + s2) + TotalTokens(files, s1 * s2) ==
      TotalTokens(files, s1) + TotalTokens(files, s2)
    decreases |files|
  {
    if |files| > 0 {
      TotalInclusionExclusion(files[1..], s1, s2);
    }
  }

  /** Checking one more file adds its own count for each time it is listed, and nothing else. */
  lemma SelectingOneFile(files: seq<FileInfo>, selected: set<Path>, p: Path)
    requires p !in selected
    ensures TotalTokens(files, selected + {p}) == TotalTokens(files, selected) + TotalTokens(files, {p})
  {
    TotalInclusionExclusion(files, selected, {p});
    assert selected * {p} == {};
    NothingSelected(files);
  }

  /** Three files of 10, 20 and 30 tokens with the first two selected: 30 tokens, under the limit. */
  lemma FooterExample()
    ensures var files := [
        FileInfo("file1.txt", ["/", "test", "file1.txt"], 100, 10),
        FileInfo("file2.txt", ["/", "test", "file2.txt"], 200, 20),
        FileInfo("file3.txt", ["/", "test", "file3.txt"], 300, 30)];
      var selected := {["/", "test", "file1.txt"], ["/", "test", "file2.txt"]};
      TotalTokens(files, selected) == 30 && !IsOverLimit(TotalTokens(files, selected))
  {
    var files := [
        FileInfo("file1.txt", ["/", "test", "file1.txt"], 100, 10),
        FileInfo("file2.txt", ["/", "test", "file2.txt"], 200, 20),
        FileInfo("file3.txt", ["/", "test", "file3.txt"], 300, 30)];
    var selected := {["/", "test", "file1.txt"], ["/", "test", "file2.txt"]};
    assert files[2].path !in selected by {
      assert files[2].path[2] != ["/", "test", "file1.txt"][2];
      assert files[2].path[2] != ["/", "test", "file2.txt"][2];
    }
    assert files[1..][1..][1..] == [];
  }

  lemma LimitExamples()
    ensures !IsOverLimit(32000) && IsOverLimit(32001)
  {
  }
}
