/**
 * The persisted settings: the list of recently opened workspaces, most recent first, at
 * most five long and without a repeated entry for the workspace just opened. Reading and
 * writing the settings file is I/O and stays outside.
 */
module Settings {
  import opened Paths

  /** How many recent workspaces are remembered. */
  const MaxRecent: nat := 5

  /** `retain(|p| p != path)`: the list without any copy of `path`, in the old order. */
  function Without(s: seq<Path>, path: Path): (r: seq<Path>)
    ensures |r| <= |s|
    ensures forall q :: q in r <==> q in s && q != path
    decreases |s|
  {
    if |s| == 0 then []
    else Without(s[..|s| - 1], path) + (if s[|s| - 1] != path then [s[|s| - 1]] else [])
  }

  /** The list after `path` is opened: it goes in front, older copies go, the tail beyond five goes. */
  function AddRecent(recent: seq<Path>, path: Path): seq<Path> {
    var moved := [path] + Without(recent, path);
    if |moved| > MaxRecent then moved[..MaxRecent] else moved
  }

  class Settings {
    var recentWorkspaces: seq<Path>

    /** `Settings::default()`: no recent workspaces. */
    constructor ()
      ensures recentWorkspaces == []
    {
      recentWorkspaces := [];
    }

    /** `add_recent_workspace`. */
    method AddRecentWorkspace(path: Path)
      modifies this
      ensures recentWorkspaces == AddRecent(old(recentWorkspaces), path)
    {
      var kept: seq<Path> := [];
      for i := 0 to |recentWorkspaces|
        invariant kept == Without(recentWorkspaces[..i], path)
      {
        assert recentWorkspaces[..i + 1][..i] == recentWorkspaces[..i];
        if recentWorkspaces[i] != path {
          kept := kept + [recentWorkspaces[i]];
        }
      }
      assert recentWorkspaces[..|recentWorkspaces|] == recentWorkspaces;
      recentWorkspaces := [path] + kept;
      if |recentWorkspaces| > MaxRecent {
        recentWorkspaces := recentWorkspaces[..MaxRecent];
      }
    }

    /** `get_recent_workspaces`: the list as it stands. */
    function GetRecentWorkspaces(): seq<Path>
      reads this
    {
      recentWorkspaces
    }
  }

  // ---------------------------------------------------------------------------
  // Properties of the list
  // ---------------------------------------------------------------------------

  predicate NoDuplicates(s: seq<Path>) {
    forall i, j :: 0 <= i < j < |s| ==> s[i] != s[j]
  }

  /** `retain` keeps the order of what it keeps, so a list without repeats keeps none. */
  lemma {:induction false} WithoutKeepsDistinct(s: seq<Path>, path: Path)
    requires NoDuplicates(s)
    ensures NoDuplicates(Without(s, path))
    decreases |s|
  {
    if |s| > 0 {
      var init := s[..|s| - 1];
      var last := s[|s| - 1];
      assert forall k :: 0 <= k < |init| ==> init[k] == s[k];
      assert NoDuplicates(init);
      WithoutKeepsDistinct(init, path);
      var w := Without(init, path);
      assert last !in init;
      assert last !in w;
      var r := Without(s, path);
      forall i, j | 0 <= i < j < |r| ensures r[i] != r[j] {
        if j < |w| {
          assert r[i] == w[i] && r[j] == w[j];
        } else {
          assert r[j] == last && r[i] == w[i];
        }
      }
    }
  }

  lemma {:induction false} WithoutAbsent(s: seq<Path>, path: Path)
    requires path !in s
    ensures Without(s, path) == s
    decreases |s|
  {
    if |s| > 0 {
      var init := s[..|s| - 1];
      assert forall k :: 0 <= k < |init| ==> init[k] == s[k];
      WithoutAbsent(init, path);
      assert s == init + [s[|s| - 1]];
    }
  }

  /**
   * The opened workspace is first and appears once; at most five entries are kept; the
   * others are the old entries other than `path`, in their old order, cut at the end.
   */
  lemma AddRecentShape(recent: seq<Path>, path: Path)
    ensures var r := AddRecent(recent, path);
      && 0 < |r| <= MaxRecent
      && r[0] == path
      && path !in r[1..]
      && |r| == (if 1 + |Without(recent, path)| > MaxRecent then MaxRecent else 1 + |Without(recent, path)|)
      && r[1..] == Without(recent, path)[..|r| - 1]
  {
    var w := Without(recent, path);
    var r := AddRecent(recent, path);
    assert r[1..] == w[..|r| - 1];
    assert path !in w;
  }

  /** Every remembered workspace was opened: it is the new one or one of the old ones. */
  lemma AddRecentFromOld(recent: seq<Path>, path: Path, q: Path)
    requires q in AddRecent(recent, path)
    ensures q == path || q in recent
  {
    AddRecentShape(recent, path);
    var r := AddRecent(recent, path);
    if q != path {
      assert q in r[1..];
      assert q in Without(recent, path);
    }
  }

  /** A list without repeats stays without repeats. */
  lemma AddRecentKeepsDistinct(recent: seq<Path>, path: Path)
    requires NoDuplicates(recent)
    ensures NoDuplicates(AddRecent(recent, path))
  {
    var w := Without(recent, path);
    WithoutKeepsDistinct(recent, path);
    AddRecentShape(recent, path);
    var r := AddRecent(recent, path);
    forall i, j | 0 <= i < j < |r| ensures r[i] != r[j] {
      if i == 0 {
        assert r[j] == r[1..][j - 1];
      } else {
        assert r[i] == w[i - 1] && r[j] == w[j - 1];
      }
    }
  }

  /** Opening the workspace that is already first changes nothing more. */
  lemma AddRecentIdempotent(recent: seq<Path>, path: Path)
    ensures AddRecent(AddRecent(recent, path), path) == AddRecent(recent, path)
  {
    var r := AddRecent(recent, path);
    AddRecentShape(recent, path);
    WithoutAbsent(r[1..], path);
    var w := Without(r, path);
    assert r == [path] + r[1..];
    WithoutFront(path, r[1..]);
    assert w == r[1..];
  }

  lemma WithoutFront(path: Path, rest: seq<Path>)
    requires Without(rest, path) == rest
    ensures Without([path] + rest, path) == rest
  {
    WithoutConcat([path], rest, path);
    assert Without([path], path) == [] by {
      assert [path][..0] == [];
    }
  }

  lemma {:induction false} WithoutConcat(a: seq<Path>, b: seq<Path>, path: Path)
    ensures Without(a + b, path) == Without(a, path) + Without(b, path)
    decreases |b|
  {
    if |b| == 0 {
      assert a + b == a;
    } else {
      assert (a + b)[..|a + b| - 1] == a + b[..|b| - 1];
      WithoutConcat(a, b[..|b| - 1], path);
    }
  }

  // ---------------------------------------------------------------------------
  // Opening several workspaces in turn
  // ---------------------------------------------------------------------------

  /** The list after opening `paths` one after the other. */
  function AddAll(recent: seq<Path>, paths: seq<Path>): seq<Path>
    decreases |paths|
  {
    if |paths| == 0 then recent
    else AddRecent(AddAll(recent, paths[..|paths| - 1]), paths[|paths| - 1])
  }

  function Reverse(s: seq<Path>): (r: seq<Path>)
    ensures |r| == |s| && forall k :: 0 <= k < |s| ==> r[k] == s[|s| - 1 - k]
    decreases |s|
  {
    if |s| == 0 then [] else [s[|s| - 1]] + Reverse(s[..|s| - 1])
  }

  /** How many of `n` opened workspaces are remembered. */
  function Kept(n: nat): nat {
    if n > MaxRecent then MaxRecent else n
  }

  /** Opening a workspace not in the remembered front of `older` extends that front by one. */
  lemma AddFresh(older: seq<Path>, path: Path)
    requires path !in older[..Kept(|older|)]
    ensures AddRecent(older[..Kept(|older|)], path) == ([path] + older)[..Kept(|older| + 1)]
  {
    var front := older[..Kept(|older|)];
    WithoutAbsent(front, path);
    assert ([path] + front)[..Kept(|older| + 1)] == ([path] + older)[..Kept(|older| + 1)];
  }

  /** Opening distinct workspaces in turn remembers the last five, most recent first. */
  lemma {:induction false} AddDistinctInTurn(paths: seq<Path>)
    requires NoDuplicates(paths)
    ensures AddAll([], paths) == Reverse(paths)[..Kept(|paths|)]
    decreases |paths|
  {
    if |paths| > 0 {
      var init := paths[..|paths| - 1];
      var last := paths[|paths| - 1];
      assert NoDuplicates(init);
      AddDistinctInTurn(init);
      var older := Reverse(init);
      assert last !in older by {
        forall k | 0 <= k < |older| ensures older[k] != last {
          assert older[k] == paths[|init| - 1 - k];
        }
      }
      AddFresh(older, last);
      assert Reverse(paths) == [last] + older;
    }
  }

  /** Opening the same workspace three times leaves just that workspace. */
  lemma SamePathThrice(path: Path)
    ensures AddAll([], [path, path, path]) == [path]
  {
    var one := AddRecent([], path);
    assert Without([], path) == [];
    assert one == [path];
    assert AddAll([], [path]) == one by {
      assert [path][..0] == [];
    }
    assert AddAll([], [path, path]) == AddRecent(one, path) by {
      assert [path, path][..1] == [path];
    }
    AddRecentIdempotent([], path);
    assert AddAll([], [path, path, path]) == AddRecent(one, path) by {
      assert [path, path, path][..2] == [path, path];
    }
  }

  /** The ten workspaces `/path/0` to `/path/9` opened in turn: five remain, `/path/9` to `/path/5`. */
  lemma TenWorkspaces()
    ensures var paths := seq(10, i requires 0 <= i < 10 => ["/", "path", [(48 + i) as char]]);
      var r := AddAll([], paths);
      |r| == 5 && r[0] == ["/", "path", "9"] && r[4] == ["/", "path", "5"]
  {
    var paths := seq(10, i requires 0 <= i < 10 => ["/", "path", [(48 + i) as char]]);
    assert NoDuplicates(paths) by {
      forall i, j | 0 <= i < j < |paths| ensures paths[i] != paths[j] {
        assert paths[i][2][0] != paths[j][2][0];
      }
    }
    AddDistinctInTurn(paths);
  }
}
