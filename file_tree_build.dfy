/**
 * `build_tree_from_file_info`: sort the crawled files by path, then walk each path's
 * components from the roots down, reusing or creating one folder node per directory
 * component and appending one file node for the last component. Ids come from a single
 * counter in creation order.
 *
 * The walk holds a mutable cursor into the nested child vectors; here it is the recursive
 * function `InsertComponents`, which returns the rebuilt level and the advanced counter.
 */
module FileTreeBuild {
  import opened Wrappers
  import opened Paths
  import opened FsUtils
  import opened FileTreeNodes

  // ---------------------------------------------------------------------------
  // sort_by_key(|f| f.path.clone()), a stable sort
  // ---------------------------------------------------------------------------

  ghost predicate SortedByPath(s: seq<FileInfo>) {
    forall i, j :: 0 <= i < j < |s| ==> !PathLess(s[j].path, s[i].path)
  }

  /** Insert `x` after every element whose path is not greater than its own. */
  function InsertByPath(sorted: seq<FileInfo>, x: FileInfo): seq<FileInfo>
    decreases |sorted|
  {
    if |sorted| == 0 then [x]
    else if PathLess(x.path, sorted[|sorted| - 1].path) then
      InsertByPath(sorted[..|sorted| - 1], x) + [sorted[|sorted| - 1]]
    else sorted + [x]
  }

  function SortByPath(files: seq<FileInfo>): seq<FileInfo>
    decreases |files|
  {
    if |files| == 0 then [] else InsertByPath(SortByPath(files[..|files| - 1]), files[|files| - 1])
  }

  lemma {:induction false} InsertByPathCorrect(sorted: seq<FileInfo>, x: FileInfo)
    requires SortedByPath(sorted)
    ensures SortedByPath(InsertByPath(sorted, x))
    ensures multiset(InsertByPath(sorted, x)) == multiset(sorted) + multiset{x}
    decreases |sorted|
  {
    if |sorted| > 0 {
      var last := sorted[|sorted| - 1];
      var init := sorted[..|sorted| - 1];
      assert sorted == init + [last];
      if PathLess(x.path, last.path) {
        assert SortedByPath(init);
        InsertByPathCorrect(init, x);
        var r := InsertByPath(init, x);
        assert !PathLess(last.path, x.path) by {
          if PathLess(last.path, x.path) {
            PathLessTransitive(x.path, last.path, x.path);
            PathLessIrreflexive(x.path);
          }
        }
        forall e | e in r ensures !PathLess(last.path, e.path) {
          assert e in multiset(r);
          if e != x {
            assert e in multiset(init);
            var k :| 0 <= k < |init| && init[k] == e;
            assert sorted[k] == e;
          }
        }
        var r' := r + [last];
        assert InsertByPath(sorted, x) == r';
        forall i, j | 0 <= i < j < |r'| ensures !PathLess(r'[j].path, r'[i].path) {
          if j == |r'| - 1 {
            assert r'[i] in r;
          } else {
            assert r'[i] == r[i] && r'[j] == r[j];
          }
        }
      } else {
        forall i | 0 <= i < |sorted| ensures !PathLess(x.path, sorted[i].path) {
          if PathLess(x.path, sorted[i].path) && i < |sorted| - 1 {
            assert !PathLess(last.path, sorted[i].path);
            if last.path != sorted[i].path {
              PathLessTotal(last.path, sorted[i].path);
              PathLessTransitive(x.path, sorted[i].path, last.path);
            }
          }
        }
        var r' := sorted + [x];
        assert InsertByPath(sorted, x) == r';
        forall i, j | 0 <= i < j < |r'| ensures !PathLess(r'[j].path, r'[i].path) {
          if j < |sorted| {
            assert r'[i] == sorted[i] && r'[j] == sorted[j];
          }
        }
      }
    }
  }

  /** The sorted copy is ordered by path and holds exactly the input files. */
  lemma {:induction false} SortByPathCorrect(files: seq<FileInfo>)
    ensures SortedByPath(SortByPath(files))
    ensures multiset(SortByPath(files)) == multiset(files)
    decreases |files|
  {
    if |files| > 0 {
      var init := files[..|files| - 1];
      SortByPathCorrect(init);
      InsertByPathCorrect(SortByPath(init), files[|files| - 1]);
      assert files == init + [files[|files| - 1]];
    }
  }

  // ---------------------------------------------------------------------------
  // find_or_create_blueprint_node
  // ---------------------------------------------------------------------------

  predicate Matches(c: Node, name: string, nodeType: TreeNodeType) {
    c.name == name && c.nodeType == nodeType
  }

  /** `children.iter().position(..)`: the first child with the given name and type. */
  function Position(children: seq<Node>, name: string, nodeType: TreeNodeType): (r: Option<nat>)
    ensures r.Some? ==> r.value < |children|
    decreases |children|
  {
    if |children| == 0 then None
    else if Matches(children[0], name, nodeType) then Some(0)
    else match Position(children[1..], name, nodeType)
      case None => None
      case Some(k) => Some(k + 1)
  }

  lemma {:induction false} PositionIsFirstMatch(children: seq<Node>, name: string, nodeType: TreeNodeType)
    ensures var r := Position(children, name, nodeType);
      && (r.Some? ==> Matches(children[r.value], name, nodeType))
      && (r.Some? ==> forall k :: 0 <= k < r.value ==> !Matches(children[k], name, nodeType))
      && (r.None? <==> forall k :: 0 <= k < |children| ==> !Matches(children[k], name, nodeType))
    decreases |children|
  {
    if |children| > 0 && !Matches(children[0], name, nodeType) {
      PositionIsFirstMatch(children[1..], name, nodeType);
      assert forall k :: 1 <= k < |children| ==> children[k] == children[1..][k - 1];
    }
  }

  /** The node `find_or_create_blueprint_node` pushes when no child matches. */
  function NewNode(id: nat, name: string, fullPath: Path, nodeType: TreeNodeType, depth: nat, isRootFolder: bool): Node {
    Node(id, name, fullPath, nodeType, [], if depth == 0 then true else isRootFolder, NotSelected, depth)
  }

  /** The children after the call, the index of the returned node, and the counter. */
  datatype Found = Found(children: seq<Node>, pos: nat, counter: nat)

  function FindOrCreateBlueprintNode(children: seq<Node>, name: string, fullPath: Path,
                                     nodeType: TreeNodeType, counter: nat, depth: nat,
                                     isRootFolder: bool): (r: Found)
    ensures r.pos < |r.children|
  {
    match Position(children, name, nodeType)
    case Some(pos) => Found(children, pos, counter)
    case None =>
      Found(children + [NewNode(counter, name, fullPath, nodeType, depth, isRootFolder)], |children|, counter + 1)
  }

  /**
   * The returned node is the first child of that name and type; when there is one, nothing
   * changes, and otherwise a fresh node with the next id is pushed at the end.
   */
  lemma FindOrCreateSpec(children: seq<Node>, name: string, fullPath: Path,
                         nodeType: TreeNodeType, counter: nat, depth: nat, isRootFolder: bool)
    ensures var r := FindOrCreateBlueprintNode(children, name, fullPath, nodeType, counter, depth, isRootFolder);
      && Matches(r.children[r.pos], name, nodeType)
      && (forall k :: 0 <= k < r.pos ==> !Matches(r.children[k], name, nodeType))
      && |children| <= |r.children| && r.children[..|children|] == children
      && r.pos <= |children|
      && (r.pos < |children| ==> r.children == children && r.counter == counter)
      && (r.pos == |children| ==>
          r.children == children + [NewNode(counter, name, fullPath, nodeType, depth, isRootFolder)] &&
          r.counter == counter + 1)
  {
    PositionIsFirstMatch(children, name, nodeType);
    var node := NewNode(counter, name, fullPath, nodeType, depth, isRootFolder);
    assert (children + [node])[..|children|] == children;
  }

  // ---------------------------------------------------------------------------
  // The component walk for one file, and the whole build
  // ---------------------------------------------------------------------------

  /** The file node pushed for the last component. */
  function FileNode(info: FileInfo, id: nat, depth: nat, selected: set<Path>): Node {
    Node(id, info.name, info.path, File, [], false,
         if info.path in selected then Selected else NotSelected, depth)
  }

  /** `.any(|n| n.path == *path && n.node_type == TreeNodeType::File)`. */
  predicate HasFileAt(level: seq<Node>, p: Path) {
    exists k :: 0 <= k < |level| && level[k].path == p && level[k].nodeType == File
  }

  /** A level of the tree after a walk, and the id counter. */
  datatype Placed = Placed(level: seq<Node>, counter: nat)

  /** The walk for `info` from component `idx` on, `level` being the current child list. */
  function InsertComponents(level: seq<Node>, info: FileInfo, idx: nat, counter: nat, selected: set<Path>): Placed
    requires idx < |info.path|
    decreases |info.path| - idx
  {
    if idx == |info.path| - 1 then
      if HasFileAt(level, info.path) then Placed(level, counter)
      else Placed(level + [FileNode(info, counter, idx, selected)], counter + 1)
    else
      var f := FindOrCreateBlueprintNode(level, info.path[idx], info.path[..idx + 1], Folder,
                                         counter, idx, idx == 0);
      var folder := f.children[f.pos];
      var below := InsertComponents(folder.children, info, idx + 1, f.counter, selected);
      Placed(f.children[f.pos := folder.(children := below.level)], below.counter)
  }

  /** The outer loop over already sorted files; a path without components adds nothing. */
  function BuildFrom(sorted: seq<FileInfo>, selected: set<Path>): Placed
    decreases |sorted|
  {
    if |sorted| == 0 then Placed([], 0)
    else
      var prev := BuildFrom(sorted[..|sorted| - 1], selected);
      var info := sorted[|sorted| - 1];
      if |info.path| == 0 then prev
      else InsertComponents(prev.level, info, 0, prev.counter, selected)
  }

  /** The roots `build_tree_from_file_info` returns. */
  function BuildTree(files: seq<FileInfo>, selected: set<Path>): seq<Node> {
    BuildFrom(SortByPath(files), selected).level
  }

  method BuildTreeFromFileInfo(files: seq<FileInfo>, selected: set<Path>) returns (roots: seq<Node>)
    ensures roots == BuildTree(files, selected)
  {
    if |files| == 0 {
      return [];
    }
    var sortedFiles := SortByPath(files);
    roots := [];
    var uniqueIdCounter := 0;
    for i := 0 to |sortedFiles|
      invariant Placed(roots, uniqueIdCounter) == BuildFrom(sortedFiles[..i], selected)
    {
      var info := sortedFiles[i];
      assert sortedFiles[..i + 1][..i] == sortedFiles[..i];
      if |info.path| > 0 {
        var placed := InsertComponents(roots, info, 0, uniqueIdCounter, selected);
        roots, uniqueIdCounter := placed.level, placed.counter;
      }
    }
    assert sortedFiles[..|sortedFiles|] == sortedFiles;
  }

  // ---------------------------------------------------------------------------
  // Ids: the counter hands out 0, 1, 2, ... and each node gets one
  // ---------------------------------------------------------------------------

  function Range(lo: nat, hi: nat): seq<nat>
    decreases hi
  {
    if hi <= lo then [] else Range(lo, hi - 1) + [hi - 1]
  }

  lemma {:induction false} RangeConcat(lo: nat, mid: nat, hi: nat)
    requires lo <= mid <= hi
    ensures Range(lo, mid) + Range(mid, hi) == Range(lo, hi)
    decreases hi
  {
    if mid < hi {
      RangeConcat(lo, mid, hi - 1);
    }
  }

  lemma {:induction false} RangeCount(lo: nat, hi: nat, x: nat)
    ensures multiset(Range(lo, hi))[x] == if lo <= x < hi then 1 else 0
    decreases hi
  {
    if lo < hi {
      RangeCount(lo, hi - 1, x);
      assert Range(lo, hi) == Range(lo, hi - 1) + [hi - 1];
      assert multiset(Range(lo, hi)) == multiset(Range(lo, hi - 1)) + multiset([hi - 1]);
    } else {
      assert Range(lo, hi) == [];
    }
  }

  /** Cancelling a common part from both sides of a multiset equation. */
  lemma Cancel<T>(a': multiset<T>, a: multiset<T>, b: multiset<T>, added: multiset<T>)
    requires a' + b == a + (b + added)
    ensures a' == a + added
  {
    forall x ensures a'[x] == (a + added)[x] {
      assert (a' + b)[x] == (a + (b + added))[x];
    }
  }

  /**
   * The folder step of the walk for ids: the folder found or created for `name` gets the
   * children `kids`, which hold the ids `f.counter .. c2 - 1` on top of the old ones.
   */
  lemma FolderStepIds(level: seq<Node>, name: string, fullPath: Path, counter: nat, depth: nat,
                      isRootFolder: bool, kids: seq<Node>, c2: nat)
    requires var f := FindOrCreateBlueprintNode(level, name, fullPath, Folder, counter, depth, isRootFolder);
      IdsGrow(f.children[f.pos].children, f.counter, Placed(kids, c2))
    ensures var f := FindOrCreateBlueprintNode(level, name, fullPath, Folder, counter, depth, isRootFolder);
      IdsGrow(level, counter, Placed(f.children[f.pos := f.children[f.pos].(children := kids)], c2))
  {
    FindOrCreateSpec(level, name, fullPath, Folder, counter, depth, isRootFolder);
    var f := FindOrCreateBlueprintNode(level, name, fullPath, Folder, counter, depth, isRootFolder);
    var added := multiset(Range(f.counter, c2));
    ReplaceIds(f.children, f.pos, kids, added);
    FoundIds(level, f, counter);
    RangeConcat(counter, f.counter, c2);
    var fl := multiset(ForestIds(level));
    var early := multiset(Range(counter, f.counter));
    assert (fl + early) + added == fl + (early + added);
  }

  /** Before the folder's children change, the found-or-created list adds `counter .. f.counter - 1`. */
  lemma FoundIds(level: seq<Node>, f: Found, counter: nat)
    requires f.pos <= |level| && f.pos < |f.children|
    requires f.pos < |level| ==> f.children == level && f.counter == counter
    requires f.pos == |level| ==>
      f.children == level + [f.children[f.pos]] && f.children[f.pos].children == [] &&
      f.children[f.pos].id == counter && f.counter == counter + 1
    ensures counter <= f.counter
    ensures ForestIds(f.children) == ForestIds(level) + Range(counter, f.counter)
  {
    if f.pos < |level| {
      assert Range(counter, counter) == [];
      assert ForestIds(level) + [] == ForestIds(level);
    } else {
      PushEmptyIds(level, f.children[f.pos]);
      assert Range(counter, counter + 1) == [counter];
    }
  }

  lemma ReplaceIds(s: seq<Node>, pos: nat, kids: seq<Node>, added: multiset<nat>)
    requires pos < |s|
    requires multiset(ForestIds(kids)) == multiset(ForestIds(s[pos].children)) + added
    ensures multiset(ForestIds(s[pos := s[pos].(children := kids)])) == multiset(ForestIds(s)) + added
  {
    var x := s[pos].(children := kids);
    assert multiset(Ids(x)) == multiset(Ids(s[pos])) + added;
    ForestIdsReplace(s, pos, x);
    Cancel(multiset(ForestIds(s[pos := x])), multiset(ForestIds(s)), multiset(Ids(s[pos])), added);
  }

  lemma PushEmptyIds(level: seq<Node>, folder: Node)
    requires folder.children == []
    ensures ForestIds(level + [folder]) == ForestIds(level) + [folder.id]
  {
    ForestIdsConcat(level, [folder]);
    ForestIdsSingle(folder);
    assert Ids(folder) == [folder.id];
  }

  /** `after` holds the ids of `before` and, on top, exactly those the counter handed out since `counter`. */
  ghost predicate IdsGrow(before: seq<Node>, counter: nat, after: Placed) {
    counter <= after.counter &&
    multiset(ForestIds(after.level)) == multiset(ForestIds(before)) + multiset(Range(counter, after.counter))
  }

  lemma InsertIds(level: seq<Node>, info: FileInfo, idx: nat, counter: nat, selected: set<Path>)
    requires idx < |info.path|
    ensures var r := InsertComponents(level, info, idx, counter, selected);
      IdsGrow(level, counter, r)
    decreases |info.path| - idx
  {
    if idx == |info.path| - 1 {
      FileStepIds(level, info, counter, selected);
    } else {
      var c := info.path;
      var f := FindOrCreateBlueprintNode(level, c[idx], c[..idx + 1], Folder, counter, idx, idx == 0);
      var below := InsertComponents(f.children[f.pos].children, info, idx + 1, f.counter, selected);
      InsertIds(f.children[f.pos].children, info, idx + 1, f.counter, selected);
      FolderStepIds(level, c[idx], c[..idx + 1], counter, idx, idx == 0, below.level, below.counter);
    }
  }

  /**
   * The last component: a new file node takes the counter's id exactly when no file node of
   * that path is on the level; otherwise the level and the counter stay as they are.
   */
  lemma FileStepIds(level: seq<Node>, info: FileInfo, counter: nat, selected: set<Path>)
    requires |info.path| > 0
    ensures var r := InsertComponents(level, info, |info.path| - 1, counter, selected);
      && IdsGrow(level, counter, r)
      && r.counter == (if HasFileAt(level, info.path) then counter else counter + 1)
      && (HasFileAt(level, info.path) ==> r.level == level)
      && (!HasFileAt(level, info.path) ==> r.level == level + [FileNode(info, counter, |info.path| - 1, selected)])
  {
    if !HasFileAt(level, info.path) {
      var node := FileNode(info, counter, |info.path| - 1, selected);
      ForestIdsSingle(node);
      ForestIdsConcat(level, [node]);
      assert Range(counter, counter + 1) == [counter];
    } else {
      assert Range(counter, counter) == [];
    }
  }

  // ---------------------------------------------------------------------------
  // Well-formedness of a built tree
  // ---------------------------------------------------------------------------

  /** Two siblings that the walk would have merged: folders of one name, or files of one path. */
  predicate SameSibling(a: Node, b: Node) {
    a.nodeType == b.nodeType && (if a.nodeType == Folder then a.name == b.name else a.path == b.path)
  }

  /**
   * A node at `depth` under the directory `parent`. A file node has the input path, no
   * children, is collapsed, and is Selected exactly when its path is in `selected`. A folder
   * node's path is its parent's path plus its name, it is expanded exactly at depth 0, it
   * starts NotSelected, and it holds at least one node.
   */
  ghost predicate WFNode(n: Node, parent: Path, depth: nat, selected: set<Path>)
    decreases n, 1
  {
    && |parent| == depth
    && n.depth == depth
    && match n.nodeType
       case File =>
         && n.children == []
         && !n.isExpanded
         && |n.path| == depth + 1
         && n.path[..depth] == parent
         && n.selectionState == (if n.path in selected then Selected else NotSelected)
       case Folder =>
         && n.path == parent + [n.name]
         && n.isExpanded == (depth == 0)
         && n.selectionState == NotSelected
         && |n.children| > 0
         && WFLevel(n.children, n.path, depth + 1, selected)
  }

  ghost predicate WFLevel(ns: seq<Node>, parent: Path, depth: nat, selected: set<Path>)
    decreases ns, 0
  {
    && (forall k :: 0 <= k < |ns| ==> WFNode(ns[k], parent, depth, selected))
    && (forall i, j :: 0 <= i < j < |ns| ==> !SameSibling(ns[i], ns[j]))
  }

  /** Every file below a well-formed node lies under the node's path. */
  lemma {:induction false} FileListShape(n: Node, parent: Path, depth: nat, selected: set<Path>, p: Path)
    requires WFNode(n, parent, depth, selected)
    requires p in FileList(n)
    ensures |n.path| == depth + 1 && IsPrefix(n.path, p)
    ensures n.nodeType == File ==> p == n.path
    ensures n.nodeType == Folder ==> |p| > depth + 1
    decreases n
  {
    if n.nodeType == Folder {
      InForestFileList(n.children, p);
      var k :| 0 <= k < |n.children| && p in FileList(n.children[k]);
      var c := n.children[k];
      FileListShape(c, n.path, depth + 1, selected, p);
      assert c.path[..depth + 1] == n.path;
      assert p[..depth + 1] == c.path[..depth + 2][..depth + 1];
    }
  }

  /** At the last component, the duplicate check sees every copy of the path in the subtree. */
  lemma LastComponentLookup(level: seq<Node>, c: Path, selected: set<Path>)
    requires |c| > 0 && WFLevel(level, c[..|c| - 1], |c| - 1, selected)
    ensures HasFileAt(level, c) <==> c in ForestFileList(level)
  {
    InForestFileList(level, c);
    if c in ForestFileList(level) {
      var k :| 0 <= k < |level| && c in FileList(level[k]);
      FileListShape(level[k], c[..|c| - 1], |c| - 1, selected, c);
    }
    if HasFileAt(level, c) {
      var k :| 0 <= k < |level| && level[k].path == c && level[k].nodeType == File;
      assert FileList(level[k]) == [c];
    }
  }

  /**
   * Above the last component, a path can only be found inside the folder named by its
   * component at this depth.
   */
  lemma InnerComponentLookup(level: seq<Node>, c: Path, idx: nat, selected: set<Path>, k: nat)
    requires idx < |c| - 1 && WFLevel(level, c[..idx], idx, selected)
    requires k < |level| && !(level[k].nodeType == Folder && level[k].name == c[idx])
    ensures c !in FileList(level[k])
  {
    if c in FileList(level[k]) {
      FileListShape(level[k], c[..idx], idx, selected, c);
    }
  }

  lemma InnerLevelLookup(level: seq<Node>, c: Path, idx: nat, selected: set<Path>, pos: nat)
    requires idx < |c| - 1 && WFLevel(level, c[..idx], idx, selected)
    requires pos <= |level|
    requires pos < |level| ==> level[pos].nodeType == Folder && level[pos].name == c[idx]
    requires forall k :: 0 <= k < |level| && k != pos ==> !(level[k].nodeType == Folder && level[k].name == c[idx])
    ensures c in ForestFileList(level) <==> pos < |level| && c in FileList(level[pos])
  {
    InForestFileList(level, c);
    forall k | 0 <= k < |level| && k != pos ensures c !in FileList(level[k]) {
      InnerComponentLookup(level, c, idx, selected, k);
    }
  }

  /** The at-most-one folder of a given name among well-formed siblings. */
  lemma FolderUnique(level: seq<Node>, parent: Path, depth: nat, selected: set<Path>, pos: nat, k: nat)
    requires WFLevel(level, parent, depth, selected)
    requires pos < |level| && k < |level| && k != pos
    requires level[pos].nodeType == Folder && level[k].nodeType == Folder
    ensures level[k].name != level[pos].name
  {
    if k < pos { assert !SameSibling(level[k], level[pos]); } else { assert !SameSibling(level[pos], level[k]); }
  }

  /** The walk for one file keeps a level well-formed and never leaves it empty. */
  lemma InsertWellFormed(level: seq<Node>, info: FileInfo, idx: nat, counter: nat, selected: set<Path>)
    requires idx < |info.path|
    requires WFLevel(level, info.path[..idx], idx, selected)
    ensures var r := InsertComponents(level, info, idx, counter, selected);
      WFLevel(r.level, info.path[..idx], idx, selected) && |r.level| > 0
    decreases |info.path| - idx
  {
    var c := info.path;
    var parent := c[..idx];
    if idx == |c| - 1 {
      if !HasFileAt(level, c) {
        var node := FileNode(info, counter, idx, selected);
        var l' := level + [node];
        assert c[..idx] == parent;
        forall i, j | 0 <= i < j < |l'| ensures !SameSibling(l'[i], l'[j]) {
          if j == |level| {
            assert l'[i] == level[i];
          }
        }
        assert forall k :: 0 <= k < |level| ==> l'[k] == level[k];
      }
    } else {
      FindOrCreateSpec(level, c[idx], c[..idx + 1], Folder, counter, idx, idx == 0);
      var f := FindOrCreateBlueprintNode(level, c[idx], c[..idx + 1], Folder, counter, idx, idx == 0);
      var folder := f.children[f.pos];
      var below := InsertComponents(folder.children, info, idx + 1, f.counter, selected);
      var folder' := folder.(children := below.level);
      var l' := f.children[f.pos := folder'];
      assert c[..idx + 1] == parent + [c[idx]];
      if f.pos < |level| {
        assert WFNode(folder, parent, idx, selected);
      } else {
        assert folder == NewNode(counter, c[idx], c[..idx + 1], Folder, idx, idx == 0);
      }
      assert folder.path == c[..idx + 1];
      InsertWellFormed(folder.children, info, idx + 1, f.counter, selected);
      assert WFNode(folder', parent, idx, selected);
      forall k | 0 <= k < |l'| ensures WFNode(l'[k], parent, idx, selected) {
        if k != f.pos {
          assert l'[k] == level[k];
        }
      }
      forall i, j | 0 <= i < j < |l'| ensures !SameSibling(l'[i], l'[j]) {
        if i != f.pos && j != f.pos {
          assert l'[i] == level[i] && l'[j] == level[j];
        } else if i == f.pos {
          assert l'[j] == level[j];
          if f.pos < |level| {
            assert !SameSibling(level[i], level[j]);
          }
        } else {
          assert l'[i] == level[i];
          if f.pos < |level| {
            assert !SameSibling(level[i], level[j]);
          } else {
            assert !Matches(f.children[i], c[idx], Folder);
          }
        }
      }
    }
  }

  /** `after` lists the files of `before` and, when `before` lacked it, `p` once more. */
  ghost predicate FilesGrow(before: seq<Node>, p: Path, after: seq<Node>) {
    multiset(ForestFileList(after)) ==
      multiset(ForestFileList(before)) + (if p in ForestFileList(before) then multiset{} else multiset{p})
  }

  /** The walk adds the file's path to the tree's file list exactly when it was missing. */
  lemma InsertFiles(level: seq<Node>, info: FileInfo, idx: nat, counter: nat, selected: set<Path>)
    requires idx < |info.path|
    requires WFLevel(level, info.path[..idx], idx, selected)
    ensures FilesGrow(level, info.path, InsertComponents(level, info, idx, counter, selected).level)
    decreases |info.path| - idx
  {
    var c := info.path;
    if idx == |c| - 1 {
      LastComponentLookup(level, c, selected);
      if !HasFileAt(level, c) {
        var node := FileNode(info, counter, idx, selected);
        ForestFileListConcat(level, [node]);
        ForestFileListSingle(node);
      }
    } else {
      var f := FindOrCreateBlueprintNode(level, c[idx], c[..idx + 1], Folder, counter, idx, idx == 0);
      FolderLookup(level, info, idx, counter, selected);
      InsertFiles(f.children[f.pos].children, info, idx + 1, f.counter, selected);
      var below := InsertComponents(f.children[f.pos].children, info, idx + 1, f.counter, selected);
      FolderStepFiles(level, c[idx], c[..idx + 1], counter, idx, idx == 0, below.level, c);
    }
  }

  /** Above the last component, the folder the walk descends into is well-formed. */
  lemma FolderLookup(level: seq<Node>, info: FileInfo, idx: nat, counter: nat, selected: set<Path>)
    requires idx < |info.path| - 1
    requires WFLevel(level, info.path[..idx], idx, selected)
    ensures var f := FindOrCreateBlueprintNode(level, info.path[idx], info.path[..idx + 1], Folder, counter, idx, idx == 0);
      && WFLevel(f.children[f.pos].children, info.path[..idx + 1], idx + 1, selected)
      && (info.path in ForestFileList(level) <==> info.path in ForestFileList(f.children[f.pos].children))
  {
    var c := info.path;
    FindOrCreateSpec(level, c[idx], c[..idx + 1], Folder, counter, idx, idx == 0);
    var f := FindOrCreateBlueprintNode(level, c[idx], c[..idx + 1], Folder, counter, idx, idx == 0);
    FolderPathLookup(level, c, idx, selected, f);
    if f.pos < |level| {
      assert WFNode(f.children[f.pos], c[..idx], idx, selected);
      assert c[..idx + 1] == c[..idx] + [c[idx]];
    }
  }

  /** The path is listed on this level exactly when it is listed below the folder of its component. */
  lemma FolderPathLookup(level: seq<Node>, c: Path, idx: nat, selected: set<Path>, f: Found)
    requires idx < |c| - 1 && WFLevel(level, c[..idx], idx, selected)
    requires f.pos <= |level| && f.pos < |f.children| && Matches(f.children[f.pos], c[idx], Folder)
    requires forall k :: 0 <= k < f.pos ==> !Matches(f.children[k], c[idx], Folder)
    requires f.pos < |level| ==> f.children == level
    requires f.pos == |level| ==> f.children[f.pos].children == [] && f.children[..|level|] == level
    ensures c in ForestFileList(level) <==> c in ForestFileList(f.children[f.pos].children)
  {
    forall k | 0 <= k < |level| && k != f.pos
      ensures !(level[k].nodeType == Folder && level[k].name == c[idx])
    {
      if f.pos < |level| && level[k].nodeType == Folder {
        FolderUnique(level, c[..idx], idx, selected, f.pos, k);
      } else if k < f.pos {
        assert level[k] == f.children[k];
      }
    }
    InnerLevelLookup(level, c, idx, selected, f.pos);
    if f.pos == |level| {
      assert ForestFileList([]) == [];
    }
  }

  /** The folder step of the walk for file lists (compare `FolderStepIds`). */
  lemma FolderStepFiles(level: seq<Node>, name: string, fullPath: Path, counter: nat, depth: nat,
                        isRootFolder: bool, kids: seq<Node>, p: Path)
    requires var f := FindOrCreateBlueprintNode(level, name, fullPath, Folder, counter, depth, isRootFolder);
      && FilesGrow(f.children[f.pos].children, p, kids)
      && (p in ForestFileList(level) <==> p in ForestFileList(f.children[f.pos].children))
    ensures var f := FindOrCreateBlueprintNode(level, name, fullPath, Folder, counter, depth, isRootFolder);
      FilesGrow(level, p, f.children[f.pos := f.children[f.pos].(children := kids)])
  {
    FindOrCreateSpec(level, name, fullPath, Folder, counter, depth, isRootFolder);
    var f := FindOrCreateBlueprintNode(level, name, fullPath, Folder, counter, depth, isRootFolder);
    var s := f.children;
    var extra := if p in ForestFileList(level) then multiset{} else multiset{p};
    var x := s[f.pos].(children := kids);
    assert multiset(FileList(x)) == multiset(FileList(s[f.pos])) + extra;
    ForestFileListReplace(s, f.pos, x);
    Cancel(multiset(ForestFileList(s[f.pos := x])), multiset(ForestFileList(s)), multiset(FileList(s[f.pos])), extra);
    if f.pos == |level| {
      ForestFileListConcat(level, [s[f.pos]]);
      ForestFileListSingle(s[f.pos]);
    }
  }

  // ---------------------------------------------------------------------------
  // Properties of the whole build
  // ---------------------------------------------------------------------------

  /** The paths, with at least one component, of a list of files. */
  ghost predicate Listed(files: seq<FileInfo>, p: Path) {
    exists i :: 0 <= i < |files| && |files[i].path| > 0 && files[i].path == p
  }

  ghost predicate BuildInvariant(files: seq<FileInfo>, r: Placed, selected: set<Path>) {
    && WFLevel(r.level, [], 0, selected)
    && multiset(ForestIds(r.level)) == multiset(Range(0, r.counter))
    && (forall p :: multiset(ForestFileList(r.level))[p] <= 1)
    && (forall p :: p in ForestFileList(r.level) <==> Listed(files, p))
  }

  lemma {:induction false} BuildFromInvariant(sorted: seq<FileInfo>, selected: set<Path>)
    ensures BuildInvariant(sorted, BuildFrom(sorted, selected), selected)
    decreases |sorted|
  {
    if |sorted| > 0 {
      var init := sorted[..|sorted| - 1];
      var info := sorted[|sorted| - 1];
      BuildFromInvariant(init, selected);
      assert sorted == init + [info];
      ListedSnoc(init, info);
      if |info.path| > 0 {
        InsertPreservesInvariant(init, BuildFrom(init, selected), info, selected);
      }
    }
  }

  lemma ListedSnoc(files: seq<FileInfo>, info: FileInfo)
    ensures forall p :: Listed(files + [info], p) <==> Listed(files, p) || (|info.path| > 0 && p == info.path)
  {
    var s := files + [info];
    forall p ensures Listed(s, p) <==> Listed(files, p) || (|info.path| > 0 && p == info.path) {
      if Listed(files, p) {
        var i :| 0 <= i < |files| && |files[i].path| > 0 && files[i].path == p;
        assert s[i] == files[i];
      }
      if Listed(s, p) && !(|info.path| > 0 && p == info.path) {
        var i :| 0 <= i < |s| && |s[i].path| > 0 && s[i].path == p;
        assert files[i] == s[i];
      }
      if |info.path| > 0 && p == info.path {
        assert s[|files|] == info;
      }
    }
  }

  lemma InsertPreservesInvariant(files: seq<FileInfo>, prev: Placed, info: FileInfo, selected: set<Path>)
    requires BuildInvariant(files, prev, selected) && |info.path| > 0
    requires forall p :: Listed(files + [info], p) <==> Listed(files, p) || p == info.path
    ensures BuildInvariant(files + [info], InsertComponents(prev.level, info, 0, prev.counter, selected), selected)
  {
    assert info.path[..0] == [];
    var r := InsertComponents(prev.level, info, 0, prev.counter, selected);
    InsertIds(prev.level, info, 0, prev.counter, selected);
    RangeConcat(0, prev.counter, r.counter);
    InsertWellFormed(prev.level, info, 0, prev.counter, selected);
    InsertFiles(prev.level, info, 0, prev.counter, selected);
    var before := multiset(ForestFileList(prev.level));
    var after := multiset(ForestFileList(r.level));
    forall p ensures after[p] <= 1 {
      if info.path !in ForestFileList(prev.level) {
        assert before[info.path] == 0;
      }
    }
    forall p ensures p in ForestFileList(r.level) <==> Listed(files + [info], p) {
      assert p in ForestFileList(r.level) <==> p in after;
      assert p in ForestFileList(prev.level) <==> p in before;
    }
  }

  /** Equal counts in two multisets of the same distinct-or-not elements settle distinctness. */
  lemma DistinctFromCounts<T>(s: seq<T>)
    requires forall x :: multiset(s)[x] <= 1
    ensures forall i, j :: 0 <= i < j < |s| ==> s[i] != s[j]
  {
    forall i, j | 0 <= i < j < |s| ensures s[i] != s[j] {
      var a, b, c := s[..i], s[i..j], s[j..];
      assert s == a + b + c;
      assert b[0] == s[i] && c[0] == s[j];
      assert s[i] in multiset(b) && s[j] in multiset(c);
      assert multiset(s)[s[j]] == multiset(a)[s[j]] + multiset(b)[s[j]] + multiset(c)[s[j]];
    }
  }

  /**
   * The ids of the returned forest, read in pre-order, are pairwise distinct and are
   * exactly 0 .. N-1 for N nodes.
   */
  lemma BuildTreeIds(files: seq<FileInfo>, selected: set<Path>)
    ensures var ids := ForestIds(BuildTree(files, selected));
      && (forall i, j :: 0 <= i < j < |ids| ==> ids[i] != ids[j])
      && (forall i :: 0 <= i < |ids| ==> ids[i] < |ids|)
  {
    var r := BuildFrom(SortByPath(files), selected);
    BuildFromInvariant(SortByPath(files), selected);
    var ids := ForestIds(r.level);
    forall x ensures multiset(ids)[x] <= 1 {
      RangeCount(0, r.counter, x);
    }
    DistinctFromCounts(ids);
    assert |ids| == |multiset(ids)| == |multiset(Range(0, r.counter))| == |Range(0, r.counter)|;
    assert |Range(0, r.counter)| == r.counter by {
      RangeLength(0, r.counter);
    }
    forall i | 0 <= i < |ids| ensures ids[i] < |ids| {
      assert ids[i] in multiset(ids);
      RangeCount(0, r.counter, ids[i]);
    }
  }

  lemma {:induction false} RangeLength(lo: nat, hi: nat)
    requires lo <= hi
    ensures |Range(lo, hi)| == hi - lo
    decreases hi
  {
    if lo < hi {
      RangeLength(lo, hi - 1);
    }
  }

  /** The returned forest is well formed (see `WFNode`) with the file states taken from `selected`. */
  lemma BuildTreeWellFormed(files: seq<FileInfo>, selected: set<Path>)
    ensures WFLevel(BuildTree(files, selected), [], 0, selected)
  {
    BuildFromInvariant(SortByPath(files), selected);
  }

  /**
   * The forest holds one file node per distinct input path with at least one component,
   * and no other file nodes.
   */
  lemma BuildTreeFiles(files: seq<FileInfo>, selected: set<Path>)
    ensures var paths := ForestFileList(BuildTree(files, selected));
      && (forall p :: p in paths <==> Listed(files, p))
      && (forall i, j :: 0 <= i < j < |paths| ==> paths[i] != paths[j])
  {
    var sorted := SortByPath(files);
    BuildFromInvariant(sorted, selected);
    SortByPathCorrect(files);
    DistinctFromCounts(ForestFileList(BuildTree(files, selected)));
    forall p ensures Listed(sorted, p) <==> Listed(files, p) {
      if Listed(sorted, p) {
        var i :| 0 <= i < |sorted| && |sorted[i].path| > 0 && sorted[i].path == p;
        assert sorted[i] in multiset(files);
        var j :| 0 <= j < |files| && files[j] == sorted[i];
      }
      if Listed(files, p) {
        var i :| 0 <= i < |files| && |files[i].path| > 0 && files[i].path == p;
        assert files[i] in multiset(sorted);
        var j :| 0 <= j < |sorted| && sorted[j] == files[i];
      }
    }
  }

  /**
   * A file `a` and a file `a/b`: the folder `a` is not the file `a`, so the forest has two
   * roots of that name, the file first (it sorts first) with id 0 and the folder with id 1.
   */
  lemma FileAndFolderOfOneName()
    ensures var roots := BuildTree([FileInfo("b", ["a", "b"], 0, 0), FileInfo("a", ["a"], 0, 0)], {});
      && |roots| == 2
      && roots[0].name == "a" && roots[0].nodeType == File && roots[0].id == 0
      && roots[1].name == "a" && roots[1].nodeType == Folder && roots[1].id == 1
      && |roots[1].children| == 1 && roots[1].children[0].path == ["a", "b"]
  {
    var fb := FileInfo("b", ["a", "b"], 0, 0);
    var fa := FileInfo("a", ["a"], 0, 0);
    assert PathLess(fa.path, fb.path) by {
      assert fa.path[1..] == [] && fb.path[1..] == ["b"];
    }
    assert SortByPath([fb, fa]) == [fa, fb] by {
      assert [fb, fa][..1] == [fb];
      assert [fb][..0] == [];
      assert SortByPath([fb]) == [fb];
      assert InsertByPath([fb], fa) == InsertByPath([], fa) + [fb];
    }
    var first := InsertComponents([], fa, 0, 0, {});
    assert BuildFrom([fa], {}) == first by {
      assert [fa][..0] == [];
    }
    assert [fa, fb][..1] == [fa];
    var fileA := FileNode(fa, 0, 0, {});
    assert first == Placed([fileA], 1);
    assert Position([fileA], "a", Folder) == None;
  }
}
