/**
 * What the check boxes and the two buttons of the file tree do to the set of selected
 * paths: a file's box adds or removes its own path, a folder's box adds or removes the
 * paths of every file below it, "Select All" replaces the set by every crawled path and
 * "Deselect All" empties it.
 */
module FileTreeToggle {
  import opened Paths
  import opened FsUtils
  import opened FileTreeNodes
  import opened FileTreeBuild
  import opened FileTreeSelection

  /** `FileTreeNode::collect_all_file_paths_recursive`. */
  method CollectAllFilePathsRecursive(node: Node) returns (paths: seq<Path>)
    ensures paths == FileList(node)
    decreases node
  {
    paths := [];
    if node.nodeType == File {
      paths := paths + [node.path];
    } else {
      for i := 0 to |node.children|
        invariant paths == ForestFileList(node.children[..i])
      {
        var child := node.children[i];
        assert node.children[..i + 1][..i] == node.children[..i];
        match child.nodeType {
          case File =>
            paths := paths + [child.path];
          case Folder =>
            var sub := CollectAllFilePathsRecursive(child);
            paths := paths + sub;
        }
      }
      assert node.children[..|node.children|] == node.children;
    }
  }

  function Elements(s: seq<Path>): set<Path> {
    set p | p in s
  }

  /** The selection after a check box of `node` is set to `isChecked`. */
  function Toggled(selected: set<Path>, node: Node, isChecked: bool): set<Path> {
    if isChecked then selected + Elements(FileList(node)) else selected - Elements(FileList(node))
  }

  /** Every crawled path, as "Select All" collects them. */
  function AllPaths(files: seq<FileInfo>): set<Path> {
    set i | 0 <= i < |files| :: files[i].path
  }

  /** The selected-paths cell shared by the tree's check boxes and buttons. */
  class SelectedPaths {
    var paths: set<Path>

    constructor (initial: set<Path>)
      ensures paths == initial
    {
      paths := initial;
    }

    /** The `oninput` handler of a node's check box. */
    method OnCheckboxInput(node: Node, isChecked: bool)
      modifies this
      ensures paths == Toggled(old(paths), node, isChecked)
    {
      match node.nodeType {
        case File =>
          assert FileList(node) == [node.path];
          assert Elements(FileList(node)) == {node.path};
          if isChecked {
            paths := paths + {node.path};
          } else {
            paths := paths - {node.path};
          }
        case Folder =>
          var descendantFilePaths := CollectAllFilePathsRecursive(node);
          for i := 0 to |descendantFilePaths|
            invariant isChecked ==> paths == old(paths) + Elements(descendantFilePaths[..i])
            invariant !isChecked ==> paths == old(paths) - Elements(descendantFilePaths[..i])
          {
            assert Elements(descendantFilePaths[..i + 1]) ==
              Elements(descendantFilePaths[..i]) + {descendantFilePaths[i]};
            if isChecked {
              paths := paths + {descendantFilePaths[i]};
            } else {
              paths := paths - {descendantFilePaths[i]};
            }
          }
          assert descendantFilePaths[..|descendantFilePaths|] == descendantFilePaths;
      }
    }

    /** The "Select All" button. */
    method SelectAll(allFiles: seq<FileInfo>)
      modifies this
      ensures paths == AllPaths(allFiles)
    {
      var allFilePaths: set<Path> := {};
      for i := 0 to |allFiles|
        invariant allFilePaths == AllPaths(allFiles[..i])
      {
        assert AllPaths(allFiles[..i + 1]) == AllPaths(allFiles[..i]) + {allFiles[i].path} by {
          assert forall k :: 0 <= k < i ==> allFiles[..i + 1][k] == allFiles[..i][k];
        }
        allFilePaths := allFilePaths + {allFiles[i].path};
      }
      assert allFiles[..|allFiles|] == allFiles;
      paths := allFilePaths;
    }

    /** The "Deselect All" button. */
    method DeselectAll()
      modifies this
      ensures paths == {}
    {
      paths := {};
    }
  }

  // ---------------------------------------------------------------------------
  // Properties of the updates
  // ---------------------------------------------------------------------------

  /**
   * Checking and then unchecking a box removes the files below it; it restores the old
   * selection exactly when none of those files was selected before.
   */
  lemma CheckThenUncheck(selected: set<Path>, node: Node)
    ensures Toggled(Toggled(selected, node, true), node, false) == selected - Elements(FileList(node))
    ensures Toggled(Toggled(selected, node, true), node, false) == selected <==>
      forall p :: p in FileList(node) ==> p !in selected
  {
    var back := Toggled(Toggled(selected, node, true), node, false);
    if back == selected {
      forall p | p in FileList(node) ensures p !in selected {
        assert p !in back;
      }
    }
  }

  /** A check box changes only the paths of the files below its node. */
  lemma ToggleIsLocal(selected: set<Path>, node: Node, isChecked: bool, p: Path)
    requires p !in FileList(node)
    ensures p in Toggled(selected, node, isChecked) <==> p in selected
  {
  }

  /**
   * Once the box of `node` is checked, any node whose files all lie below `node` and whose
   * state reflects the new selection shows Selected; once unchecked, NotSelected.
   */
  lemma ToggledNodesShowNewState(selected: set<Path>, node: Node, isChecked: bool, m: Node)
    requires Reflects(m, Toggled(selected, node, isChecked))
    requires forall p :: p in FileList(m) ==> p in FileList(node)
    ensures m.selectionState == (if isChecked then Selected else NotSelected)
  {
  }

  /** After "Select All" every root of the displayed forest is Selected. */
  lemma SelectAllShowsSelected(files: seq<FileInfo>)
    ensures var shown := RecomputeForest(BuildTree(files, AllPaths(files)));
      forall k :: 0 <= k < |shown| ==> shown[k].selectionState == Selected
  {
    var all := AllPaths(files);
    var roots := BuildTree(files, all);
    var shown := RecomputeForest(roots);
    DisplayedTreeReflectsSelection(files, all);
    BuildTreeFiles(files, all);
    forall k | 0 <= k < |shown| ensures shown[k].selectionState == Selected {
      RecomputeKeepsFiles(roots[k]);
      forall p | p in FileList(shown[k]) ensures p in all {
        InForestFileList(roots, p);
        assert Listed(files, p);
      }
    }
  }

  /** After "Deselect All" every root of the displayed forest is NotSelected. */
  lemma DeselectAllShowsNotSelected(files: seq<FileInfo>)
    ensures var shown := RecomputeForest(BuildTree(files, {}));
      forall k :: 0 <= k < |shown| ==> shown[k].selectionState == NotSelected
  {
    DisplayedTreeReflectsSelection(files, {});
  }
}
