/**
 * Folder check-box states: `calculate_folder_selection_state` derives a folder's state
 * from its children's, and `update_folder_selection_states_recursive` applies it bottom
 * up over a forest. In the source the states sit in reactive cells updated in place; here
 * the update returns the forest with the new states.
 */
module FileTreeSelection {
  import opened Paths
  import opened FsUtils
  import opened FileTreeNodes
  import opened FileTreeBuild

  function States(ns: seq<Node>): (r: seq<NodeSelectionState>)
    ensures |r| == |ns| && forall i :: 0 <= i < |ns| ==> r[i] == ns[i].selectionState
  {
    seq(|ns|, i requires 0 <= i < |ns| => ns[i].selectionState)
  }

  /**
   * A folder's state from its children's: no children or none selected in any way gives
   * NotSelected, all Selected gives Selected, anything in between PartiallySelected.
   */
  function Aggregate(states: seq<NodeSelectionState>): NodeSelectionState {
    if |states| > 0 && forall i :: 0 <= i < |states| ==> states[i] == Selected then Selected
    else if exists i :: 0 <= i < |states| && states[i] != NotSelected then PartiallySelected
    else NotSelected
  }

  /** `calculate_folder_selection_state`: the three-flag scan of the children. */
  method CalculateFolderSelectionState(folderNode: Node) returns (state: NodeSelectionState)
    ensures folderNode.nodeType == File ==> state == folderNode.selectionState
    ensures folderNode.nodeType == Folder ==> state == Aggregate(States(folderNode.children))
  {
    if folderNode.nodeType == File {
      return folderNode.selectionState;
    }
    var children := folderNode.children;
    if |children| == 0 {
      return NotSelected;
    }
    var allChildrenSelected := true;
    var anyChildSelected := false;
    var anyChildPartiallySelected := false;
    for i := 0 to |children|
      invariant allChildrenSelected <==> forall k :: 0 <= k < i ==> children[k].selectionState == Selected
      invariant anyChildSelected <==> exists k :: 0 <= k < i && children[k].selectionState == Selected
      invariant anyChildPartiallySelected <==>
        exists k :: 0 <= k < i && children[k].selectionState == PartiallySelected
    {
      match children[i].selectionState {
        case Selected =>
          anyChildSelected := true;
        case NotSelected =>
          allChildrenSelected := false;
        case PartiallySelected =>
          allChildrenSelected := false;
          anyChildPartiallySelected := true;
      }
    }
    if allChildrenSelected {
      state := Selected;
    } else if anyChildSelected || anyChildPartiallySelected {
      state := PartiallySelected;
    } else {
      state := NotSelected;
    }
  }

  // ---------------------------------------------------------------------------
  // The bottom-up update
  // ---------------------------------------------------------------------------

  /** A file keeps its state; a folder gets the state of its recomputed children. */
  function RecomputeNode(n: Node): Node
    decreases n, 1
  {
    if n.nodeType == File then n
    else
      var kids := RecomputeForest(n.children);
      n.(children := kids, selectionState := Aggregate(States(kids)))
  }

  function RecomputeForest(ns: seq<Node>): (r: seq<Node>)
    ensures |r| == |ns|
    decreases ns, 0
  {
    seq(|ns|, i requires 0 <= i < |ns| => RecomputeNode(ns[i]))
  }

  /** `update_folder_selection_states_recursive` over `nodes`. */
  method UpdateFolderSelectionStatesRecursive(nodes: seq<Node>) returns (updated: seq<Node>)
    ensures updated == RecomputeForest(nodes)
    decreases nodes
  {
    updated := nodes;
    for i := 0 to |nodes|
      invariant |updated| == |nodes|
      invariant forall k :: 0 <= k < i ==> updated[k] == RecomputeNode(nodes[k])
      invariant forall k :: i <= k < |nodes| ==> updated[k] == nodes[k]
    {
      var node := nodes[i];
      if node.nodeType == Folder {
        var children := node.children;
        if |children| > 0 {
          children := UpdateFolderSelectionStatesRecursive(node.children);
        }
        var refreshed := node.(children := children);
        var newCalculatedState := CalculateFolderSelectionState(refreshed);
        if refreshed.selectionState != newCalculatedState {
          refreshed := refreshed.(selectionState := newCalculatedState);
        }
        updated := updated[i := refreshed];
      }
    }
  }

  // ---------------------------------------------------------------------------
  // What the update establishes
  // ---------------------------------------------------------------------------

  /** Every folder's state agrees with its children's. */
  ghost predicate Consistent(n: Node)
    decreases n
  {
    n.nodeType == Folder ==>
      && n.selectionState == Aggregate(States(n.children))
      && forall k :: 0 <= k < |n.children| ==> Consistent(n.children[k])
  }

  /** The update leaves every node of the forest consistent. */
  lemma {:induction false} RecomputeIsConsistent(n: Node)
    ensures Consistent(RecomputeNode(n))
    decreases n
  {
    if n.nodeType == Folder {
      var kids := RecomputeForest(n.children);
      forall k | 0 <= k < |kids| ensures Consistent(kids[k]) {
        RecomputeIsConsistent(n.children[k]);
      }
    }
  }

  /** A consistent tree is a fixed point of the update, so updating twice is updating once. */
  lemma {:induction false} ConsistentIsFixpoint(n: Node)
    requires Consistent(n)
    ensures RecomputeNode(n) == n
    decreases n
  {
    if n.nodeType == Folder {
      var kids := RecomputeForest(n.children);
      forall k | 0 <= k < |kids| ensures kids[k] == n.children[k] {
        ConsistentIsFixpoint(n.children[k]);
      }
      assert kids == n.children;
    }
  }

  lemma RecomputeIdempotent(ns: seq<Node>)
    ensures RecomputeForest(RecomputeForest(ns)) == RecomputeForest(ns)
  {
    var once := RecomputeForest(ns);
    forall k | 0 <= k < |once| ensures RecomputeNode(once[k]) == once[k] {
      RecomputeIsConsistent(ns[k]);
      ConsistentIsFixpoint(once[k]);
    }
  }

  /** A node with every folder state blanked out: what the update must not touch. */
  function Skeleton(n: Node): Node
    decreases n, 1
  {
    n.(children := SkeletonForest(n.children),
       selectionState := if n.nodeType == Folder then NotSelected else n.selectionState)
  }

  function SkeletonForest(ns: seq<Node>): (r: seq<Node>)
    ensures |r| == |ns|
    decreases ns, 0
  {
    seq(|ns|, i requires 0 <= i < |ns| => Skeleton(ns[i]))
  }

  /** The update changes folder states and nothing else. */
  lemma {:induction false} RecomputeKeepsSkeleton(n: Node)
    ensures Skeleton(RecomputeNode(n)) == Skeleton(n)
    decreases n
  {
    if n.nodeType == Folder {
      var kids := RecomputeForest(n.children);
      forall k | 0 <= k < |kids| ensures Skeleton(kids[k]) == Skeleton(n.children[k]) {
        RecomputeKeepsSkeleton(n.children[k]);
      }
      assert SkeletonForest(kids) == SkeletonForest(n.children);
    }
  }

  lemma {:induction false} RecomputeKeepsFiles(n: Node)
    ensures FileList(RecomputeNode(n)) == FileList(n)
    decreases n
  {
    if n.nodeType == Folder {
      RecomputeForestKeepsFiles(n.children);
    }
  }

  lemma {:induction false} RecomputeForestKeepsFiles(ns: seq<Node>)
    ensures ForestFileList(RecomputeForest(ns)) == ForestFileList(ns)
    decreases ns, 1
  {
    if |ns| > 0 {
      var init := ns[..|ns| - 1];
      RecomputeForestKeepsFiles(init);
      RecomputeKeepsFiles(ns[|ns| - 1]);
      assert RecomputeForest(ns)[..|ns| - 1] == RecomputeForest(init);
    }
  }

  // ---------------------------------------------------------------------------
  // The tri-state meaning of a folder's check box
  // ---------------------------------------------------------------------------

  /** File states come from `selected` and no folder is empty, as in a built tree. */
  ghost predicate Labelled(n: Node, selected: set<Path>)
    decreases n
  {
    match n.nodeType
    case File => n.selectionState == (if n.path in selected then Selected else NotSelected)
    case Folder =>
      |n.children| > 0 && forall k :: 0 <= k < |n.children| ==> Labelled(n.children[k], selected)
  }

  /**
   * Each node's state tells which of the files below it are selected: Selected exactly
   * when all are, NotSelected exactly when none is, and so PartiallySelected exactly when
   * some are and some are not.
   */
  ghost predicate Reflects(n: Node, selected: set<Path>)
    decreases n
  {
    && (n.selectionState == Selected <==> forall p :: p in FileList(n) ==> p in selected)
    && (n.selectionState == NotSelected <==> forall p :: p in FileList(n) ==> p !in selected)
    && (n.nodeType == Folder ==> forall k :: 0 <= k < |n.children| ==> Reflects(n.children[k], selected))
  }

  lemma {:induction false} RecomputeReflects(n: Node, selected: set<Path>)
    requires Labelled(n, selected)
    ensures Reflects(RecomputeNode(n), selected)
    decreases n
  {
    if n.nodeType == Folder {
      var kids := RecomputeForest(n.children);
      var n' := RecomputeNode(n);
      forall k | 0 <= k < |kids| ensures Reflects(kids[k], selected) {
        RecomputeReflects(n.children[k], selected);
      }
      forall p ensures p in FileList(n') <==> exists k :: 0 <= k < |kids| && p in FileList(kids[k]) {
        InForestFileList(kids, p);
      }
      var allIn := forall k :: 0 <= k < |kids| ==> kids[k].selectionState == Selected;
      var allOut := forall k :: 0 <= k < |kids| ==> kids[k].selectionState == NotSelected;
      assert n'.selectionState == Selected <==> allIn;
      assert n'.selectionState == NotSelected <==> allOut;
    }
  }

  /** The nodes of a well-formed built level carry the labels the theorem needs. */
  lemma {:induction false} WellFormedIsLabelled(n: Node, parent: Path, depth: nat, selected: set<Path>)
    requires WFNode(n, parent, depth, selected)
    ensures Labelled(n, selected)
    decreases n
  {
    if n.nodeType == Folder {
      forall k | 0 <= k < |n.children| ensures Labelled(n.children[k], selected) {
        WellFormedIsLabelled(n.children[k], n.path, depth + 1, selected);
      }
    }
  }

  /**
   * The forest the file tree displays (build, then update): every node's check box tells
   * whether all, none or some of the files below it are in `selected`.
   */
  lemma DisplayedTreeReflectsSelection(files: seq<FileInfo>, selected: set<Path>)
    ensures var shown := RecomputeForest(BuildTree(files, selected));
      forall k :: 0 <= k < |shown| ==> Reflects(shown[k], selected)
  {
    var roots := BuildTree(files, selected);
    BuildTreeWellFormed(files, selected);
    forall k | 0 <= k < |roots| ensures Reflects(RecomputeNode(roots[k]), selected) {
      WellFormedIsLabelled(roots[k], [], 0, selected);
      RecomputeReflects(roots[k], selected);
    }
  }

  /** `src` holding `main.rs` and `components`, which holds `button.rs` and `mod.rs`. */
  function SrcTree(button: NodeSelectionState, modRs: NodeSelectionState, main: NodeSelectionState): Node {
    var b := Node(2, "button.rs", ["src", "components", "button.rs"], File, [], false, button, 2);
    var m := Node(3, "mod.rs", ["src", "components", "mod.rs"], File, [], false, modRs, 2);
    var c := Node(1, "components", ["src", "components"], Folder, [b, m], false, NotSelected, 1);
    var f := Node(4, "main.rs", ["src", "main.rs"], File, [], false, main, 1);
    Node(0, "src", ["src"], Folder, [c, f], true, NotSelected, 0)
  }

  /**
   * With only `button.rs` selected both folders are PartiallySelected; with both files of
   * `components` selected that folder is Selected and `src` still PartiallySelected; with
   * everything selected both are Selected.
   */
  lemma SrcTreeStates()
    ensures var r := RecomputeNode(SrcTree(Selected, NotSelected, NotSelected));
      r.selectionState == PartiallySelected && r.children[0].selectionState == PartiallySelected
    ensures var r := RecomputeNode(SrcTree(Selected, Selected, NotSelected));
      r.selectionState == PartiallySelected && r.children[0].selectionState == Selected
    ensures var r := RecomputeNode(SrcTree(Selected, Selected, Selected));
      r.selectionState == Selected && r.children[0].selectionState == Selected
  {
    SrcTreeRecompute(Selected, NotSelected, NotSelected);
    SrcTreeRecompute(Selected, Selected, NotSelected);
    SrcTreeRecompute(Selected, Selected, Selected);
    AggregateOfTwo(Selected, NotSelected);
    AggregateOfTwo(PartiallySelected, NotSelected);
    AggregateOfTwo(Selected, Selected);
  }

  lemma SrcTreeRecompute(button: NodeSelectionState, modRs: NodeSelectionState, main: NodeSelectionState)
    ensures var r := RecomputeNode(SrcTree(button, modRs, main));
      && |r.children| == 2
      && r.children[0].selectionState == Aggregate([button, modRs])
      && r.selectionState == Aggregate([Aggregate([button, modRs]), main])
  {
    var t := SrcTree(button, modRs, main);
    var c := t.children[0];
    var f := t.children[1];
    assert RecomputeForest(c.children) == c.children by {
      assert RecomputeNode(c.children[0]) == c.children[0];
      assert RecomputeNode(c.children[1]) == c.children[1];
    }
    assert States(c.children) == [button, modRs];
    var c' := RecomputeNode(c);
    assert RecomputeForest(t.children) == [c', f];
    assert States([c', f]) == [c'.selectionState, main];
  }

  lemma AggregateOfTwo(a: NodeSelectionState, b: NodeSelectionState)
    ensures Aggregate([a, b]) ==
      if a == Selected && b == Selected then Selected
      else if a != NotSelected || b != NotSelected then PartiallySelected
      else NotSelected
  {
    var s := [a, b];
    assert s[0] == a && s[1] == b;
    if a != Selected || b != Selected {
      assert !(forall i :: 0 <= i < |s| ==> s[i] == Selected);
    }
  }
}
