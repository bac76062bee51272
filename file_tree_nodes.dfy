/**
 * The nodes of the file tree. The source has two structs with the same fields, the plain
 * blueprint that the builder returns and the display node whose `is_expanded` and
 * `selection_state` sit in reactive cells; converting one into the other copies every
 * field. Both are the one value type `Node` here, the cells being ordinary fields.
 */
module FileTreeNodes {
  import opened Paths

  datatype TreeNodeType = File | Folder

  datatype NodeSelectionState = Selected | NotSelected | PartiallySelected

  datatype Node = Node(
    id: nat,
    name: string,
    path: Path,
    nodeType: TreeNodeType,
    children: seq<Node>,
    isExpanded: bool,
    selectionState: NodeSelectionState,
    depth: nat)

  // ---------------------------------------------------------------------------
  // Pre-order views of a forest
  // ---------------------------------------------------------------------------

  /** The ids of a subtree in pre-order. */
  function Ids(n: Node): seq<nat>
    decreases n, 1
  {
    [n.id] + ForestIds(n.children)
  }

  function ForestIds(ns: seq<Node>): seq<nat>
    decreases ns, 0
  {
    if |ns| == 0 then [] else ForestIds(ns[..|ns| - 1]) + Ids(ns[|ns| - 1])
  }

  /**
   * The paths of the file nodes of a subtree in pre-order; for a file node it is the
   * node's own path.
   */
  function FileList(n: Node): seq<Path>
    decreases n, 1
  {
    if n.nodeType == File then [n.path] else ForestFileList(n.children)
  }

  function ForestFileList(ns: seq<Node>): seq<Path>
    decreases ns, 0
  {
    if |ns| == 0 then [] else ForestFileList(ns[..|ns| - 1]) + FileList(ns[|ns| - 1])
  }

  /** A file node with path `p` occurs in the subtree (the node itself included). */
  ghost predicate HasFileNode(n: Node, p: Path)
    decreases n
  {
    (n.nodeType == File && n.path == p) ||
    (n.nodeType == Folder && exists k :: 0 <= k < |n.children| && HasFileNode(n.children[k], p))
  }

  // ---------------------------------------------------------------------------
  // How the views split over concatenation and single-element replacement
  // ---------------------------------------------------------------------------

  lemma {:induction false} ForestIdsConcat(a: seq<Node>, b: seq<Node>)
    ensures ForestIds(a + b) == ForestIds(a) + ForestIds(b)
    decreases |b|
  {
    if |b| > 0 {
      var b' := b[..|b| - 1];
      assert (a + b)[..|a + b| - 1] == a + b';
      ForestIdsConcat(a, b');
    } else {
      assert a + b == a;
    }
  }

  lemma {:induction false} ForestFileListConcat(a: seq<Node>, b: seq<Node>)
    ensures ForestFileList(a + b) == ForestFileList(a) + ForestFileList(b)
    decreases |b|
  {
    if |b| > 0 {
      var b' := b[..|b| - 1];
      assert (a + b)[..|a + b| - 1] == a + b';
      ForestFileListConcat(a, b');
    } else {
      assert a + b == a;
    }
  }

  lemma ForestIdsSingle(x: Node)
    ensures ForestIds([x]) == Ids(x)
  {
    assert [x][..0] == [];
  }

  lemma ForestFileListSingle(x: Node)
    ensures ForestFileList([x]) == FileList(x)
  {
    assert [x][..0] == [];
  }

  lemma ForestIdsReplace(s: seq<Node>, pos: nat, x: Node)
    requires pos < |s|
    ensures multiset(ForestIds(s[pos := x])) + multiset(Ids(s[pos])) ==
      multiset(ForestIds(s)) + multiset(Ids(x))
  {
    var pre, post := s[..pos], s[pos + 1..];
    assert s == pre + [s[pos]] + post;
    assert s[pos := x] == pre + [x] + post;
    ForestIdsConcat(pre + [s[pos]], post);
    ForestIdsConcat(pre, [s[pos]]);
    ForestIdsConcat(pre + [x], post);
    ForestIdsConcat(pre, [x]);
    ForestIdsSingle(s[pos]);
    ForestIdsSingle(x);
  }

  lemma ForestFileListReplace(s: seq<Node>, pos: nat, x: Node)
    requires pos < |s|
    ensures multiset(ForestFileList(s[pos := x])) + multiset(FileList(s[pos])) ==
      multiset(ForestFileList(s)) + multiset(FileList(x))
  {
    var pre, post := s[..pos], s[pos + 1..];
    assert s == pre + [s[pos]] + post;
    assert s[pos := x] == pre + [x] + post;
    ForestFileListConcat(pre + [s[pos]], post);
    ForestFileListConcat(pre, [s[pos]]);
    ForestFileListConcat(pre + [x], post);
    ForestFileListConcat(pre, [x]);
    ForestFileListSingle(s[pos]);
    ForestFileListSingle(x);
  }

  /** A path is in a forest's file list exactly when it is in the list of one of its trees. */
  lemma {:induction false} InForestFileList(ns: seq<Node>, p: Path)
    ensures p in ForestFileList(ns) <==> exists k :: 0 <= k < |ns| && p in FileList(ns[k])
    decreases |ns|
  {
    if |ns| > 0 {
      var init := ns[..|ns| - 1];
      InForestFileList(init, p);
      if p in ForestFileList(init) {
        var k :| 0 <= k < |init| && p in FileList(init[k]);
        assert ns[k] == init[k];
      }
      forall k | 0 <= k < |init| ensures init[k] == ns[k] { }
    }
  }

  /** A path is in the file list exactly when there is a file node with that path. */
  lemma {:induction false} FileListIffFileNode(n: Node, p: Path)
    ensures p in FileList(n) <==> HasFileNode(n, p)
    decreases n
  {
    if n.nodeType == Folder {
      InForestFileList(n.children, p);
      forall k | 0 <= k < |n.children| ensures p in FileList(n.children[k]) <==> HasFileNode(n.children[k], p) {
        FileListIffFileNode(n.children[k], p);
      }
    }
  }
}
