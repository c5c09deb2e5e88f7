/** Copy-on-write update of the node at an index path
    (`updateNodeAtPath`, src/components/FolderTree/useTreeState.ts). */
module TreeUpdate {
  import opened Wrappers
  import opened TreeTypes

  /** `updateNodeAtPath(tree, path, updater)`: an empty path gives
      `updater(tree)`; otherwise the node is copied with a fresh children
      array in which only `children[path[0]]` is rebuilt, recursively.
      `None` stands for the TypeError raised when the path leaves the tree.
      An index that is not a child of the node reached faults when the walk
      goes on below it; at the last index, `updateNodeAtPath` itself would
      store `updater(undefined)`, and every updater of the reducer faults
      there by reading a field of `undefined`. */
  function UpdateAt(t: TreeNode, path: Path, f: TreeNode -> TreeNode): (r: Option<TreeNode>)
    decreases |path|
    ensures r.Some? <==> NodeAt(t, path).Some?
    ensures |path| == 0 ==> r == Some(f(t))
    ensures |path| > 0 && r.Some? ==>
      && r.value == t.(children := r.value.children)
      && r.value.children.Defined?
      && |Kids(r.value)| == |Kids(t)|
      && forall j :: 0 <= j < |Kids(t)| && j != path[0] ==> Kids(r.value)[j] == Kids(t)[j]
  {
    if |path| == 0 then Some(f(t))
    else
      var kids := Kids(t);
      var i := path[0];
      if 0 <= i < |kids| then
        match UpdateAt(kids[i], path[1..], f)
        case None => None
        case Some(c) => Some(t.(children := Defined(kids[i := c])))
      else None
  }

  /** `q` goes through `p`: `p` is a prefix of `q`. */
  predicate IsPrefix(p: Path, q: Path)
  {
    |p| <= |q| && q[..|p|] == p
  }

  /** The updated tree holds `f(n)` where `n` was. */
  lemma {:induction false} UpdateAtTarget(t: TreeNode, path: Path, f: TreeNode -> TreeNode)
    requires NodeAt(t, path).Some?
    ensures NodeAt(UpdateAt(t, path, f).value, path) == Some(f(NodeAt(t, path).value))
    decreases |path|
  {
    if |path| > 0 {
      UpdateAtTarget(Kids(t)[path[0]], path[1..], f);
    }
  }

  /** Every node whose path does not run through `path` (and is not on the
      way to it) is unchanged. */
  lemma {:induction false} UpdateAtElsewhere(t: TreeNode, path: Path, f: TreeNode -> TreeNode, q: Path)
    requires NodeAt(t, path).Some?
    requires !IsPrefix(path, q) && !IsPrefix(q, path)
    ensures NodeAt(UpdateAt(t, path, f).value, q) == NodeAt(t, q)
    decreases |path|
  {
    var r := UpdateAt(t, path, f).value;
    assert |path| > 0 && |q| > 0;
    if q[0] == path[0] {
      UpdateAtElsewhere(Kids(t)[path[0]], path[1..], f, q[1..]);
    }
  }

  /** Updating with the identity gives back the same tree (a deep-equal
      copy in the JavaScript). */
  lemma {:induction false} UpdateAtIdentity(t: TreeNode, path: Path)
    requires NodeAt(t, path).Some?
    ensures UpdateAt(t, path, n => n) == Some(t)
    decreases |path|
  {
    if |path| > 0 {
      var kids := Kids(t);
      UpdateAtIdentity(kids[path[0]], path[1..]);
      assert kids[path[0] := kids[path[0]]] == kids;
    }
  }

  /** Two successive updates at one path equal a single one that does both. */
  lemma {:induction false} UpdateAtTwo(t: TreeNode, path: Path, f: TreeNode -> TreeNode, g: TreeNode -> TreeNode, h: TreeNode -> TreeNode)
    requires NodeAt(t, path).Some?
    requires g(f(NodeAt(t, path).value)) == h(NodeAt(t, path).value)
    ensures UpdateAt(t, path, f).Some?
    ensures UpdateAt(UpdateAt(t, path, f).value, path, g) == UpdateAt(t, path, h)
    decreases |path|
  {
    if |path| > 0 {
      var kids := Kids(t);
      var i := path[0];
      UpdateAtTwo(kids[i], path[1..], f, g, h);
      var c := UpdateAt(kids[i], path[1..], f).value;
      var r := UpdateAt(t, path, f).value;
      assert Kids(r) == kids[i := c];
      assert kids[i := c][i := UpdateAt(c, path[1..], g).value] == kids[i := UpdateAt(kids[i], path[1..], h).value];
    }
  }
}
