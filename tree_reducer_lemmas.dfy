/** What each reducer action does to the tree
    (src/components/FolderTree/useTreeState.ts). */
module TreeReducerLemmas {
  import opened Wrappers
  import opened TreeTypes
  import opened TreeUpdate
  import opened TreeSort
  import opened TreeReducer

  /** `addNode` faults exactly when `path` leaves the tree. On a node it
      opens the node, keeps its other fields and adds one child: the new
      node, typed `nodeType` (a file by default), with `children = []` only
      for a folder, open, and named by `NewNodeName`. Folders stay first. */
  lemma AddNodeEffect(state: TreeNode, path: Path, nodeType: Option<NodeType>, name: Option<string>, freshId: string, le: (string, string) -> bool)
    ensures Add(state, path, nodeType, name, freshId, le).Some? <==> NodeAt(state, path).Some?
    ensures NodeAt(state, path).Some? ==>
      var n := NodeAt(state, path).value;
      var r := Add(state, path, nodeType, name, freshId, le).value;
      && NodeAt(r, path).Some?
      && var m := NodeAt(r, path).value;
      && m.isOpen == Some(true)
      && m == n.(isOpen := m.isOpen, children := m.children)
      && |Kids(m)| == |Kids(n)| + 1
      && multiset(Kids(m)) == multiset(Kids(n)) + multiset{NewNode(freshId, name, nodeType)}
      && FoldersFirst(Kids(m))
      && exists c :: c in Kids(m) && c.id == freshId
           && c.name == NewNodeName(name, nodeType)
           && c.kind == (if nodeType == Some(Folder) then Folder else File)
           && (nodeType == Some(Folder) ==> c.children == Defined([]))
           && (nodeType != Some(Folder) ==> c.children == Undefined)
           && c.isOpen == Some(true)
  {
    AddChildAtEffect(state, path, NewNode(freshId, name, nodeType), le);
  }

  /** Deleting an existing child removes exactly that child from its parent:
      one fewer child, the rest kept (re-sorted), the parent's other fields
      unchanged. */
  lemma DeleteNodeEffect(state: TreeNode, path: Path, le: (string, string) -> bool)
    requires NodeAt(state, ParentPath(path)).Some?
    requires InRange(Kids(NodeAt(state, ParentPath(path)).value), LastIndex(path))
    ensures Delete(state, path, le).Some?
    ensures
      var p := NodeAt(state, ParentPath(path)).value;
      var gone := Kids(p)[LastIndex(path).value];
      var r := Delete(state, path, le).value;
      && NodeAt(r, ParentPath(path)).Some?
      && var m := NodeAt(r, ParentPath(path)).value;
      && m == p.(children := m.children)
      && |Kids(m)| == |Kids(p)| - 1
      && multiset(Kids(m)) == multiset(Kids(p)) - multiset{gone}
      && FoldersFirst(Kids(m))
  {
    var pp, idx := ParentPath(path), LastIndex(path);
    var p := NodeAt(state, pp).value;
    var r := UpdateAt(state, pp, RemoveUpdater(idx, le));
    UpdateAtTarget(state, pp, RemoveUpdater(idx, le));
    var m := RemoveChild(p, idx, le);
    assert NodeAt(r.value, pp) == Some(m);
    assert Kids(m) == SortNodes(Without(Kids(p), idx), le);
  }

  /** `deleteNode([])`: `path[-1]` is undefined, so no child is removed and
      the root's children are only re-sorted. */
  lemma DeleteEmptyPathOnlySorts(state: TreeNode, le: (string, string) -> bool)
    ensures Delete(state, [], le).Some?
    ensures
      var r := Delete(state, [], le).value;
      && r == state.(children := r.children)
      && multiset(Kids(r)) == multiset(Kids(state))
      && FoldersFirst(Kids(r))
  {
  }

  /** `renameNode` keeps the parent's children up to order, with at most
      the named one renamed: an empty or missing name keeps every child as
      it was; otherwise the named child carries the new name. */
  lemma RenameNodeEffect(state: TreeNode, path: Path, name: Option<string>, le: (string, string) -> bool)
    requires NodeAt(state, ParentPath(path)).Some?
    ensures Rename(state, path, name, le).Some?
    ensures
      var p := NodeAt(state, ParentPath(path)).value;
      var r := Rename(state, path, name, le).value;
      && NodeAt(r, ParentPath(path)).Some?
      && var m := NodeAt(r, ParentPath(path)).value;
      && m == p.(children := m.children)
      && |Kids(m)| == |Kids(p)|
      && multiset(Kids(m)) == multiset(Renamed(Kids(p), LastIndex(path), name))
      && FoldersFirst(Kids(m))
      && (!Truthy(name) ==> multiset(Kids(m)) == multiset(Kids(p)))
      && (Truthy(name) && InRange(Kids(p), LastIndex(path)) ==>
            Kids(p)[LastIndex(path).value].(name := name.value) in Kids(m))
  {
    var pp, idx := ParentPath(path), LastIndex(path);
    var p := NodeAt(state, pp).value;
    var r := UpdateAt(state, pp, RenameUpdater(idx, name, le));
    UpdateAtTarget(state, pp, RenameUpdater(idx, name, le));
    var renamed := Renamed(Kids(p), idx, name);
    var m := RenameChild(p, idx, name, le);
    assert NodeAt(r.value, pp) == Some(m);
    assert Kids(m) == SortNodes(renamed, le);
    if Truthy(name) && InRange(Kids(p), idx) {
      assert renamed[idx.value] in multiset(renamed);
    }
  }

  /** `toggleOpen` flips `isOpen` at the node (an undefined flag reads as
      false) and changes nothing else there: its children are not re-sorted. */
  lemma ToggleOpenEffect(state: TreeNode, path: Path)
    ensures ToggleAt(state, path).Some? <==> NodeAt(state, path).Some?
    ensures NodeAt(state, path).Some? ==>
      var n := NodeAt(state, path).value;
      var r := ToggleAt(state, path).value;
      && NodeAt(r, path).Some?
      && var m := NodeAt(r, path).value;
      && m.isOpen.Some?
      && (m.isOpen.value <==> n.isOpen != Some(true))
      && m == n.(isOpen := m.isOpen)
  {
    if NodeAt(state, path).Some? {
      UpdateAtTarget(state, path, ToggleUpdater());
    }
  }

  /** Toggling twice restores the tree when `isOpen` was defined; from
      `undefined` the flag ends `false` and the tree is otherwise the same. */
  lemma ToggleOpenTwice(state: TreeNode, path: Path)
    requires NodeAt(state, path).Some?
    ensures ToggleAt(state, path).Some?
    ensures
      var once := ToggleAt(state, path).value;
      var twice := ToggleAt(once, path);
      && (NodeAt(state, path).value.isOpen.Some? ==> twice == Some(state))
      && (NodeAt(state, path).value.isOpen.None? ==>
            twice == UpdateAt(state, path, (x: TreeNode) => x.(isOpen := Some(false))))
  {
    var n := NodeAt(state, path).value;
    if n.isOpen.Some? {
      UpdateAtTwo(state, path, ToggleUpdater(), ToggleUpdater(), (x: TreeNode) => x);
      UpdateAtIdentity(state, path);
    } else {
      UpdateAtTwo(state, path, ToggleUpdater(), ToggleUpdater(), (x: TreeNode) => x.(isOpen := Some(false)));
    }
  }

  /** `moveNode` without a target returns the state unchanged. */
  lemma MoveWithoutTarget(state: TreeNode, path: Path, freshId: string, le: (string, string) -> bool)
    ensures Reduce(state, MoveNode(path, None), freshId, le) == Some(state)
  {
  }

  /** `moveNode` whose source index holds no node returns the state
      unchanged; a source whose parent is off the tree faults. */
  lemma MoveWithoutSource(state: TreeNode, path: Path, target: Path, le: (string, string) -> bool)
    requires NodeAt(state, ParentPath(path)).None? || !InRange(Kids(NodeAt(state, ParentPath(path)).value), LastIndex(path))
    ensures NodeAt(state, ParentPath(path)).None? ==> Move(state, path, target, le).None?
    ensures NodeAt(state, ParentPath(path)).Some? ==> Move(state, path, target, le) == Some(state)
  {
  }

  /** The `addNode` updater, and the second `moveNode` one, at a node:
      the node ends open, keeps its other fields, and gains `child` as one
      more child; folders stay first. */
  lemma AddChildAtEffect(t: TreeNode, path: Path, child: TreeNode, le: (string, string) -> bool)
    ensures UpdateAt(t, path, AddUpdater(child, le)).Some? <==> NodeAt(t, path).Some?
    ensures NodeAt(t, path).Some? ==>
      var n := NodeAt(t, path).value;
      var r := UpdateAt(t, path, AddUpdater(child, le)).value;
      && NodeAt(r, path).Some?
      && var m := NodeAt(r, path).value;
      && m.isOpen == Some(true)
      && m == n.(isOpen := m.isOpen, children := m.children)
      && child in Kids(m)
      && |Kids(m)| == |Kids(n)| + 1
      && multiset(Kids(m)) == multiset(Kids(n)) + multiset{child}
      && FoldersFirst(Kids(m))
  {
    if NodeAt(t, path).Some? {
      UpdateAtTarget(t, path, AddUpdater(child, le));
      var m := NodeAt(UpdateAt(t, path, AddUpdater(child, le)).value, path).value;
      assert child in multiset(Kids(m));
    }
  }

  /** A move whose source names a node: that node leaves its parent exactly
      as `deleteNode` would remove it, the target path is then read in the
      tree this builds (so it faults when it no longer names a node there),
      and the target gains the moved node as `addNode` adds one. */
  lemma MoveNodeEffect(state: TreeNode, path: Path, target: Path, le: (string, string) -> bool)
    requires NodeAt(state, ParentPath(path)).Some?
    requires InRange(Kids(NodeAt(state, ParentPath(path)).value), LastIndex(path))
    ensures Delete(state, path, le).Some?
    ensures
      var moved := Kids(NodeAt(state, ParentPath(path)).value)[LastIndex(path).value];
      Move(state, path, target, le) == UpdateAt(Delete(state, path, le).value, target, AddUpdater(moved, le))
  {
  }

  /** A move whose source names a node and whose target still names a
      node once the source is gone: the target ends open and holds the
      moved node, one child more than before. */
  lemma MoveNodeArrives(state: TreeNode, path: Path, target: Path, le: (string, string) -> bool)
    requires NodeAt(state, ParentPath(path)).Some?
    requires InRange(Kids(NodeAt(state, ParentPath(path)).value), LastIndex(path))
    requires NodeAt(Delete(state, path, le).value, target).Some?
    ensures Move(state, path, target, le).Some?
    ensures
      var moved := Kids(NodeAt(state, ParentPath(path)).value)[LastIndex(path).value];
      var before := NodeAt(Delete(state, path, le).value, target).value;
      var r := Move(state, path, target, le).value;
      && NodeAt(r, target).Some?
      && var m := NodeAt(r, target).value;
      && m.isOpen == Some(true)
      && moved in Kids(m)
      && |Kids(m)| == |Kids(before)| + 1
  {
    var moved := Kids(NodeAt(state, ParentPath(path)).value)[LastIndex(path).value];
    var source := Delete(state, path, le).value;
    assert Move(state, path, target, le) == UpdateAt(source, target, AddUpdater(moved, le)) by {
      MoveNodeEffect(state, path, target, le);
    }
    AddChildAtEffect(source, target, moved, le);
  }

  /** Moving a folder into its next sibling folder faults: once the folder
      is taken out, the target index is past the end of the siblings. */
  lemma MoveIntoNextSiblingFaults(a: TreeNode, b: TreeNode, root: TreeNode, le: (string, string) -> bool)
    requires a.kind == Folder && b.kind == Folder
    requires root.children == Defined([a, b])
    ensures Move(root, [0], [1], le).None?
  {
    var source := RemoveChild(root, Some(0), le);
    MoveFirstRootChild(root, [1], le);
    assert UpdateAt(source, [1], AddUpdater(a, le)).None? by {
      assert Without([a, b], Some(0)) == [b];
      assert |Kids(source)| == 1;
    }
  }

  /** `moveNode(p, p)` is not a no-op in the reducer: with a folder and a
      file as the root's children, moving the folder onto its own path nests
      it under the file that takes its index, and opens that file. */
  lemma MoveOntoOwnPathNestsUnderFile(a: TreeNode, f: TreeNode, root: TreeNode, le: (string, string) -> bool)
    requires a.kind == Folder && f.kind == File && f.children == Undefined
    requires root.children == Defined([a, f])
    ensures
      var r := Move(root, [0], [0], le);
      && r.Some?
      && Kids(r.value) == [f.(isOpen := Some(true), children := Defined([a]))]
  {
    var source := RemoveChild(root, Some(0), le);
    MoveFirstRootChild(root, [0], le);
    assert source.children == Defined([f]) by {
      assert Without([a, f], Some(0)) == [f];
      assert SortNodes([f], le) == [f];
    }
    AddToChildlessFirst(a, f, source, le);
  }

  /** `moveNode(p, p)` on the last of two root children faults: after the
      removal no sibling takes index `p`. */
  lemma MoveOntoOwnLastPathFaults(a: TreeNode, b: TreeNode, root: TreeNode, le: (string, string) -> bool)
    requires root.children == Defined([a, b])
    ensures Move(root, [1], [1], le).None?
  {
    assert ParentPath([1]) == [] && LastIndex([1]) == Some(1);
    assert NodeAt(root, []) == Some(root);
    assert TakeChild(root, Some(1), le).1 == Some(b);
    var source := RemoveChild(root, Some(1), le);
    assert Delete(root, [1], le) == Some(source);
    assert |Kids(source)| == 1 by {
      assert Without([a, b], Some(1)) == [a];
    }
  }

  /** `moveNode([], [])` returns the state: `path[-1]` is `undefined`, so
      there is no node to move. */
  lemma MoveEmptyPathsKeepsState(root: TreeNode, le: (string, string) -> bool)
    ensures Move(root, [], [], le) == Some(root)
  {
    assert ParentPath([]) == [] && LastIndex([]).None?;
    assert NodeAt(root, []) == Some(root);
  }

  /** Moving the root's first child reads the target in the root with that
      child removed. */
  lemma MoveFirstRootChild(root: TreeNode, target: Path, le: (string, string) -> bool)
    requires |Kids(root)| > 0
    ensures Move(root, [0], target, le) == UpdateAt(RemoveChild(root, Some(0), le), target, AddUpdater(Kids(root)[0], le))
  {
    assert ParentPath([0]) == [] && LastIndex([0]) == Some(0);
    assert NodeAt(root, []) == Some(root);
    assert TakeChild(root, Some(0), le).1 == Some(Kids(root)[0]);
    assert Delete(root, [0], le) == Some(RemoveChild(root, Some(0), le));
  }

  /** Adding `a` to a childless first child `f` of `t`, the only child. */
  lemma AddToChildlessFirst(a: TreeNode, f: TreeNode, t: TreeNode, le: (string, string) -> bool)
    requires f.children == Undefined
    requires t.children == Defined([f])
    ensures UpdateAt(t, [0], AddUpdater(a, le)) == Some(t.(children := Defined([f.(isOpen := Some(true), children := Defined([a]))])))
  {
    var g := f.(isOpen := Some(true), children := Defined([a]));
    assert AddChild(f, a, le) == g by {
      assert Kids(f) + [a] == [a];
      assert SortNodes([a], le) == [a];
    }
    assert UpdateAt(f, [], AddUpdater(a, le)) == Some(g);
    assert [f][0 := g] == [g];
  }
}
