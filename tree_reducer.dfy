/** The folder-tree reducer (`treeReducer`,
    src/components/FolderTree/useTreeState.ts): five actions, each mapping a
    tree snapshot to a new one through `UpdateAt`.

    Calls into the host are parameters: `freshId` is the id that
    `Math.random` would generate for `addNode`, and `le` is the name order
    of `localeCompare`. A result `None` is the TypeError the JavaScript
    raises when a path leaves the tree. */
module TreeReducer {
  import opened Wrappers
  import opened TreeTypes
  import opened TreeUpdate
  import opened TreeSort

  const NewFolderName: string := "새 폴더"
  const NewFileName: string := "새 파일"

  /** JavaScript truthiness of an optional string: defined and non-empty. */
  predicate Truthy(s: Option<string>)
  {
    s.Some? && s.value != ""
  }

  /** The name given to a new node. The source writes
      `name || nodeType === 'folder' ? '새 폴더' : '새 파일'`, which groups as
      `(name || nodeType === 'folder') ? … : …`: a custom name is never used,
      and any non-empty name gives the folder label, even to a file. */
  function NewNodeName(name: Option<string>, nodeType: Option<NodeType>): (r: string)
    ensures r == NewFolderName || r == NewFileName
    ensures Truthy(name) ==> r == NewFolderName
    ensures !Truthy(name) ==> (r == NewFolderName <==> nodeType == Some(Folder))
  {
    if Truthy(name) || nodeType == Some(Folder) then NewFolderName else NewFileName
  }

  /** The node literal that `addNode` appends. */
  function NewNode(id: string, name: Option<string>, nodeType: Option<NodeType>): TreeNode
  {
    TreeNode(
      id,
      NewNodeName(name, nodeType),
      nodeType.GetOr(File),
      if nodeType == Some(Folder) then Defined([]) else Undefined,
      Some(true),
      None)
  }

  /** `path.slice(0, -1)` */
  function ParentPath(path: Path): Path
  {
    if |path| == 0 then [] else path[..|path| - 1]
  }

  /** `path[path.length - 1]`, `undefined` for the empty path. */
  function LastIndex(path: Path): Option<int>
  {
    if |path| == 0 then None else Some(path[|path| - 1])
  }

  /** `index` names an element of `s`. */
  predicate InRange(s: seq<TreeNode>, index: Option<int>)
  {
    index.Some? && 0 <= index.value < |s|
  }

  /** `children[index]`: `undefined` unless `index` is an element. */
  function ChildAt(s: seq<TreeNode>, index: Option<int>): (r: Option<TreeNode>)
    ensures r.Some? <==> InRange(s, index)
    ensures r.Some? ==> r.value == s[index.value] && r.value in s
  {
    if InRange(s, index) then Some(s[index.value]) else None
  }

  /** `children.filter((_, i) => i !== index)`. */
  function Without(s: seq<TreeNode>, index: Option<int>): (r: seq<TreeNode>)
    ensures InRange(s, index) ==> |r| == |s| - 1 && multiset(r) == multiset(s) - multiset{s[index.value]}
    ensures !InRange(s, index) ==> r == s
  {
    if InRange(s, index) then
      var k := index.value;
      assert s == s[..k] + [s[k]] + s[k + 1..];
      s[..k] + s[k + 1..]
    else s
  }

  /** `children.map((child, i) => i === index ? { ...child, name: name || child.name } : child)`. */
  function Renamed(s: seq<TreeNode>, index: Option<int>, name: Option<string>): (r: seq<TreeNode>)
    ensures |r| == |s|
    ensures forall i :: 0 <= i < |s| ==> r[i] == s[i].(name := r[i].name)
    ensures forall i :: 0 <= i < |s| && (index != Some(i) || !Truthy(name)) ==> r[i] == s[i]
    ensures InRange(s, index) && Truthy(name) ==> r[index.value] == s[index.value].(name := name.value)
  {
    if InRange(s, index) && Truthy(name) then
      s[index.value := s[index.value].(name := name.value)]
    else s
  }

  /** The `addNode` updater: open the node and add `child` to its sorted children. */
  function AddChild(node: TreeNode, child: TreeNode, le: (string, string) -> bool): TreeNode
  {
    node.(isOpen := Some(true), children := Defined(SortNodes(Kids(node) + [child], le)))
  }

  /** The `deleteNode` updater, and the node part of the `moveNode` one. */
  function RemoveChild(node: TreeNode, index: Option<int>, le: (string, string) -> bool): TreeNode
  {
    node.(children := Defined(SortNodes(Without(Kids(node), index), le)))
  }

  /** The first `moveNode` updater: the new node, paired with the child it
      assigns to the captured `nodeToMove`. */
  function TakeChild(node: TreeNode, index: Option<int>, le: (string, string) -> bool): (TreeNode, Option<TreeNode>)
  {
    (RemoveChild(node, index, le), ChildAt(Kids(node), index))
  }

  /** The `renameNode` updater. */
  function RenameChild(node: TreeNode, index: Option<int>, name: Option<string>, le: (string, string) -> bool): TreeNode
  {
    node.(children := Defined(SortNodes(Renamed(Kids(node), index, name), le)))
  }

  /** The `toggleOpen` updater: `isOpen: !node.isOpen` (undefined reads as false). */
  function Toggle(node: TreeNode): TreeNode
  {
    node.(isOpen := Some(!node.isOpen.GetOr(false)))
  }

  function AddUpdater(child: TreeNode, le: (string, string) -> bool): TreeNode -> TreeNode
  {
    n => AddChild(n, child, le)
  }

  function RemoveUpdater(index: Option<int>, le: (string, string) -> bool): TreeNode -> TreeNode
  {
    n => TakeChild(n, index, le).0
  }

  function RenameUpdater(index: Option<int>, name: Option<string>, le: (string, string) -> bool): TreeNode -> TreeNode
  {
    n => RenameChild(n, index, name, le)
  }

  function ToggleUpdater(): TreeNode -> TreeNode
  {
    n => Toggle(n)
  }

  /** `treeReducer(state, action)`. */
  function Reduce(state: TreeNode, action: TreeAction, freshId: string, le: (string, string) -> bool): Option<TreeNode>
  {
    match action
    case AddNode(path, nodeType, name) => Add(state, path, nodeType, name, freshId, le)
    case DeleteNode(path) => Delete(state, path, le)
    case RenameNode(path, name) => Rename(state, path, name, le)
    case ToggleOpen(path) => ToggleAt(state, path)
    case MoveNode(path, targetPath) => if targetPath.None? then Some(state) else Move(state, path, targetPath.value, le)
  }

  /** The `addNode` branch. */
  function Add(state: TreeNode, path: Path, nodeType: Option<NodeType>, name: Option<string>, freshId: string, le: (string, string) -> bool): Option<TreeNode>
  {
    UpdateAt(state, path, AddUpdater(NewNode(freshId, name, nodeType), le))
  }

  /** The `deleteNode` branch. */
  function Delete(state: TreeNode, path: Path, le: (string, string) -> bool): Option<TreeNode>
  {
    UpdateAt(state, ParentPath(path), RemoveUpdater(LastIndex(path), le))
  }

  /** The `renameNode` branch. */
  function Rename(state: TreeNode, path: Path, name: Option<string>, le: (string, string) -> bool): Option<TreeNode>
  {
    UpdateAt(state, ParentPath(path), RenameUpdater(LastIndex(path), name, le))
  }

  /** The `toggleOpen` branch. */
  function ToggleAt(state: TreeNode, path: Path): Option<TreeNode>
  {
    UpdateAt(state, path, ToggleUpdater())
  }

  /** The `moveNode` branch once `targetPath` is known to be given. Its
      first `updateNodeAtPath` call runs the `deleteNode` updater on the
      source's parent, capturing the removed child as `nodeToMove`; the
      target path is then read in that new tree. */
  function Move(state: TreeNode, path: Path, targetPath: Path, le: (string, string) -> bool): Option<TreeNode>
  {
    match NodeAt(state, ParentPath(path))
    case None => None
    case Some(parent) =>
      var nodeToMove := TakeChild(parent, LastIndex(path), le).1;
      if nodeToMove.None? then Some(state)
      else UpdateAt(Delete(state, path, le).value, targetPath, AddUpdater(nodeToMove.value, le))
  }
}
