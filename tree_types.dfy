/** The data shape of the folder tree: a node and the actions of its reducer
    (src/components/FolderTree/types.ts). */
module TreeTypes {
  import opened Wrappers

  /** `'file' | 'folder'` */
  datatype NodeType = File | Folder

  /** A path: the child indices from the root down to a node. JavaScript
      `number[]`; indices may be any integer. */
  type Path = seq<int>

  /** The optional `children?: TreeNode[]` field: `undefined` or an array. */
  datatype Children = Undefined | Defined(nodes: seq<TreeNode>)

  /** A tree node. The optional fields of the TypeScript interface stay
      optional, so that `undefined` is distinguishable from `[]` and `false`.
      The field `type` is called `kind` here. */
  datatype TreeNode = TreeNode(
    id: string,
    name: string,
    kind: NodeType,
    children: Children,
    isOpen: Option<bool>,
    isEditing: Option<bool>)

  /** `node.children || []` */
  function Kids(n: TreeNode): seq<TreeNode>
  {
    match n.children
    case Undefined => []
    case Defined(s) => s
  }

  /** The five actions, each with the payload fields its reducer branch reads. */
  datatype TreeAction =
    | AddNode(path: Path, nodeType: Option<NodeType>, newName: Option<string>)
    | DeleteNode(path: Path)
    | RenameNode(path: Path, newName: Option<string>)
    | ToggleOpen(path: Path)
    | MoveNode(path: Path, targetPath: Option<Path>)

  /** The node at `path`, or `None` where `updateNodeAtPath` would read
      `undefined` and fault. */
  function NodeAt(t: TreeNode, path: Path): Option<TreeNode>
    decreases |path|
  {
    if |path| == 0 then Some(t)
    else if 0 <= path[0] < |Kids(t)| then NodeAt(Kids(t)[path[0]], path[1..])
    else None
  }
}
