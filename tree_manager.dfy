/** The `TreeManager` class of the refactored extension: a root node and the
    operations that change the tree below it in place. Moves into a chat are
    refused, a delete throws away the whole subtree, and there is no check
    against moving a node into its current parent. */
module TreeManager {
  import opened Tree
  import opened TreeEdit

  /** The tree a manager starts with when it is given none. */
  function DefaultRoot(): (n: Node)
    ensures n.id == "root" && n.name == "Accueil" && n.kind == Folder
    ensures n.hasChildren && n.children == [] && n.expanded == Some(true)
  {
    FolderNode("root", "Accueil", true)
  }

  /** The fields of a `data` object handed to `editNode` or `createNode`;
      None is a property the object does not have. For the optional
      properties, Some(None) sets them to null. */
  datatype Patch = Patch(
    id: Option<string>,
    name: Option<string>,
    kind: Option<Kind>,
    children: Option<seq<Node>>,
    expanded: Option<Option<bool>>,
    link: Option<Option<string>>,
    tag: Option<Option<string>>,
    tags: Option<seq<string>>,
    parentId: Option<Option<string>>)

  const NoPatch := Patch(None, None, None, None, None, None, None, None, None)

  /** The value a property takes: the assigned one if there is one. */
  function Or<T>(given: Option<T>, current: T): T {
    if given.Some? then given.value else current
  }

  /** `Object.assign(node, data)`: every property data has replaces the
      node's, and every other property is kept (MergeLaws). */
  function Merge(n: Node, d: Patch): Node {
    Node(Or(d.id, n.id), Or(d.name, n.name), Or(d.kind, n.kind),
      d.children.Some? || n.hasChildren, Or(d.children, n.children),
      Or(d.expanded, n.expanded), Or(d.link, n.link), Or(d.tag, n.tag), Or(d.tags, n.tags),
      Or(d.parentId, n.parentId), n.forms)
  }

  /** The properties of d, with those of e assigned over them. */
  function Overlay(d: Patch, e: Patch): Patch {
    Patch(
      if e.id.Some? then e.id else d.id,
      if e.name.Some? then e.name else d.name,
      if e.kind.Some? then e.kind else d.kind,
      if e.children.Some? then e.children else d.children,
      if e.expanded.Some? then e.expanded else d.expanded,
      if e.link.Some? then e.link else d.link,
      if e.tag.Some? then e.tag else d.tag,
      if e.tags.Some? then e.tags else d.tags,
      if e.parentId.Some? then e.parentId else d.parentId)
  }

  /** Assigning nothing changes nothing, assigning twice is assigning once,
      and two assignments in a row are one assignment of the overlaid data. */
  lemma MergeLaws(n: Node, d: Patch, e: Patch)
    ensures Merge(n, NoPatch) == n
    ensures Merge(Merge(n, d), d) == Merge(n, d)
    ensures Merge(Merge(n, d), e) == Merge(n, Overlay(d, e))
  {
  }

  /** The node `createNode(type, parentId, data)` builds: the generated id,
      the type and `data.name`, then every property of data spread over
      them (a `data.id` replaces the generated id), and for a folder an
      empty child list and `expanded = false` on top. */
  function NewNode(kind: Kind, d: Patch, freshId: string): (r: Node)
    ensures d.id.Some? ==> r.id == d.id.value
    ensures d.id.None? ==> r.id == freshId
    ensures kind == Folder ==> r.hasChildren && r.children == [] && r.expanded == Some(false)
  {
    var base := Node(freshId, if d.name.Some? then d.name.value else "", kind, false, [], None, None, None, [], None, NoForms);
    var spread := Merge(base, d);
    if kind == Folder then spread.(hasChildren := true, children := [], expanded := Some(false)) else spread
  }

  /** The refused moves of `moveNode`: the literal id 'root' or the target
      itself as source, an unknown source or target, a target without a
      child list, a target the source reaches through folders. */
  predicate MoveRefused(root: Node, sourceId: string, targetId: string) {
    || sourceId == "root" || sourceId == targetId
    || FindById(root, sourceId).None? || FindById(root, targetId).None?
    || !FindById(root, targetId).value.hasChildren
    || FolderDescendant(FindById(root, sourceId).value, targetId)
  }

  /** The tree after an accepted move: `deleteNode(sourceId)` (which spares
      a root carrying that id), then the source pushed onto the target. */
  function Moved(root: Node, sourceId: string, targetId: string): Node
    requires FindById(root, sourceId).Some?
  {
    var source := FindById(root, sourceId).value;
    var afterDelete := if root.id == sourceId then root else DeleteById(root, sourceId).tree;
    AddChild(afterDelete, targetId, source)
  }

  /** On a tree with unique ids whose chats have no children, an accepted
      move keeps the multiset of ids (nothing lost, nothing duplicated),
      leaves the source as the target's last child, and never puts the
      target inside the source's subtree. */
  lemma MoveKeepsNodes(root: Node, sourceId: string, targetId: string)
    requires UniqueIds(root) && OnlyFoldersHaveChildren(root)
    requires !MoveRefused(root, sourceId, targetId)
    ensures targetId !in Ids(FindById(root, sourceId).value)
    ensures multiset(Ids(Moved(root, sourceId, targetId))) == multiset(Ids(root))
    ensures var t := FindById(Moved(root, sourceId, targetId), targetId);
      t.Some? && t.value.hasChildren && |t.value.children| > 0
      && t.value.children[|t.value.children| - 1] == FindById(root, sourceId).value
  {
    var source := FindById(root, sourceId).value;
    TargetOutsideSource(root, sourceId, targetId);
    var i := SourceBelowRoot(root, sourceId, targetId);
    DeleteSourceRemovesIt(root, source, i);
    var del := DeleteById(root, sourceId);
    DeleteByIdRemoves(root, sourceId);
    TargetSurvives(root, del.tree, source, targetId);
    AddChildAppends(del.tree, targetId, source);
  }

  /** The source's subtree does not hold the target's id. */
  lemma TargetOutsideSource(root: Node, sourceId: string, targetId: string)
    requires OnlyFoldersHaveChildren(root)
    requires !MoveRefused(root, sourceId, targetId)
    ensures targetId !in Ids(FindById(root, sourceId).value)
  {
    var source := FindById(root, sourceId).value;
    FindByIdInTree(root, sourceId);
    OnlyFoldersBelow(root, source);
    FolderDescendantAgrees(source, targetId);
    AnyDescendantIff(source, targetId);
    IdsOfAppend([source], Below(source));
  }

  /** The source of an accepted move is not the root: the root reaches every
      other id through folders, the target's included. The source's position
      in pre-order is returned. */
  lemma SourceBelowRoot(root: Node, sourceId: string, targetId: string) returns (i: int)
    requires OnlyFoldersHaveChildren(root)
    requires !MoveRefused(root, sourceId, targetId)
    ensures 0 < i < |Preorder(root)| && Preorder(root)[i] == FindById(root, sourceId).value
    ensures root.id != sourceId
  {
    var source := FindById(root, sourceId).value;
    if root.id == sourceId {
      assert source == root;
      FindByIdSucceedsIff(root, targetId);
      IdsOfAppend([root], Below(root));
      AnyDescendantIff(root, targetId);
      FolderDescendantAgrees(root, targetId);
    }
    FindByIdInTree(root, sourceId);
    var s := Preorder(root);
    i :| 0 <= i < |s| && s[i] == source;
  }

  class TreeManager {
    var root: Node

    /** `new TreeManager(root)`: the given tree, or the default one. */
    constructor (given: Option<Node>)
      ensures root == if given.Some? then given.value else DefaultRoot()
    {
      root := if given.Some? then given.value else DefaultRoot();
    }

    /** `addNode(parentId, node)`: false and no change for an unknown parent;
        otherwise the node is appended to the parent's children, whatever
        the parent's type. */
    method AddNode(parentId: string, newNode: Node) returns (ok: bool)
      modifies this
      ensures ok == FindById(old(root), parentId).Some?
      ensures ok ==> root == AddChild(old(root), parentId, newNode)
      ensures !ok ==> root == old(root)
    {
      var parent := FindById(root, parentId);
      if parent.None? {
        return false;
      }
      root := AddChild(root, parentId, newNode);
      return true;
    }

    /** `editNode(nodeId, data)`: false for an unknown id; otherwise every
        property of data is assigned onto the node. */
    method EditNode(nodeId: string, data: Patch) returns (ok: bool)
      modifies this
      ensures ok == FindById(old(root), nodeId).Some?
      ensures ok ==> root == UpdateFirst(old(root), nodeId, (n: Node) => Merge(n, data))
      ensures !ok ==> root == old(root)
    {
      var node := FindById(root, nodeId);
      if node.None? {
        return false;
      }
      root := UpdateFirst(root, nodeId, (n: Node) => Merge(n, data));
      return true;
    }

    /** `deleteNode(nodeId)`: refused for the root's id; otherwise the first
        match, searched as DeleteById does, is cut out with its subtree. */
    method DeleteNode(nodeId: string) returns (ok: bool)
      modifies this
      ensures old(root).id == nodeId ==> !ok && root == old(root)
      ensures old(root).id != nodeId ==>
        ok == DeleteById(old(root), nodeId).removed.Some? && root == DeleteById(old(root), nodeId).tree
    {
      if root.id == nodeId {
        return false;
      }
      var r := DeleteNodeById(root, nodeId);
      root := r.tree;
      ok := r.removed.Some?;
    }

    /** `moveNode(sourceId, targetId)`. */
    method MoveNode(sourceId: string, targetId: string) returns (ok: bool)
      modifies this
      ensures ok == !MoveRefused(old(root), sourceId, targetId)
      ensures ok ==> root == Moved(old(root), sourceId, targetId)
      ensures !ok ==> root == old(root)
    {
      if sourceId == "root" || sourceId == targetId {
        return false;
      }
      var sourceNode := FindById(root, sourceId);
      var targetNode := FindById(root, targetId);
      if sourceNode.None? || targetNode.None? || !targetNode.value.hasChildren {
        return false;
      }
      if FolderDescendant(sourceNode.value, targetId) {
        return false;
      }
      var _ := DeleteNode(sourceId);
      root := AddChild(root, targetId, sourceNode.value);
      return true;
    }

    /** `createNode(type, parentId, data)`: None for an unknown parent;
        otherwise the new node is appended last and returned. */
    method CreateNode(kind: Kind, parentId: string, data: Patch, freshId: string) returns (created: Option<Node>)
      requires freshId !in Ids(root)
      modifies this
      ensures FindById(old(root), parentId).None? ==> created == None && root == old(root)
      ensures FindById(old(root), parentId).Some? ==>
        created == Some(NewNode(kind, data, freshId)) && root == AddChild(old(root), parentId, created.value)
    {
      var parent := FindById(root, parentId);
      if parent.None? {
        return None;
      }
      var newNode := NewNode(kind, data, freshId);
      root := AddChild(root, parentId, newNode);
      return Some(newNode);
    }

    /** `toggleNode(nodeId)`: only an existing folder has its flag flipped. */
    method ToggleNode(nodeId: string) returns (ok: bool)
      modifies this
      ensures ok == (FindById(old(root), nodeId).Some? && FindById(old(root), nodeId).value.kind == Folder)
      ensures ok ==> root == UpdateFirst(old(root), nodeId, Toggled)
      ensures !ok ==> root == old(root)
    {
      var node := FindById(root, nodeId);
      if node.None? || node.value.kind != Folder {
        return false;
      }
      root := UpdateFirst(root, nodeId, Toggled);
      return true;
    }

    /** `expandAll()`. */
    method ExpandAll()
      modifies this
      ensures root == SetAllExpanded(old(root), true)
    {
      root := FlagFolders(root, true);
    }

    /** `collapseAll()`. */
    method CollapseAll()
      modifies this
      ensures root == SetAllExpanded(old(root), false)
    {
      root := FlagFolders(root, false);
    }
  }

  /** An accepted createNode leaves the new node last under its parent and
      adds exactly the ids of the new node: its own id alone (the generated
      one unless data carries an id) when it has no child list from data. */
  lemma CreateNodeAppends(root: Node, kind: Kind, parentId: string, data: Patch, freshId: string)
    requires FindById(root, parentId).Some?
    ensures var c := NewNode(kind, data, freshId);
      && multiset(Ids(AddChild(root, parentId, c))) == multiset(Ids(root)) + multiset(Ids(c))
      && FindById(AddChild(root, parentId, c), parentId) == Some(Append(FindById(root, parentId).value, c))
      && (kind == Folder || data.children.None? ==> Ids(c) == [c.id])
  {
    var c := NewNode(kind, data, freshId);
    AddChildAppends(root, parentId, c);
    if kind == Folder || data.children.None? {
      assert Below(c) == [];
      IdsOfAppend([c], Below(c));
    }
  }
}
