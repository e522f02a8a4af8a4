/** The keyboard decisions of the refactored popup (refacto/popup.js): where
    the Ctrl+N and Ctrl+Shift+N shortcuts put the new node, what the right
    and left arrows do with the selected node, and the guard of the search
    box. Each is a decision over the selected id and the tree; the DOM side
    (scrolling, focus classes, whether the node's element is on screen) is
    not modelled. */
module PopupNavigation {
  import opened Text
  import opened Tree
  import opened TreeEdit

  /** `selectedNodeId` tested for truthiness: null and '' both mean "no
      selection". */
  predicate HasSelection(selected: Option<string>) {
    selected.Some? && selected.value != ""
  }

  /** The parent id `addChatFromShortcut` / `addFolderFromShortcut` hand to
      `addChat` / `addFolder`, or None when the handler does nothing. */
  function ShortcutTarget(data: Node, selected: Option<string>): Option<string> {
    if !HasSelection(selected) then Some("root")
    else
      var node := FindById(data, selected.value);
      if node.Some? && node.value.kind == Folder then Some(selected.value)
      else
        var parent := FindParent(data, selected.value);
        if parent.Some? then Some(parent.value.id) else None
  }

  /** The three outcomes the shortcut handlers distinguish: no selection
      means root, a selected folder receives the node, a selected chat hands
      it to its parent; a selection unknown to the tree does nothing. */
  lemma ShortcutTargetCases(data: Node, selected: Option<string>)
    ensures !HasSelection(selected) ==> ShortcutTarget(data, selected) == Some("root")
    ensures HasSelection(selected) && FindById(data, selected.value).Some? && FindById(data, selected.value).value.kind == Folder
      ==> ShortcutTarget(data, selected) == selected
    ensures HasSelection(selected) && FindById(data, selected.value).None? ==> ShortcutTarget(data, selected) == None
  {
    if HasSelection(selected) && FindById(data, selected.value).None? {
      var id := selected.value;
      FindByIdSucceedsIff(data, id);
      FindParentSucceedsIff(data, id);
      IdsOfAppend([data], Below(data));
      assert Ids(data) == [data.id] + IdsOf(Below(data));
    }
  }

  /** In a well-formed tree (unique ids, children only under folders) any
      destination other than 'root' is a folder of the tree. */
  lemma ShortcutTargetIsFolder(data: Node, selected: Option<string>)
    requires UniqueIds(data) && OnlyFoldersHaveChildren(data)
    requires ShortcutTarget(data, selected).Some? && ShortcutTarget(data, selected).value != "root"
    ensures var d := FindById(data, ShortcutTarget(data, selected).value);
      d.Some? && d.value.kind == Folder
  {
    var id := selected.value;
    var node := FindById(data, id);
    if !(node.Some? && node.value.kind == Folder) {
      var p := FindParent(data, id).value;
      FindParentIsParent(data, id);
      OnlyFoldersBelow(data, p);
      var i :| 0 <= i < |Preorder(data)| && Preorder(data)[i] == p;
      FindByIdUnique(data, i);
    }
  }

  /** What an arrow key asks for: nothing, `toggleFolder(id)` or
      `selectNode(id)`. */
  datatype Step = Stay | Toggle(id: string) | Select(id: string)

  /** `getFirstChild(folder)`: the first stored child, unsorted. */
  function FirstChild(folder: Node): (r: Option<Node>)
    ensures r.Some? <==> folder.hasChildren && |folder.children| > 0
    ensures r.Some? ==> r.value == folder.children[0]
  {
    if !folder.hasChildren || |folder.children| == 0 then None else Some(folder.children[0])
  }

  /** `expandOrNavigateRight()`: a folder whose `expanded` is falsy (absent
      included) is toggled open; an open folder selects its first child. */
  function RightStep(data: Node, selected: Option<string>): Step {
    if !HasSelection(selected) then Stay
    else
      var node := FindById(data, selected.value);
      if node.None? || node.value.kind != Folder then Stay
      else if !Truthy(node.value.expanded) then Toggle(selected.value)
      else
        var child := FirstChild(node.value);
        if child.Some? then Select(child.value.id) else Stay
  }

  /** `collapseOrNavigateLeft()`: an open folder is toggled closed; anything
      else selects its parent unless that parent is root. */
  function LeftStep(data: Node, selected: Option<string>): Step {
    if !HasSelection(selected) then Stay
    else
      var node := FindById(data, selected.value);
      if node.None? then Stay
      else if node.value.kind == Folder && Truthy(node.value.expanded) then Toggle(selected.value)
      else
        var parent := FindParent(data, selected.value);
        if parent.Some? && parent.value.id != "root" then Select(parent.value.id) else Stay
  }

  /** The tree after a step: `toggleFolder` flips the first folder with the
      id; selecting changes no node. */
  function Apply(data: Node, s: Step): Node {
    match s
    case Toggle(id) =>
      var f := FindById(data, id);
      if f.Some? && f.value.kind == Folder then UpdateFirst(data, id, Toggled) else data
    case _ => data
  }

  /** Right then left on a closed folder opens it and closes it again: both
      keys toggle the same folder, and the flag ends false (an absent flag
      ends false too, not absent). */
  lemma RightThenLeftCloses(data: Node, id: string)
    requires id != ""
    requires FindById(data, id).Some? && FindById(data, id).value.kind == Folder
    requires !Truthy(FindById(data, id).value.expanded)
    ensures RightStep(data, Some(id)) == Toggle(id)
    ensures var m, shown := FindById(data, id).value, Apply(data, Toggle(id));
      && FindById(shown, id) == Some(m.(expanded := Some(true)))
      && LeftStep(shown, Some(id)) == Toggle(id)
      && FindById(Apply(shown, Toggle(id)), id) == Some(m.(expanded := Some(false)))
  {
    var m := FindById(data, id).value;
    UpdateFirstFinds(data, id, Toggled);
    var shown := UpdateFirst(data, id, Toggled);
    assert FindById(shown, id) == Some(Toggled(m));
    UpdateFirstFinds(shown, id, Toggled);
  }

  /** Left on a node that is not an open folder selects the node's parent
      unless that parent is root, and that parent holds the node as a
      child. */
  lemma LeftSelectsParent(data: Node, id: string)
    requires id != "" && FindById(data, id).Some?
    requires !(FindById(data, id).value.kind == Folder && Truthy(FindById(data, id).value.expanded))
    ensures var p := FindParent(data, id);
      if p.Some? && p.value.id != "root" then
        && LeftStep(data, Some(id)) == Select(p.value.id)
        && exists j :: 0 <= j < |p.value.children| && p.value.children[j].id == id
      else LeftStep(data, Some(id)) == Stay
  {
    FindParentIsParent(data, id);
  }

  /** Right on an open folder selects its first stored child, or does
      nothing when the folder is empty. */
  lemma RightSelectsFirstChild(data: Node, id: string)
    requires id != "" && FindById(data, id).Some?
    requires FindById(data, id).value.kind == Folder && Truthy(FindById(data, id).value.expanded)
    ensures var f := FindById(data, id).value;
      if f.hasChildren && |f.children| > 0 then RightStep(data, Some(id)) == Select(f.children[0].id)
      else RightStep(data, Some(id)) == Stay
  {
  }

  /** The search box of the refactored popup: the trimmed query is searched
      when it has at least two characters, otherwise the results block is
      hidden. */
  function SearchBoxQuery(raw: string): (r: Option<string>)
    ensures r.Some? <==> |Trim(raw)| >= 2
    ensures r.Some? ==> r.value == Trim(r.value) && r.value == Trim(raw)
  {
    TrimIdempotent(raw);
    if |Trim(raw)| >= 2 then Some(Trim(raw)) else None
  }
}
