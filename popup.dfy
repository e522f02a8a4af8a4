/** The inline tree code of the popup scripts. popup.js and refacto/popup.js
    carry the same functions line for line; both are modelled here once.
    Their rules differ from the TreeManager class: deleting a folder first
    lifts every chat beneath it into the folder's parent, a move onto a chat
    goes to that chat's parent, a move into the current parent is refused
    unless the target is root, and creating a node opens a collapsed
    parent. */
module Popup {
  import opened Text
  import opened Tree
  import opened TreeEdit

  // ---------------------------------------------------------------------
  // moveAllChatsToParent
  // ---------------------------------------------------------------------

  /** Pushes xs, in order, onto p's children. The child list is created by
      the first push, so nothing at all happens when xs is empty. */
  function Push(p: Node, xs: seq<Node>): (r: Node)
    ensures xs == [] ==> r == p
    ensures xs != [] ==> r.hasChildren && r.children == Kids(p) + xs
    ensures p.hasChildren ==> r == p.(children := p.children + xs)
  {
    if xs == [] then p else AppendAll(p, xs)
  }

  lemma PushPush(p: Node, a: seq<Node>, b: seq<Node>)
    ensures Push(Push(p, a), b) == Push(p, a + b)
  {
    if a == [] {
      assert a + b == b;
    } else if b == [] {
      assert a + b == a;
    } else {
      assert Kids(p) + a + b == Kids(p) + (a + b);
    }
  }

  /** The chats one child contributes to the lifting walk. */
  function ChatsOf(c: Node): seq<Node> {
    match c.kind
    case Chat => [c]
    case Folder => ChatsUnder(c)
    case OtherKind(_) => []
  }

  lemma {:induction false} ChatsUnderListAppend(a: seq<Node>, b: seq<Node>)
    ensures ChatsUnderList(a + b) == ChatsUnderList(a) + ChatsUnderList(b)
  {
    if a == [] {
      assert a + b == b;
    } else {
      assert (a + b)[0] == a[0] && (a + b)[1..] == a[1..] + b;
      ChatsUnderListAppend(a[1..], b);
    }
  }

  lemma ChatsUnderListSnoc(cs: seq<Node>, i: int)
    requires 0 <= i < |cs|
    ensures ChatsUnderList(cs[..i + 1]) == ChatsUnderList(cs[..i]) + ChatsOf(cs[i])
  {
    assert cs[..i + 1] == cs[..i] + [cs[i]];
    ChatsUnderListAppend(cs[..i], [cs[i]]);
    assert [cs[i]][1..] == [];
  }

  /** The parent after `moveAllChatsToParent(folder, parent)`: every chat
      reachable from the folder through folders, depth first and in child
      order, pushed onto the parent's children. */
  function Lifted(folder: Node, parent: Node): Node {
    Push(parent, ChatsUnder(folder))
  }

  /** `moveAllChatsToParent(folderNode, parentNode)`: the `for … of` over the
      folder's children, pushing chats and recursing into folders. */
  method MoveAllChatsToParent(folder: Node, parent: Node) returns (p: Node)
    ensures p == Lifted(folder, parent)
    decreases folder
  {
    if !folder.hasChildren {
      return parent;
    }
    var cs := folder.children;
    p := parent;
    var i := 0;
    while i < |cs|
      invariant 0 <= i <= |cs|
      invariant p == Push(parent, ChatsUnderList(cs[..i]))
    {
      var c := cs[i];
      ChatsUnderListSnoc(cs, i);
      if c.kind == Chat {
        p := p.(hasChildren := true, children := Kids(p) + [c]);
        PushPush(parent, ChatsUnderList(cs[..i]), [c]);
      } else if c.kind == Folder {
        p := MoveAllChatsToParent(c, p);
        PushPush(parent, ChatsUnderList(cs[..i]), ChatsUnder(c));
      } else {
        assert ChatsOf(c) == [];
        assert ChatsUnderList(cs[..i]) + [] == ChatsUnderList(cs[..i]);
      }
      i := i + 1;
    }
    assert cs[..|cs|] == cs;
  }

  // ---------------------------------------------------------------------
  // deleteNode: flatten, then delete
  // ---------------------------------------------------------------------

  /** What `deleteNode` does to the parent `findParentNode` returned: a
      folder's chats are lifted into it, then `deleteNodeById(parent, id)`. */
  function DropChild(p: Node, node: Node, id: string): Node {
    DeleteById(if node.kind == Folder then Lifted(node, p) else p, id).tree
  }

  /** The tree after `deleteNode(nodeId)` with the answer of the confirmation
      dialog as input: nothing happens for an unknown id, for a folder with
      the id 'root', without confirmation, or when no parent is found. */
  function AfterDelete(data: Node, nodeId: string, confirmed: bool): Node {
    var node := FindById(data, nodeId);
    if node.None? || (node.value.kind == Folder && nodeId == "root") || !confirmed then data
    else UpdateParentOf(data, nodeId, DropFrom(node.value, nodeId))
  }

  function DropFrom(node: Node, id: string): Node -> Node {
    (p: Node) => DropChild(p, node, id)
  }

  /** The delete goes through to `deleteNodeById` (and `saveData`). */
  predicate DeleteRuns(data: Node, nodeId: string, confirmed: bool) {
    var node := FindById(data, nodeId);
    && node.Some? && !(node.value.kind == Folder && nodeId == "root") && confirmed
    && FindParent(data, nodeId).Some?
  }

  /** The top node is never deleted: with unique ids it has no parent, so a
      delete of its id changes nothing. */
  lemma RootNeverDeleted(data: Node, confirmed: bool)
    requires UniqueIds(data)
    ensures AfterDelete(data, data.id, confirmed) == data
  {
    FindParentSucceedsIff(data, data.id);
    IdsOfAppend([data], Below(data));
    var s := IdsOf(Below(data));
    forall j | 0 <= j < |s| ensures s[j] != data.id {
      assert Ids(data)[0] != Ids(data)[j + 1];
    }
  }

  /** With unique ids, the child of the found parent that carries the id is
      the node findById returns. */
  lemma ParentHoldsNode(data: Node, id: string)
    requires UniqueIds(data) && FindParent(data, id).Some? && FindById(data, id).Some?
    ensures var p := FindParent(data, id).value;
      && p.hasChildren && 0 <= IndexOfId(p.children, id)
      && p.children[IndexOfId(p.children, id)] == FindById(data, id).value
      && p in Preorder(data)
  {
    var p := FindParent(data, id).value;
    FindParentIsParent(data, id);
    var k := IndexOfId(p.children, id);
    ChildSubtreeInPreorder(p, k);
    PreorderTrans(data, p, p.children[k]);
    FindByIdInTree(data, id);
    SameIdSameNode(data, p.children[k], FindById(data, id).value);
  }

  /** Chats of a tree whose chats have no children are leaves. */
  lemma {:induction false} LeavesPreorder(cs: seq<Node>)
    requires forall i :: 0 <= i < |cs| ==> Kids(cs[i]) == []
    ensures PreorderIn(cs) == cs
  {
    if cs != [] {
      LeavesPreorder(cs[1..]);
      assert Preorder(cs[0]) == [cs[0]];
    }
  }

  lemma ChatsAreLeaves(data: Node, node: Node)
    requires OnlyFoldersHaveChildren(data) && node in Preorder(data)
    ensures PreorderIn(ChatsUnder(node)) == ChatsUnder(node)
    ensures CountChatsInList(ChatsUnder(node)) == |ChatsUnder(node)| == CountChatsInFolder(node)
  {
    var cs := ChatsUnder(node);
    CountChatsInFolderCounts(node);
    forall i | 0 <= i < |cs| ensures Kids(cs[i]) == [] {
      assert cs[i] in Below(node);
      PreorderTrans(data, node, cs[i]);
      OnlyFoldersBelow(data, cs[i]);
    }
    LeavesPreorder(cs);
    AllChatsCount(cs);
  }

  lemma {:induction false} AllChatsCount(cs: seq<Node>)
    requires forall i :: 0 <= i < |cs| ==> cs[i].kind == Chat
    ensures CountChatsInList(cs) == |cs|
  {
    if cs != [] {
      AllChatsCount(cs[1..]);
    }
  }

  /** Dropping a folder child splices it out of the parent's children once
      its chats are appended behind them. */
  lemma DropIsSplice(p: Node, node: Node, id: string)
    requires p.hasChildren && 0 <= IndexOfId(p.children, id) && p.children[IndexOfId(p.children, id)] == node
    requires node.kind == Folder
    ensures var q := p.(children := p.children + ChatsUnder(node));
      && q.children[IndexOfId(p.children, id)] == node
      && DropChild(p, node, id) == q.(children := Without(q.children, IndexOfId(p.children, id)))
  {
    IndexOfIdPrefix(p.children, ChatsUnder(node), id);
  }

  /** Dropping a folder child from its parent: the chats it held are still
      counted under the parent, and the parent trades the folder's ids for
      those of its chats. */
  lemma DropFolderChild(p: Node, node: Node, id: string, chats: seq<Node>)
    requires p.hasChildren && 0 <= IndexOfId(p.children, id) && p.children[IndexOfId(p.children, id)] == node
    requires node.kind == Folder && chats == ChatsUnder(node)
    requires PreorderIn(chats) == chats && CountChatsInList(chats) == |chats| == CountChatsInFolder(node)
    ensures CountChatsInFolder(DropChild(p, node, id)) == CountChatsInFolder(p)
    ensures DropChild(p, node, id).kind == p.kind && DropChild(p, node, id).id == p.id
    ensures multiset(Ids(DropChild(p, node, id))) + multiset(Ids(node)) == multiset(Ids(p)) + multiset(IdsOf(chats))
  {
    var q := p.(children := p.children + chats);
    var k := IndexOfId(p.children, id);
    DropIsSplice(p, node, id);
    var r := q.(children := Without(q.children, k));
    assert CountChatsInFolder(r) == CountChatsInFolder(p) by {
      CountChatsInListSplit(q.children, k, node);
      CountChatsInListAppend(p.children, chats);
    }
    assert multiset(Ids(r)) + multiset(Ids(node)) == multiset(Ids(p)) + multiset(IdsOf(chats)) by {
      IdsRemoveChild(q, k);
      IdsAppendAll(p, chats);
      assert AppendAll(p, chats) == q;
    }
  }

  /** findIndex on a longer list finds the same first match when the prefix
      already holds one. */
  lemma {:induction false} IndexOfIdPrefix(a: seq<Node>, b: seq<Node>, id: string)
    requires 0 <= IndexOfId(a, id)
    ensures IndexOfId(a + b, id) == IndexOfId(a, id)
  {
    if a[0].id != id {
      assert (a + b)[1..] == a[1..] + b;
      IndexOfIdPrefix(a[1..], b, id);
    }
  }

  /** The facts both flattening lemmas start from: the folder's parent is
      found, and dropping the folder from it keeps the parent's chat count
      and trades the folder's ids for its chats' ids. */
  lemma FlattenSetup(data: Node, nodeId: string)
    requires UniqueIds(data) && OnlyFoldersHaveChildren(data)
    requires FindById(data, nodeId).Some? && FindById(data, nodeId).value.kind == Folder
    requires nodeId != data.id
    ensures FindParent(data, nodeId).Some?
    ensures var p, node := FindParent(data, nodeId).value, FindById(data, nodeId).value;
      && CountChatsInFolder(DropChild(p, node, nodeId)) == CountChatsInFolder(p)
      && DropChild(p, node, nodeId).kind == p.kind
      && multiset(Ids(DropChild(p, node, nodeId))) + multiset(Ids(node)) == multiset(Ids(p)) + multiset(IdsOf(ChatsUnder(node)))
  {
    var node := FindById(data, nodeId).value;
    FindByIdSucceedsIff(data, nodeId);
    FindParentSucceedsIff(data, nodeId);
    IdsOfAppend([data], Below(data));
    assert nodeId in IdsOf(Below(data));
    ParentHoldsNode(data, nodeId);
    var p := FindParent(data, nodeId).value;
    FindByIdInTree(data, nodeId);
    ChatsAreLeaves(data, node);
    DropFolderChild(p, node, nodeId, ChatsUnder(node));
  }

  /** A confirmed delete of a folder other than the top node loses no chat:
      the chats below it are lifted into its parent, so the chat count under
      the root is unchanged. */
  lemma FlattenKeepsChats(data: Node, nodeId: string)
    requires UniqueIds(data) && OnlyFoldersHaveChildren(data)
    requires FindById(data, nodeId).Some? && FindById(data, nodeId).value.kind == Folder
    requires nodeId != "root" && nodeId != data.id
    ensures CountChatsInFolder(AfterDelete(data, nodeId, true)) == CountChatsInFolder(data)
  {
    var node := FindById(data, nodeId).value;
    var g := DropFrom(node, nodeId);
    FlattenSetup(data, nodeId);
    UpdateParentOfKeepsChatCount(data, nodeId, g);
  }

  /** The same delete removes exactly the folder's subtree except its chats:
      the tree trades the folder's ids for those of the chats below it. */
  lemma FlattenTradesIds(data: Node, nodeId: string)
    requires UniqueIds(data) && OnlyFoldersHaveChildren(data)
    requires FindById(data, nodeId).Some? && FindById(data, nodeId).value.kind == Folder
    requires nodeId != "root" && nodeId != data.id
    ensures var node := FindById(data, nodeId).value;
      multiset(Ids(AfterDelete(data, nodeId, true))) + multiset(Ids(node))
      == multiset(Ids(data)) + multiset(IdsOf(ChatsUnder(node)))
  {
    var node := FindById(data, nodeId).value;
    var g := DropFrom(node, nodeId);
    FlattenSetup(data, nodeId);
    var p := FindParent(data, nodeId).value;
    UpdateParentOfIds(data, nodeId, g);
    Trade(multiset(Ids(data)), multiset(Ids(AfterDelete(data, nodeId, true))), multiset(Ids(p)),
          multiset(Ids(g(p))), multiset(Ids(node)), multiset(IdsOf(ChatsUnder(node))));
  }

  // ---------------------------------------------------------------------
  // moveNode
  // ---------------------------------------------------------------------

  /** The tree after a move attempt and the function's return value. */
  datatype MoveResult = MoveResult(data: Node, ok: bool)

  /** `sourceParent.children.splice(sourceIndex, 1)`. */
  function Unlink(p: Node, id: string): Node {
    var k := IndexOfId(Kids(p), id);
    if k < 0 then p else p.(children := Without(p.children, k))
  }

  /** The tree once the source is spliced out of its parent's children. */
  function Cut(data: Node, s: string): Node {
    UpdateParentOf(data, s, (p: Node) => Unlink(p, s))
  }

  /** Pushes c onto the children of the parent `findParentNode` finds for
      id. */
  function AddBeside(data: Node, id: string, c: Node): Node {
    UpdateParentOf(data, id, (p: Node) => Append(p, c))
  }

  /** `moveNode(sourceNodeId, targetNodeId)` of the popups. */
  function PopupMove(data: Node, s: string, t: string): MoveResult {
    if s == t || s == "root" then MoveResult(data, false)
    else
      var source, target := FindById(data, s), FindById(data, t);
      if source.None? || target.None? then MoveResult(data, false)
      else
        var sourceParent := FindParent(data, s);
        if t != "root" && sourceParent.Some? && sourceParent.value.id == t then MoveResult(data, false)
        else if AnyDescendant(source.value, t) then MoveResult(data, false)
        else if sourceParent.None? then MoveResult(data, false)
        else
          var sp := sourceParent.value;
          var k := IndexOfId(Kids(sp), s);
          if k < 0 then MoveResult(data, false)
          else
            var moved := sp.children[k];
            var cut := Cut(data, s);
            if target.value.kind == Folder || t == "root" then
              MoveResult(AddChild(cut, t, moved), true)
            else if FindParent(cut, t).Some? then
              MoveResult(AddBeside(cut, t, moved), true)
            else
              // the source is spliced back at its index
              MoveResult(data, false)
  }

  /** The move is refused, with the tree unchanged, exactly in the cases the
      source lists; an accepted move satisfies all of its checks. */
  lemma PopupMoveChecks(data: Node, s: string, t: string)
    ensures !PopupMove(data, s, t).ok ==> PopupMove(data, s, t).data == data
    ensures PopupMove(data, s, t).ok ==>
      && s != t && s != "root"
      && FindById(data, s).Some? && FindById(data, t).Some?
      && FindParent(data, s).Some?
      && (t == "root" || FindParent(data, s).value.id != t)
      && !AnyDescendant(FindById(data, s).value, t)
  {
  }

  /** Cutting the source out of its parent loses exactly the source's
      subtree. */
  lemma CutRemovesSource(data: Node, s: string)
    requires UniqueIds(data) && FindById(data, s).Some? && FindParent(data, s).Some?
    ensures multiset(Ids(Cut(data, s))) + multiset(Ids(FindById(data, s).value)) == multiset(Ids(data))
  {
    var sp := FindParent(data, s).value;
    ParentHoldsNode(data, s);
    var k := IndexOfId(sp.children, s);
    var h := (p: Node) => Unlink(p, s);
    assert h(sp) == sp.(children := Without(sp.children, k));
    UpdateParentOfIds(data, s, h);
    IdsRemoveChild(sp, k);
    Trade(multiset(Ids(data)), multiset(Ids(Cut(data, s))), multiset(Ids(sp)), multiset(Ids(h(sp))),
          multiset(Ids(sp.children[k])), multiset{});
  }

  /** An accepted move moves the source node itself, which does not hold
      the target's id, and the target survives the cut. */
  lemma AcceptedMoveSetup(data: Node, s: string, t: string)
    requires UniqueIds(data) && PopupMove(data, s, t).ok
    ensures var sp := FindParent(data, s).value;
      && sp.hasChildren && 0 <= IndexOfId(sp.children, s)
      && sp.children[IndexOfId(sp.children, s)] == FindById(data, s).value
    ensures t !in Ids(FindById(data, s).value)
    ensures multiset(Ids(Cut(data, s))) + multiset(Ids(FindById(data, s).value)) == multiset(Ids(data))
    ensures FindById(Cut(data, s), t).Some?
  {
    var source := FindById(data, s).value;
    ParentHoldsNode(data, s);
    AnyDescendantIff(source, t);
    IdsOfAppend([source], Below(source));
    CutRemovesSource(data, s);
    TargetSurvives(data, Cut(data, s), source, t);
  }

  /** The tree an accepted move produces. */
  lemma AcceptedMoveIs(data: Node, s: string, t: string)
    requires UniqueIds(data) && PopupMove(data, s, t).ok
    ensures var source := FindById(data, s).value;
      if FindById(data, t).value.kind == Folder || t == "root" then
        PopupMove(data, s, t).data == AddChild(Cut(data, s), t, source)
      else
        && FindParent(Cut(data, s), t).Some?
        && PopupMove(data, s, t).data == AddBeside(Cut(data, s), t, source)
  {
    ParentHoldsNode(data, s);
    var sp := FindParent(data, s).value;
    assert Kids(sp) == sp.children;
  }

  /** Pushing beside a chat keeps the ids plus the pushed node's, and leaves
      the node as the last child of the chat's parent. */
  lemma AddBesideAppends(cut: Node, t: string, c: Node)
    requires FindParent(cut, t).Some?
    ensures multiset(Ids(AddBeside(cut, t, c))) == multiset(Ids(cut)) + multiset(Ids(c))
    ensures LastChildIs(FindParent(AddBeside(cut, t, c), t), c)
  {
    var tp := FindParent(cut, t).value;
    FindParentIsParent(cut, t);
    var h := (p: Node) => Append(p, c);
    assert AddBeside(cut, t, c) == UpdateParentOf(cut, t, h);
    assert h(tp) == Append(tp, c);
    UpdateParentOfIds(cut, t, h);
    IdsAppend(tp, c);
    Cancel(multiset(Ids(AddBeside(cut, t, c))), multiset(Ids(cut)) + multiset(Ids(c)), multiset(Ids(tp)));
    assert forall p :: h(p).id == p.id;
    assert Kids(tp) == tp.children;
    assert h(tp).children[..|tp.children|] == tp.children;
    UpdateParentOfFinds(cut, t, h);
  }

  /** An accepted move keeps every node exactly once (the node count is
      unchanged), and the source ends as the last child of the target, or,
      for a chat target other than root, of the chat's parent. */
  lemma PopupMoveKeepsNodes(data: Node, s: string, t: string)
    requires UniqueIds(data) && PopupMove(data, s, t).ok
    ensures multiset(Ids(PopupMove(data, s, t).data)) == multiset(Ids(data))
    ensures var r, source := PopupMove(data, s, t).data, FindById(data, s).value;
      LastChildIs(if FindById(data, t).value.kind == Folder || t == "root" then FindById(r, t) else FindParent(r, t), source)
  {
    var source := FindById(data, s).value;
    var cut := Cut(data, s);
    var r := PopupMove(data, s, t).data;
    AcceptedMoveSetup(data, s, t);
    AcceptedMoveIs(data, s, t);
    if FindById(data, t).value.kind == Folder || t == "root" {
      assert r == AddChild(cut, t, source);
      AddChildAppends(cut, t, source);
      AppendLast(FindById(cut, t).value, source);
    } else {
      assert r == AddBeside(cut, t, source);
      AddBesideAppends(cut, t, source);
    }
  }

  /** Example: moving a chat onto its sibling chat is accepted and only re-appends the
      chat at the end of the shared parent. */
  lemma MoveOntoSiblingChat()
    ensures var a := ChatNode("a", "A", Some("https://a"), None);
      var b := ChatNode("b", "B", Some("https://b"), None);
      var top := FolderNode("root", "Accueil", true).(children := [a, b]);
      PopupMove(top, "a", "b") == MoveResult(top.(children := [b, a]), true)
  {
    var a := ChatNode("a", "A", Some("https://a"), None);
    var b := ChatNode("b", "B", Some("https://b"), None);
    var top := FolderNode("root", "Accueil", true).(children := [a, b]);
    assert [a, b][1..] == [b];
    assert FindById(a, "b") == None && FindById(b, "b") == Some(b);
    assert FirstFound([b], "b") == 0;
    assert FirstFound([a, b], "b") == 1;
    assert FindById(top, "a") == Some(a) && FindById(top, "b") == Some(b);
    assert FindParent(top, "a") == Some(top);
    var cut := top.(children := [b]);
    assert Cut(top, "a") == cut;
    assert FindParent(cut, "b") == Some(cut);
    assert AddBeside(cut, "b", a) == top.(children := [b, a]);
  }
}
