/** The archived `TreeManager` (refacto-archive/code-extraits/TreeManager.js):
    the third variant of the tree store. Its `isDescendant` counts the node
    itself, moves report errors instead of returning false, its delete
    searches every child, and it keeps the inline-form flags
    `isCreatingChat` / `isCreatingFolder` / `isEditing` on the nodes, at
    most one node at a time. */
module ArchiveTreeManager {
  import opened Tree
  import opened TreeEdit
  import opened Seqs
  import opened Text

  // ---------------------------------------------------------------------
  // deleteNodeById: splice at the level where the id is found, otherwise
  // descend into every child
  // ---------------------------------------------------------------------

  /** The tree after `deleteNodeById(p, id)` and the subtrees it spliced out. */
  datatype Pruning = Pruning(tree: Node, cut: seq<Node>)

  /** The same for the walk over a child list: the new children, and
      everything spliced out below them. */
  datatype PrunedList = PrunedList(trees: seq<Node>, cut: seq<Node>)

  /** A child carrying the id is spliced out (the first one only) and the
      walk stops; otherwise every child is searched in turn, and the walk
      does not stop at the first success. */
  function Prune(p: Node, id: string): Pruning
    decreases p, 1
  {
    if !p.hasChildren then Pruning(p, [])
    else
      var k := IndexOfId(p.children, id);
      if k >= 0 then Pruning(p.(children := Without(p.children, k)), [p.children[k]])
      else
        var r := PruneIn(p.children, id);
        Pruning(p.(children := r.trees), r.cut)
  }

  function PruneIn(cs: seq<Node>, id: string): (r: PrunedList)
    ensures |r.trees| == |cs|
    decreases cs, 0
  {
    if cs == [] then PrunedList([], [])
    else
      var a := Prune(cs[0], id);
      var b := PruneIn(cs[1..], id);
      PrunedList([a.tree] + b.trees, a.cut + b.cut)
  }

  lemma {:induction false} PruneInAppend(a: seq<Node>, b: seq<Node>, id: string)
    ensures PruneIn(a + b, id) == PrunedList(PruneIn(a, id).trees + PruneIn(b, id).trees, PruneIn(a, id).cut + PruneIn(b, id).cut)
  {
    if a == [] {
      assert a + b == b;
    } else {
      assert (a + b)[0] == a[0] && (a + b)[1..] == a[1..] + b;
      PruneInAppend(a[1..], b, id);
      var x := Prune(a[0], id);
      Assoc([x.tree], PruneIn(a[1..], id).trees, PruneIn(b, id).trees);
      Assoc(x.cut, PruneIn(a[1..], id).cut, PruneIn(b, id).cut);
    }
  }

  lemma PruneInSnoc(cs: seq<Node>, i: int, id: string)
    requires 0 <= i < |cs|
    ensures PruneIn(cs[..i + 1], id)
         == PrunedList(PruneIn(cs[..i], id).trees + [Prune(cs[i], id).tree], PruneIn(cs[..i], id).cut + Prune(cs[i], id).cut)
  {
    assert cs[..i + 1] == cs[..i] + [cs[i]];
    PruneInAppend(cs[..i], [cs[i]], id);
    assert [cs[i]][1..] == [];
  }

  /** What the splice removes and what it keeps: the start node keeps its own
      fields, every spliced subtree is a node of the tree whose top carries
      the id, and the ids lost are exactly those of the spliced subtrees. */
  lemma {:induction false} PruneTrades(p: Node, id: string)
    ensures Prune(p, id).tree == p.(children := Prune(p, id).tree.children)
    ensures multiset(Ids(Prune(p, id).tree)) + multiset(IdsOf(PreorderIn(Prune(p, id).cut))) == multiset(Ids(p))
    ensures forall c :: c in Prune(p, id).cut ==> c.id == id && c in Below(p)
    decreases p, 1
  {
    var r := Prune(p, id);
    if p.hasChildren {
      var cs := p.children;
      var k := IndexOfId(cs, id);
      if k >= 0 {
        IdsRemoveChild(p, k);
        assert PreorderIn([cs[k]]) == Preorder(cs[k]);
        PreorderInContains(cs, k);
      } else {
        PruneInTrades(cs, id);
        IdsWithChildren(p, r.tree.children);
      }
    }
  }

  lemma {:induction false} PruneInTrades(cs: seq<Node>, id: string)
    ensures multiset(IdsOf(PreorderIn(PruneIn(cs, id).trees))) + multiset(IdsOf(PreorderIn(PruneIn(cs, id).cut)))
         == multiset(IdsOf(PreorderIn(cs)))
    ensures forall c :: c in PruneIn(cs, id).cut ==> c.id == id && c in PreorderIn(cs)
    decreases cs, 0
  {
    if cs != [] {
      var a := Prune(cs[0], id);
      var b := PruneIn(cs[1..], id);
      PruneTrades(cs[0], id);
      PruneInTrades(cs[1..], id);
      var trees := [a.tree] + b.trees;
      assert trees[0] == a.tree && trees[1..] == b.trees;
      assert PreorderIn(trees) == Preorder(a.tree) + PreorderIn(b.trees);
      IdsOfAppend(Preorder(a.tree), PreorderIn(b.trees));
      PreorderInAppend(a.cut, b.cut);
      IdsOfAppend(PreorderIn(a.cut), PreorderIn(b.cut));
      IdsOfAppend(Preorder(cs[0]), PreorderIn(cs[1..]));
      SumOfTrades(multiset(Ids(a.tree)), multiset(IdsOf(PreorderIn(a.cut))), multiset(Ids(cs[0])),
                  multiset(IdsOf(PreorderIn(b.trees))), multiset(IdsOf(PreorderIn(b.cut))), multiset(IdsOf(PreorderIn(cs[1..]))));
    }
  }

  /** Two trades side by side are one trade. */
  lemma SumOfTrades(t1: multiset<string>, c1: multiset<string>, s1: multiset<string>,
                    t2: multiset<string>, c2: multiset<string>, s2: multiset<string>)
    requires t1 + c1 == s1 && t2 + c2 == s2
    ensures (t1 + t2) + (c1 + c2) == s1 + s2
  {
  }

  /** The splice finds every occurrence below the start node: nothing is
      spliced exactly when no node strictly below carries the id, and then
      the tree is unchanged. */
  lemma {:induction false} PruneFindsAll(p: Node, id: string)
    ensures Prune(p, id).cut == [] <==> id !in IdsOf(Below(p))
    ensures Prune(p, id).cut == [] ==> Prune(p, id).tree == p
    decreases p, 1
  {
    IdBelow(p, id);
    if p.hasChildren && IndexOfId(p.children, id) < 0 {
      PruneInFindsAll(p.children, id);
    }
  }

  lemma {:induction false} PruneInFindsAll(cs: seq<Node>, id: string)
    ensures PruneIn(cs, id).cut == [] <==> NoneBelow(cs, id)
    ensures PruneIn(cs, id).cut == [] ==> PruneIn(cs, id).trees == cs
    decreases cs, 0
  {
    if cs != [] {
      PruneFindsAll(cs[0], id);
      PruneInFindsAll(cs[1..], id);
      NoneBelowCons(cs, id);
      if PruneIn(cs, id).cut == [] {
        assert cs == [cs[0]] + cs[1..];
      }
    }
  }

  /** No entry of the list has the id strictly below it. */
  predicate NoneBelow(cs: seq<Node>, id: string) {
    forall j :: 0 <= j < |cs| ==> id !in IdsOf(Below(cs[j]))
  }

  lemma NoneBelowCons(cs: seq<Node>, id: string)
    requires cs != []
    ensures NoneBelow(cs, id) <==> id !in IdsOf(Below(cs[0])) && NoneBelow(cs[1..], id)
  {
    if id !in IdsOf(Below(cs[0])) && NoneBelow(cs[1..], id) {
      forall j | 1 <= j < |cs| ensures id !in IdsOf(Below(cs[j])) {
        assert cs[j] == cs[1..][j - 1];
      }
    }
  }

  /** Occurrences of x in the ids of subtrees that all carry x at the top. */
  lemma {:induction false} CutsCarryId(cut: seq<Node>, x: string)
    requires forall c :: c in cut ==> c.id == x
    ensures multiset(IdsOf(PreorderIn(cut)))[x] >= |cut|
  {
    if cut != [] {
      CutsCarryId(cut[1..], x);
      IdsOfAppend(Preorder(cut[0]), PreorderIn(cut[1..]));
      assert IdsOf(Preorder(cut[0]))[0] == x;
    }
  }

  /** On a tree with unique ids, deleting an id found below the start node
      splices out exactly one subtree and no node with that id remains. */
  lemma PruneOnce(p: Node, id: string)
    requires UniqueIds(p) && id in IdsOf(Below(p))
    ensures var r := Prune(p, id);
      && |r.cut| == 1 && r.cut[0].id == id && r.cut[0] in Below(p)
      && id !in Ids(r.tree)
      && multiset(Ids(r.tree)) + multiset(Ids(r.cut[0])) == multiset(Ids(p))
  {
    var r := Prune(p, id);
    PruneTrades(p, id);
    PruneFindsAll(p, id);
    UniqueIdsOccurOnce(p, id);
    CutsCarryId(r.cut, id);
    assert r.cut == [r.cut[0]];
    assert PreorderIn(r.cut) == Preorder(r.cut[0]);
  }

  /** The subtree spliced out is the node findById returns, so the delete
      throws away that node with its whole subtree. */
  lemma PruneUnique(p: Node, id: string)
    requires UniqueIds(p) && id in IdsOf(Below(p))
    ensures var r := Prune(p, id);
      && |r.cut| == 1 && FindById(p, id) == Some(r.cut[0])
      && id !in Ids(r.tree)
      && multiset(Ids(r.tree)) + multiset(Ids(r.cut[0])) == multiset(Ids(p))
  {
    PruneOnce(p, id);
    var c := Prune(p, id).cut[0];
    var i :| 0 <= i < |Below(p)| && Below(p)[i] == c;
    assert Preorder(p)[i + 1] == c;
    FindByIdUnique(p, i + 1);
  }

  // ---------------------------------------------------------------------
  // moveNode
  // ---------------------------------------------------------------------

  /** The errors `moveNode` throws. */
  datatype MoveError = NotFound | TargetNotFolder | IntoOwnSubtree

  /** The checks of `moveNode`, in their order. `isDescendant` (SubtreeHas)
      counts the source itself. */
  function MoveCheck(root: Node, sourceId: string, targetId: string): Option<MoveError> {
    var source := FindById(root, sourceId);
    var target := FindById(root, targetId);
    if source.None? || target.None? then Some(NotFound)
    else if target.value.kind != Folder then Some(TargetNotFolder)
    else if SubtreeHas(source.value, targetId) then Some(IntoOwnSubtree)
    else None
  }

  /** The tree after an accepted move: the delete, then the source object
      pushed onto the target with its `parentId` set to the target. */
  function Relocated(root: Node, sourceId: string, targetId: string): Node
    requires FindById(root, sourceId).Some?
  {
    var source := FindById(root, sourceId).value;
    AddChild(Prune(root, sourceId).tree, targetId, source.(parentId := Some(targetId)))
  }

  /** Because the source itself counts as its own descendant, moving a node
      onto itself and moving the root anywhere are always refused. */
  lemma MoveRefusesSelfAndRoot(root: Node, sourceId: string, targetId: string)
    ensures MoveCheck(root, sourceId, sourceId).Some?
    ensures FindById(root, targetId).Some? ==> MoveCheck(root, root.id, targetId).Some?
  {
    FindByIdSucceedsIff(root, targetId);
    SubtreeHasIff(root, targetId);
  }

  /** On a tree with unique ids an accepted move keeps every node (the
      multiset of ids is unchanged) and leaves the source, re-parented, as
      the target's last child. */
  lemma MoveKeepsNodes(root: Node, sourceId: string, targetId: string)
    requires UniqueIds(root) && MoveCheck(root, sourceId, targetId).None?
    ensures multiset(Ids(Relocated(root, sourceId, targetId))) == multiset(Ids(root))
    ensures LastChildIs(FindById(Relocated(root, sourceId, targetId), targetId),
                        FindById(root, sourceId).value.(parentId := Some(targetId)))
  {
    var source := FindById(root, sourceId).value;
    var moved := source.(parentId := Some(targetId));
    MoveRefusesSelfAndRoot(root, sourceId, targetId);
    FindByIdSucceedsIff(root, sourceId);
    IdsOfAppend([root], Below(root));
    assert Ids(root) == [root.id] + IdsOf(Below(root));
    PruneUnique(root, sourceId);
    var pruned := Prune(root, sourceId).tree;
    SubtreeHasIff(source, targetId);
    TargetSurvives(root, pruned, source, targetId);
    AddChildAppends(pruned, targetId, moved);
    SameShapeSameIds(source, moved);
    AppendLast(FindById(pruned, targetId).value, moved);
  }

  // ---------------------------------------------------------------------
  // Counting
  // ---------------------------------------------------------------------

  /** `countNodes(node)`: one for the node, plus each child's count. */
  function CountNodes(n: Node): nat
    decreases n, 1
  {
    1 + (if n.hasChildren then CountNodesIn(n.children) else 0)
  }

  function CountNodesIn(cs: seq<Node>): nat
    decreases cs, 0
  {
    if cs == [] then 0 else CountNodes(cs[0]) + CountNodesIn(cs[1..])
  }

  /** `countFolders(node)` for Folder, `countChats(node)` for Chat: the node
      counts when it has that type, plus each child's count. */
  function CountKind(n: Node, k: Kind): nat
    decreases n, 1
  {
    (if n.kind == k then 1 else 0) + (if n.hasChildren then CountKindIn(n.children, k) else 0)
  }

  function CountKindIn(cs: seq<Node>, k: Kind): nat
    decreases cs, 0
  {
    if cs == [] then 0 else CountKind(cs[0], k) + CountKindIn(cs[1..], k)
  }

  /** The nodes of a sequence that have type k. */
  function Tally(s: seq<Node>, k: Kind): (r: nat)
    ensures r <= |s|
  {
    if s == [] then 0 else (if s[0].kind == k then 1 else 0) + Tally(s[1..], k)
  }

  lemma {:induction false} TallyAppend(a: seq<Node>, b: seq<Node>, k: Kind)
    ensures Tally(a + b, k) == Tally(a, k) + Tally(b, k)
  {
    if a == [] {
      assert a + b == b;
    } else {
      assert (a + b)[0] == a[0] && (a + b)[1..] == a[1..] + b;
      TallyAppend(a[1..], b, k);
    }
  }

  /** countNodes counts every node of the subtree once, and countFolders /
      countChats count the nodes of their type. */
  lemma {:induction false} CountsArePreorder(n: Node, k: Kind)
    ensures CountNodes(n) == |Preorder(n)|
    ensures CountKind(n, k) == Tally(Preorder(n), k)
    decreases n, 1
  {
    TallyAppend([n], Below(n), k);
    if n.hasChildren {
      CountsArePreorderIn(n.children, k);
    }
  }

  lemma {:induction false} CountsArePreorderIn(cs: seq<Node>, k: Kind)
    ensures CountNodesIn(cs) == |PreorderIn(cs)|
    ensures CountKindIn(cs, k) == Tally(PreorderIn(cs), k)
    decreases cs, 0
  {
    if cs != [] {
      CountsArePreorder(cs[0], k);
      CountsArePreorderIn(cs[1..], k);
      TallyAppend(Preorder(cs[0]), PreorderIn(cs[1..]), k);
    }
  }

  /** Every node of the subtree is a folder or a chat. */
  predicate FoldersAndChatsOnly(n: Node) {
    forall m :: m in Preorder(n) ==> m.kind == Folder || m.kind == Chat
  }

  lemma {:induction false} TallySplit(s: seq<Node>)
    requires forall m :: m in s ==> m.kind == Folder || m.kind == Chat
    ensures Tally(s, Folder) + Tally(s, Chat) == |s|
  {
    if s != [] {
      TallySplit(s[1..]);
    }
  }

  /** When every node is a folder or a chat, the node count is the folder
      count plus the chat count. */
  lemma CountsAddUp(n: Node)
    ensures FoldersAndChatsOnly(n) ==> CountNodes(n) == CountKind(n, Folder) + CountKind(n, Chat)
  {
    CountsArePreorder(n, Folder);
    CountsArePreorder(n, Chat);
    if FoldersAndChatsOnly(n) {
      TallySplit(Preorder(n));
    }
  }

  /** What `getState()` reports. */
  datatype State = State(isInitialized: bool, hasData: bool, nodeCount: nat, folderCount: nat, chatCount: nat)

  /** `getState()`: the initialisation flag, then the three counts of the
      tree, or zeros without data. */
  function StateOf(initialized: bool, data: Option<Node>): (s: State)
    ensures s.isInitialized == initialized
    ensures s.hasData <==> data.Some?
    ensures data.None? ==> s.nodeCount == 0 && s.folderCount == 0 && s.chatCount == 0
    ensures data.Some? ==>
      && s.nodeCount == |Preorder(data.value)|
      && s.folderCount == Tally(Preorder(data.value), Folder)
      && s.chatCount == Tally(Preorder(data.value), Chat)
    ensures data.Some? && FoldersAndChatsOnly(data.value) ==> s.nodeCount == s.folderCount + s.chatCount
  {
    if data.None? then State(initialized, false, 0, 0, 0)
    else
      var n := data.value;
      CountsArePreorder(n, Folder);
      CountsArePreorder(n, Chat);
      CountsAddUp(n);
      State(initialized, true, CountNodes(n), CountKind(n, Folder), CountKind(n, Chat))
  }

  // ---------------------------------------------------------------------
  // The inline-form flags
  // ---------------------------------------------------------------------

  /** The node carries one of the three inline-form flags. */
  predicate Flagged(n: Node) {
    n.forms != NoForms
  }

  /** How many nodes of the subtree carry a flag. */
  function FlagCount(n: Node): nat
    decreases n, 1
  {
    (if Flagged(n) then 1 else 0) + (if n.hasChildren then FlagCountIn(n.children) else 0)
  }

  function FlagCountIn(cs: seq<Node>): nat
    decreases cs, 0
  {
    if cs == [] then 0 else FlagCount(cs[0]) + FlagCountIn(cs[1..])
  }

  /** `clearInlineForms(node)`: the three flags are deleted on the node and,
      through its child list, on every node below. */
  function Cleared(n: Node): (r: Node)
    ensures r.id == n.id && r.kind == n.kind && r.hasChildren == n.hasChildren
    ensures FlagCount(r) == 0
    decreases n, 1
  {
    n.(forms := NoForms, children := if n.hasChildren then ClearedIn(n.children) else n.children)
  }

  function ClearedIn(cs: seq<Node>): (r: seq<Node>)
    ensures |r| == |cs| && FlagCountIn(r) == 0
    ensures forall j :: 0 <= j < |cs| ==> r[j] == Cleared(cs[j])
    decreases cs, 0
  {
    if cs == [] then [] else [Cleared(cs[0])] + ClearedIn(cs[1..])
  }

  /** Clearing the flags moves no node: the ids stay in place. */
  lemma {:induction false} ClearedIds(n: Node)
    ensures Ids(Cleared(n)) == Ids(n)
    decreases n, 1
  {
    var m := Cleared(n);
    IdsOfAppend([n], Below(n));
    IdsOfAppend([m], Below(m));
    if n.hasChildren {
      ClearedInIds(n.children);
    }
  }

  lemma {:induction false} ClearedInIds(cs: seq<Node>)
    ensures IdsOf(PreorderIn(ClearedIn(cs))) == IdsOf(PreorderIn(cs))
    decreases cs, 0
  {
    if cs != [] {
      var r := ClearedIn(cs);
      ClearedIds(cs[0]);
      ClearedInIds(cs[1..]);
      assert r[0] == Cleared(cs[0]) && r[1..] == ClearedIn(cs[1..]);
      IdsOfAppend(Preorder(cs[0]), PreorderIn(cs[1..]));
      IdsOfAppend(Preorder(r[0]), PreorderIn(r[1..]));
    }
  }

  /** findById in the cleared tree finds the cleared image of the node it
      found before. */
  lemma {:induction false} ClearedFinds(n: Node, id: string)
    ensures FindById(Cleared(n), id) == if FindById(n, id).Some? then Some(Cleared(FindById(n, id).value)) else None
    decreases n
  {
    if n.id != id && n.hasChildren {
      var cs := n.children;
      var ds := Cleared(n).children;
      forall j | 0 <= j < |cs|
        ensures FindById(ds[j], id) == if FindById(cs[j], id).Some? then Some(Cleared(FindById(cs[j], id).value)) else None
      {
        ClearedFinds(cs[j], id);
      }
      var k := FirstFound(cs, id);
      assert FirstFound(ds, id) == k;
    }
  }

  /** Setting the flags of one node. */
  function Mark(f: Forms): Node -> Node {
    (m: Node) => m.(forms := f)
  }

  lemma {:induction false} FlagCountInSplit(cs: seq<Node>, k: int, x: Node)
    requires 0 <= k < |cs|
    ensures FlagCountIn(cs[k := x]) + FlagCount(cs[k]) == FlagCountIn(cs) + FlagCount(x)
  {
    if k > 0 {
      FlagCountInSplit(cs[1..], k - 1, x);
      assert cs[k := x][1..] == cs[1..][k - 1 := x];
    }
  }

  /** Marking the node findById returns in a tree without flags leaves
      exactly one flagged node. */
  lemma {:induction false} MarkOne(n: Node, id: string, f: Forms)
    requires FlagCount(n) == 0 && FindById(n, id).Some? && f != NoForms
    ensures FlagCount(UpdateFirst(n, id, Mark(f))) == 1
    decreases n
  {
    if n.id != id {
      var k := FirstFound(n.children, id);
      var x := UpdateFirst(n.children[k], id, Mark(f));
      FlagCountInSplit(n.children, k, n.children[k]);
      assert FlagCount(n.children[k]) == 0 by {
        FlagCountInSplit(n.children, k, Cleared(n.children[k]));
      }
      MarkOne(n.children[k], id, f);
      FlagCountInSplit(n.children, k, x);
    }
  }

  /** The `start*` methods: after clearing every flag and marking one node,
      exactly one node carries a flag, and it is that node with exactly the
      flag set. */
  lemma StartLeavesOneForm(data: Node, id: string, f: Forms)
    requires FindById(data, id).Some? && f != NoForms
    ensures FlagCount(UpdateFirst(Cleared(data), id, Mark(f))) == 1
    ensures FindById(UpdateFirst(Cleared(data), id, Mark(f)), id) == Some(Cleared(FindById(data, id).value).(forms := f))
  {
    ClearedFinds(data, id);
    MarkOne(Cleared(data), id, f);
    UpdateFirstFinds(Cleared(data), id, Mark(f));
  }

  /** The node `addChat` / `createChat` push: no child list, and the parent
      recorded. */
  function NewChat(freshId: string, name: string, link: Option<string>, tag: Option<string>, parentId: string): (c: Node)
    ensures c.kind == Chat && !c.hasChildren && c.id == freshId && c.parentId == Some(parentId)
  {
    ChatNode(freshId, name, link, tag).(parentId := Some(parentId))
  }

  /** The node `addFolder` / `createFolder` push: an empty, expanded folder. */
  function NewFolder(freshId: string, name: string, parentId: string): (c: Node)
    ensures c.kind == Folder && c.hasChildren && c.children == [] && c.expanded == Some(true)
    ensures c.id == freshId && c.parentId == Some(parentId)
  {
    FolderNode(freshId, name, true).(parentId := Some(parentId))
  }

  /** A node without flags or children is its own cleared image. */
  lemma ClearedLeaf(c: Node)
    requires c.forms == NoForms && (!c.hasChildren || c.children == [])
    ensures Cleared(c) == c
  {
  }

  /** Clearing a parent after a push keeps the pushed node last. */
  lemma ClearedKeepsLast(p: Node, c: Node)
    ensures LastChildIs(Some(Cleared(Append(p, c))), Cleared(c))
  {
    var a := Append(p, c);
    assert a.children[|a.children| - 1] == c;
  }

  /** `create*`: the new node lands last under the parent found by id,
      the tree gains exactly the new id, and no flag is left anywhere. */
  lemma CreateClearsForms(data: Node, parentId: string, c: Node)
    requires FindById(data, parentId).Some? && c.forms == NoForms && (!c.hasChildren || c.children == [])
    ensures var t := Cleared(AddChild(data, parentId, c));
      && FlagCount(t) == 0
      && multiset(Ids(t)) == multiset(Ids(data)) + multiset{c.id}
      && LastChildIs(FindById(t, parentId), c)
  {
    var added := AddChild(data, parentId, c);
    AddChildAppends(data, parentId, c);
    ClearedFinds(added, parentId);
    ClearedIds(added);
    LeafIds(c);
    ClearedKeepsLast(FindById(data, parentId).value, c);
    ClearedLeaf(c);
  }

  /** The name `updateNodeName` writes. */
  function Renamed(name: string): Node -> Node {
    (m: Node) => m.(name := name)
  }

  /** `updateNodeName`: the node found by id carries the new name, no node
      is added or lost, and no flag is left anywhere. */
  lemma RenameClearsForms(data: Node, nodeId: string, name: string)
    requires FindById(data, nodeId).Some?
    ensures var t := Cleared(UpdateFirst(data, nodeId, Renamed(name)));
      && FlagCount(t) == 0
      && multiset(Ids(t)) == multiset(Ids(data))
      && FindById(t, nodeId).Some? && FindById(t, nodeId).value.name == name
  {
    var t := UpdateFirst(data, nodeId, Renamed(name));
    UpdateFirstFinds(data, nodeId, Renamed(name));
    ClearedFinds(t, nodeId);
    ClearedIds(t);
    Relabel(data, nodeId, Renamed(name));
  }

  /** The tree `resetData()` installs. */
  function BareRoot(): (n: Node)
    ensures n.id == "root" && n.kind == Folder && n.hasChildren && n.children == [] && n.expanded == Some(true)
    ensures CountNodes(n) == 1 && FlagCount(n) == 0
  {
    FolderNode("root", "Accueil", true)
  }

  /** The events the manager emits on the application's bus once a node
      operation has gone through, with their arguments. */
  datatype TreeEvent =
    | NodeAdded(node: Node)
    | NodeDeleted(id: string)
    | NodeMoved(sourceId: string, targetId: string)
    | NodeExpanded(id: string)
    | NodeCollapsed(id: string)
    | NodeEdited(id: string)

  /** The event `toggleFolder` emits: the folder's new state. */
  function ToggleEvent(f: Node, folderId: string): TreeEvent {
    if Truthy(f.expanded) then NodeCollapsed(folderId) else NodeExpanded(folderId)
  }

  /** The toggle event names the state the folder is left in. */
  lemma ToggleEventIsNewState(f: Node, folderId: string)
    ensures ToggleEvent(f, folderId) == (if Toggled(f).expanded == Some(true) then NodeExpanded(folderId) else NodeCollapsed(folderId))
  {
  }

  class TreeManager {
    /** `this.data`: None before a tree is loaded. */
    var data: Option<Node>

    /** `this.isInitialized`: set by a successful `init`, cleared by
        `destroy`. */
    var isInitialized: bool

    /** The node events emitted so far, oldest first. */
    var emitted: seq<TreeEvent>

    /** The manager after construction (no tree) or after `loadData` handed
        it the tree it read. */
    constructor (loaded: Option<Node>)
      ensures data == loaded && !isInitialized && emitted == []
    {
      data := loaded;
      isInitialized := false;
      emitted := [];
    }

    /** `init()`, with whether the page has the tree container as input: a
        second call only warns; a missing container throws (returned as
        true) and leaves the manager uninitialised. */
    method Init(containerFound: bool) returns (failed: bool)
      modifies this`isInitialized
      ensures old(isInitialized) ==> !failed && isInitialized
      ensures !old(isInitialized) ==> failed == !containerFound && isInitialized == containerFound
    {
      if isInitialized {
        return false;
      }
      if !containerFound {
        return true;
      }
      isInitialized := true;
      return false;
    }

    /** `destroy()`: nothing happens on an uninitialised manager; otherwise
        the tree is dropped and the flag cleared. */
    method Destroy()
      modifies this`isInitialized, this`data
      ensures !old(isInitialized) ==> data == old(data) && !isInitialized
      ensures old(isInitialized) ==> data == None && !isInitialized
    {
      if !isInitialized {
        return;
      }
      data := None;
      isInitialized := false;
    }

    /** `getState()` on the current manager. */
    function GetState(): (s: State)
      reads this
      ensures s.isInitialized == isInitialized && (s.hasData <==> data.Some?)
      ensures data.Some? ==> s.folderCount == Tally(Preorder(data.value), Folder) && s.chatCount == Tally(Preorder(data.value), Chat)
    {
      StateOf(isInitialized, data)
    }

    /** `deleteNodeById(parentNode, idToDelete)`: the `findIndex` loop, then
        the `for … of` over every child. */
    method DeleteNodeById(parent: Node, id: string) returns (r: Pruning)
      ensures r == Prune(parent, id)
      decreases parent
    {
      if !parent.hasChildren {
        return Pruning(parent, []);
      }
      var cs := parent.children;
      var index := 0;
      while index < |cs| && cs[index].id != id
        invariant 0 <= index <= |cs|
        invariant forall j :: 0 <= j < index ==> cs[j].id != id
      {
        index := index + 1;
      }
      if index < |cs| {
        return Pruning(parent.(children := cs[..index] + cs[index + 1..]), [cs[index]]);
      }
      var trees: seq<Node> := [];
      var cut: seq<Node> := [];
      var i := 0;
      while i < |cs|
        invariant 0 <= i <= |cs|
        invariant PrunedList(trees, cut) == PruneIn(cs[..i], id)
      {
        var x := DeleteNodeById(cs[i], id);
        PruneInSnoc(cs, i, id);
        trees := trees + [x.tree];
        cut := cut + x.cut;
        i := i + 1;
      }
      assert cs[..i] == cs;
      return Pruning(parent.(children := trees), cut);
    }

    /** `deleteNode(nodeId)` with the dialog's answer as input: the literal
        id 'root' is refused. */
    method DeleteNode(nodeId: string, confirmed: bool)
      requires data.Some?
      modifies this`data, this`emitted
      ensures nodeId == "root" || !confirmed ==> data == old(data) && emitted == old(emitted)
      ensures nodeId != "root" && confirmed ==>
        data == Some(Prune(old(data).value, nodeId).tree) && emitted == old(emitted) + [NodeDeleted(nodeId)]
    {
      if nodeId == "root" || !confirmed {
        return;
      }
      var r := DeleteNodeById(data.value, nodeId);
      data := Some(r.tree);
      emitted := emitted + [NodeDeleted(nodeId)];
    }

    /** `moveNode(sourceId, targetId)`: a thrown error is returned. */
    method MoveNode(sourceId: string, targetId: string) returns (err: Option<MoveError>)
      requires data.Some?
      modifies this`data, this`emitted
      ensures err == MoveCheck(old(data).value, sourceId, targetId)
      ensures err.None? ==>
        data == Some(Relocated(old(data).value, sourceId, targetId)) && emitted == old(emitted) + [NodeMoved(sourceId, targetId)]
      ensures err.Some? ==> data == old(data) && emitted == old(emitted)
    {
      var sourceNode := FindById(data.value, sourceId);
      var targetNode := FindById(data.value, targetId);
      if sourceNode.None? || targetNode.None? {
        return Some(NotFound);
      }
      if targetNode.value.kind != Folder {
        return Some(TargetNotFolder);
      }
      if SubtreeHas(sourceNode.value, targetId) {
        return Some(IntoOwnSubtree);
      }
      var r := DeleteNodeById(data.value, sourceId);
      var moved := sourceNode.value.(parentId := Some(targetId));
      data := Some(AddChild(r.tree, targetId, moved));
      emitted := emitted + [NodeMoved(sourceId, targetId)];
      return None;
    }

    /** `toggleFolder(folderId)`: only a folder found by id is flipped. */
    method ToggleFolder(folderId: string)
      requires data.Some?
      modifies this`data, this`emitted
      ensures var f := FindById(old(data).value, folderId);
        if f.Some? && f.value.kind == Folder then
          data == Some(UpdateFirst(old(data).value, folderId, Toggled)) && emitted == old(emitted) + [ToggleEvent(f.value, folderId)]
        else
          data == old(data) && emitted == old(emitted)
    {
      var folder := FindById(data.value, folderId);
      if folder.Some? && folder.value.kind == Folder {
        data := Some(UpdateFirst(data.value, folderId, Toggled));
        emitted := emitted + [ToggleEvent(folder.value, folderId)];
      }
    }

    /** `addChat(parentId)`: a default-named chat, whatever the parent's
        type; freshId stands for `generateId()`. */
    method AddChat(parentId: string, freshId: string)
      requires data.Some?
      modifies this`data, this`emitted
      ensures FindById(old(data).value, parentId).None? ==> data == old(data) && emitted == old(emitted)
      ensures FindById(old(data).value, parentId).Some? ==>
        && data == Some(AddChild(old(data).value, parentId, NewChat(freshId, "Nouveau chat", None, None, parentId)))
        && emitted == old(emitted) + [NodeAdded(NewChat(freshId, "Nouveau chat", None, None, parentId))]
    {
      var parent := FindById(data.value, parentId);
      if parent.None? {
        return;
      }
      var node := NewChat(freshId, "Nouveau chat", None, None, parentId);
      data := Some(AddChild(data.value, parentId, node));
      emitted := emitted + [NodeAdded(node)];
    }

    /** `addFolder(parentId)`: a default-named expanded folder. */
    method AddFolder(parentId: string, freshId: string)
      requires data.Some?
      modifies this`data, this`emitted
      ensures FindById(old(data).value, parentId).None? ==> data == old(data) && emitted == old(emitted)
      ensures FindById(old(data).value, parentId).Some? ==>
        && data == Some(AddChild(old(data).value, parentId, NewFolder(freshId, "Nouveau dossier", parentId)))
        && emitted == old(emitted) + [NodeAdded(NewFolder(freshId, "Nouveau dossier", parentId))]
    {
      var parent := FindById(data.value, parentId);
      if parent.None? {
        return;
      }
      var node := NewFolder(freshId, "Nouveau dossier", parentId);
      data := Some(AddChild(data.value, parentId, node));
      emitted := emitted + [NodeAdded(node)];
    }

    /** `clearInlineForms(node)`: the flags of the node are deleted, then the
        `forEach` over its children. */
    method ClearInlineForms(node: Node) returns (r: Node)
      ensures r == Cleared(node)
      decreases node
    {
      if !node.hasChildren {
        return node.(forms := NoForms);
      }
      var cs := node.children;
      var walked: seq<Node> := [];
      var i := 0;
      while i < |cs|
        invariant 0 <= i <= |cs| && |walked| == i
        invariant forall j :: 0 <= j < i ==> walked[j] == Cleared(cs[j])
      {
        var c := ClearInlineForms(cs[i]);
        walked := walked + [c];
        i := i + 1;
      }
      return node.(forms := NoForms, children := walked);
    }

    /** `startCreateChat` (creatingChat), `startCreateFolder`
        (creatingFolder) and `startEditNode` (editing): for a known node,
        every flag is cleared and the one flag set on that node. */
    method StartForm(nodeId: string, f: Forms)
      requires data.Some?
      modifies this`data
      ensures FindById(old(data).value, nodeId).None? ==> data == old(data)
      ensures FindById(old(data).value, nodeId).Some? ==> data == Some(UpdateFirst(Cleared(old(data).value), nodeId, Mark(f)))
    {
      var node := FindById(data.value, nodeId);
      if node.None? {
        return;
      }
      var cleared := ClearInlineForms(data.value);
      data := Some(UpdateFirst(cleared, nodeId, Mark(f)));
    }

    /** `createChat(parentId, name, link, tag)`: the chat is pushed, then
        every flag is cleared. */
    method CreateChat(parentId: string, name: string, link: string, tag: string, freshId: string)
      requires data.Some?
      modifies this`data, this`emitted
      ensures FindById(old(data).value, parentId).None? ==> data == old(data) && emitted == old(emitted)
      ensures FindById(old(data).value, parentId).Some? ==>
        && data == Some(Cleared(AddChild(old(data).value, parentId, NewChat(freshId, name, Some(link), Some(tag), parentId))))
        && emitted == old(emitted) + [NodeAdded(NewChat(freshId, name, Some(link), Some(tag), parentId))]
    {
      var parent := FindById(data.value, parentId);
      if parent.None? {
        return;
      }
      var chat := NewChat(freshId, name, Some(link), Some(tag), parentId);
      var added := AddChild(data.value, parentId, chat);
      var cleared := ClearInlineForms(added);
      data := Some(cleared);
      emitted := emitted + [NodeAdded(chat)];
    }

    /** `createFolder(parentId, name)`. */
    method CreateFolder(parentId: string, name: string, freshId: string)
      requires data.Some?
      modifies this`data, this`emitted
      ensures FindById(old(data).value, parentId).None? ==> data == old(data) && emitted == old(emitted)
      ensures FindById(old(data).value, parentId).Some? ==>
        && data == Some(Cleared(AddChild(old(data).value, parentId, NewFolder(freshId, name, parentId))))
        && emitted == old(emitted) + [NodeAdded(NewFolder(freshId, name, parentId))]
    {
      var parent := FindById(data.value, parentId);
      if parent.None? {
        return;
      }
      var folder := NewFolder(freshId, name, parentId);
      var cleared := ClearInlineForms(AddChild(data.value, parentId, folder));
      data := Some(cleared);
      emitted := emitted + [NodeAdded(folder)];
    }

    /** `updateNodeName(nodeId, name)`. */
    method UpdateNodeName(nodeId: string, name: string)
      requires data.Some?
      modifies this`data, this`emitted
      ensures FindById(old(data).value, nodeId).None? ==> data == old(data) && emitted == old(emitted)
      ensures FindById(old(data).value, nodeId).Some? ==>
        data == Some(Cleared(UpdateFirst(old(data).value, nodeId, Renamed(name)))) && emitted == old(emitted) + [NodeEdited(nodeId)]
    {
      var node := FindById(data.value, nodeId);
      if node.None? {
        return;
      }
      var cleared := ClearInlineForms(UpdateFirst(data.value, nodeId, Renamed(name)));
      data := Some(cleared);
      emitted := emitted + [NodeEdited(nodeId)];
    }

    /** `editNode(nodeId)`, with the `prompt` answer as input (None for a
        cancelled dialog): a known node takes the trimmed answer as its
        name unless the answer is blank; no flag is cleared. */
    method EditNode(nodeId: string, answer: Option<string>)
      requires data.Some?
      modifies this`data, this`emitted
      ensures FindById(old(data).value, nodeId).None? || answer.None? || Trim(answer.value) == "" ==>
        data == old(data) && emitted == old(emitted)
      ensures FindById(old(data).value, nodeId).Some? && answer.Some? && Trim(answer.value) != "" ==>
        data == Some(UpdateFirst(old(data).value, nodeId, Renamed(Trim(answer.value))))
        && emitted == old(emitted) + [NodeEdited(nodeId)]
    {
      var node := FindById(data.value, nodeId);
      if node.None? || answer.None? || Trim(answer.value) == "" {
        return;
      }
      data := Some(UpdateFirst(data.value, nodeId, Renamed(Trim(answer.value))));
      emitted := emitted + [NodeEdited(nodeId)];
    }

    /** `resetData()`. */
    method ResetData()
      modifies this`data
      ensures data == Some(BareRoot())
    {
      data := Some(BareRoot());
    }
  }
}
