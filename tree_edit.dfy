/** The in-place edits the revisions share, stated on tree values: change
    the node findById would return, change the node findParentNode would
    return, set every folder's `expanded` flag, and the child-list delete
    `_deleteNodeById` / `deleteNodeById`. Each edit comes with what it keeps:
    the multiset of ids, the chat count, the shape. */
module TreeEdit {
  import opened Tree

  /** `parent.children.push(c)`, creating the child list when absent. */
  function Append(p: Node, c: Node): (r: Node)
    ensures r.hasChildren && r.children == Kids(p) + [c]
    ensures r.id == p.id && r.kind == p.kind && r.name == p.name && r.expanded == p.expanded
  {
    p.(hasChildren := true, children := Kids(p) + [c])
  }

  /** p is a node whose last child is c. */
  predicate LastChildIs(p: Option<Node>, c: Node) {
    p.Some? && p.value.hasChildren && |p.value.children| > 0 && p.value.children[|p.value.children| - 1] == c
  }

  /** Example, mirroring the append test's check, here for any parent and
      child: the appended node is the parent's last child. */
  lemma AppendLast(p: Node, c: Node)
    ensures LastChildIs(Some(Append(p, c)), c)
  {
  }

  /** Pushes every node of cs, in order, creating the child list when absent. */
  function AppendAll(p: Node, cs: seq<Node>): (r: Node)
    ensures r.hasChildren && r.children == Kids(p) + cs
    ensures r.id == p.id && r.kind == p.kind && r.name == p.name && r.expanded == p.expanded
  {
    p.(hasChildren := true, children := Kids(p) + cs)
  }

  /** `children.findIndex(c => c.id === id)`. */
  function IndexOfId(cs: seq<Node>, id: string): (k: int)
    ensures -1 <= k < |cs|
    ensures k >= 0 ==> cs[k].id == id
    ensures forall j :: 0 <= j < |cs| && (k < 0 || j < k) ==> cs[j].id != id
  {
    if cs == [] then -1
    else if cs[0].id == id then 0
    else
      var k := IndexOfId(cs[1..], id);
      if k < 0 then -1 else k + 1
  }

  /** `children.splice(k, 1)`. */
  function Without(cs: seq<Node>, k: int): (r: seq<Node>)
    requires 0 <= k < |cs|
    ensures |r| == |cs| - 1
    ensures forall j :: 0 <= j < k ==> r[j] == cs[j]
    ensures forall j :: k <= j < |r| ==> r[j] == cs[j + 1]
  {
    cs[..k] + cs[k + 1..]
  }

  // ---------------------------------------------------------------------
  // Pre-order and chat count of an edited child list
  // ---------------------------------------------------------------------

  /** The chat count a child contributes to its parent's countChatsInFolder. */
  function Contribution(c: Node): nat {
    match c.kind
    case Chat => 1
    case Folder => CountChatsInFolder(c)
    case OtherKind(_) => 0
  }

  lemma {:induction false} CountChatsInListAppend(a: seq<Node>, b: seq<Node>)
    ensures CountChatsInList(a + b) == CountChatsInList(a) + CountChatsInList(b)
  {
    if a == [] {
      assert a + b == b;
    } else {
      assert (a + b)[1..] == a[1..] + b;
      CountChatsInListAppend(a[1..], b);
    }
  }

  /** Replacing, removing or adding one child changes the count by that
      child's contribution and by nothing else. */
  lemma CountChatsInListSplit(cs: seq<Node>, j: int, x: Node)
    requires 0 <= j < |cs|
    ensures CountChatsInList(cs) == CountChatsInList(cs[..j]) + Contribution(cs[j]) + CountChatsInList(cs[j + 1..])
    ensures CountChatsInList(cs[j := x]) == CountChatsInList(cs[..j]) + Contribution(x) + CountChatsInList(cs[j + 1..])
    ensures CountChatsInList(Without(cs, j)) == CountChatsInList(cs[..j]) + CountChatsInList(cs[j + 1..])
  {
    assert cs == cs[..j] + ([cs[j]] + cs[j + 1..]);
    assert cs[j := x] == cs[..j] + ([x] + cs[j + 1..]);
    CountChatsInListAppend(cs[..j], [cs[j]] + cs[j + 1..]);
    CountChatsInListAppend([cs[j]], cs[j + 1..]);
    CountChatsInListAppend(cs[..j], [x] + cs[j + 1..]);
    CountChatsInListAppend([x], cs[j + 1..]);
    CountChatsInListAppend(cs[..j], cs[j + 1..]);
    assert CountChatsInList([cs[j]]) == Contribution(cs[j]);
    assert CountChatsInList([x]) == Contribution(x);
  }

  /** Ids of a node whose child list is replaced. */
  lemma IdsWithChildren(n: Node, cs: seq<Node>)
    requires n.hasChildren
    ensures Ids(n) == [n.id] + IdsOf(PreorderIn(n.children))
    ensures Ids(n.(children := cs)) == [n.id] + IdsOf(PreorderIn(cs))
  {
    IdsOfAppend([n], PreorderIn(n.children));
    IdsOfAppend([n.(children := cs)], PreorderIn(cs));
  }

  /** Replacing child j by x trades the ids of the old subtree for those of x. */
  lemma IdsReplaceChild(n: Node, j: int, x: Node)
    requires n.hasChildren && 0 <= j < |n.children|
    ensures multiset(Ids(n.(children := n.children[j := x]))) + multiset(Ids(n.children[j]))
         == multiset(Ids(n)) + multiset(Ids(x))
  {
    var cs := n.children;
    IdsWithChildren(n, cs[j := x]);
    PreorderInSplit(cs, j, x);
    IdsOfAppend(PreorderIn(cs[..j]) + Preorder(cs[j]), PreorderIn(cs[j + 1..]));
    IdsOfAppend(PreorderIn(cs[..j]), Preorder(cs[j]));
    IdsOfAppend(PreorderIn(cs[..j]) + Preorder(x), PreorderIn(cs[j + 1..]));
    IdsOfAppend(PreorderIn(cs[..j]), Preorder(x));
  }

  /** Splicing child j out removes exactly the ids of its subtree. */
  lemma IdsRemoveChild(n: Node, j: int)
    requires n.hasChildren && 0 <= j < |n.children|
    ensures multiset(Ids(n.(children := Without(n.children, j)))) + multiset(Ids(n.children[j]))
         == multiset(Ids(n))
  {
    var cs := n.children;
    IdsWithChildren(n, Without(cs, j));
    PreorderInSplit(cs, j, cs[j]);
    IdsOfAppend(PreorderIn(cs[..j]) + Preorder(cs[j]), PreorderIn(cs[j + 1..]));
    IdsOfAppend(PreorderIn(cs[..j]), Preorder(cs[j]));
    IdsOfAppend(PreorderIn(cs[..j]), PreorderIn(cs[j + 1..]));
  }

  /** Pushing nodes adds exactly the ids of their subtrees. */
  lemma IdsAppendAll(p: Node, cs: seq<Node>)
    ensures multiset(Ids(AppendAll(p, cs))) == multiset(Ids(p)) + multiset(IdsOf(PreorderIn(cs)))
  {
    var r := AppendAll(p, cs);
    IdsWithChildren(r, r.children);
    PreorderInAppend(Kids(p), cs);
    IdsOfAppend(PreorderIn(Kids(p)), PreorderIn(cs));
    IdsOfAppend([p], Below(p));
    assert Ids(p) == [p.id] + IdsOf(PreorderIn(Kids(p)));
  }

  /** Multiset bookkeeping for the edit lemmas: a trade done one level down
      is a trade at the top. */
  lemma Trade(top: multiset<string>, newTop: multiset<string>, sub: multiset<string>, newSub: multiset<string>,
              m: multiset<string>, fm: multiset<string>)
    requires newTop + sub == top + newSub
    requires newSub + m == sub + fm
    ensures newTop + m == top + fm
  {
    forall e ensures (newTop + m)[e] == (top + fm)[e] {
      assert (newTop + sub)[e] == (top + newSub)[e];
      assert (newSub + m)[e] == (sub + fm)[e];
    }
  }

  lemma Cancel(a: multiset<string>, b: multiset<string>, m: multiset<string>)
    requires a + m == b + m
    ensures a == b
  {
    forall e ensures a[e] == b[e] {
      assert (a + m)[e] == (b + m)[e];
    }
  }

  /** A node found by id elsewhere in the tree survives the cut-out of a
      subtree that does not hold its id. */
  lemma TargetSurvives(root: Node, rest: Node, cut: Node, targetId: string)
    requires multiset(Ids(rest)) + multiset(Ids(cut)) == multiset(Ids(root))
    requires FindById(root, targetId).Some? && targetId !in Ids(cut)
    ensures FindById(rest, targetId).Some?
  {
    FindByIdSucceedsIff(root, targetId);
    assert multiset(Ids(root))[targetId] > 0;
    assert multiset(Ids(cut))[targetId] == 0;
    FindByIdSucceedsIff(rest, targetId);
  }

  // ---------------------------------------------------------------------
  // Editing the node findById returns
  // ---------------------------------------------------------------------

  /** Applies f to the node `findById(n, id)` returns, in place: the JS code
      fetches that node and assigns its fields. Without a match the tree is
      unchanged. */
  function UpdateFirst(n: Node, id: string, f: Node -> Node): Node
    decreases n
  {
    if n.id == id then f(n)
    else if !n.hasChildren then n
    else
      var k := FirstFound(n.children, id);
      if k < 0 then n else n.(children := n.children[k := UpdateFirst(n.children[k], id, f)])
  }

  /** After the edit the lookup finds the edited node; the start node keeps
      its own fields unless it was the one edited. */
  lemma {:induction false} UpdateFirstFinds(n: Node, id: string, f: Node -> Node)
    requires FindById(n, id).Some? && f(FindById(n, id).value).id == id
    ensures FindById(UpdateFirst(n, id, f), id) == Some(f(FindById(n, id).value))
    ensures n.id != id ==> UpdateFirst(n, id, f) == n.(children := UpdateFirst(n, id, f).children)
    decreases n
  {
    if n.id != id {
      var cs := n.children;
      var k := FirstFound(cs, id);
      var x := UpdateFirst(cs[k], id, f);
      UpdateFirstFinds(cs[k], id, f);
      var k' := FirstFound(cs[k := x], id);
      assert k' == k by {
        assert FindById(cs[k := x][k], id).Some?;
        assert forall j :: 0 <= j < k ==> cs[k := x][j] == cs[j];
      }
    }
  }

  /** Only the image of the found node matters: two edits that agree on it
      produce the same tree. This is how an in-place write to the object
      `findById` returned is stated. */
  lemma {:induction false} UpdateFirstAt(n: Node, id: string, f: Node -> Node, f': Node -> Node)
    requires FindById(n, id).Some? ==> f(FindById(n, id).value) == f'(FindById(n, id).value)
    ensures UpdateFirst(n, id, f) == UpdateFirst(n, id, f')
    decreases n
  {
    if n.id != id && n.hasChildren {
      var k := FirstFound(n.children, id);
      if k >= 0 {
        UpdateFirstAt(n.children[k], id, f, f');
      }
    }
  }

  /** The edit trades the ids of the found subtree for those of its image. */
  lemma {:induction false} UpdateFirstIds(n: Node, id: string, f: Node -> Node)
    requires FindById(n, id).Some?
    ensures multiset(Ids(UpdateFirst(n, id, f))) + multiset(Ids(FindById(n, id).value))
         == multiset(Ids(n)) + multiset(Ids(f(FindById(n, id).value)))
    decreases n
  {
    if n.id != id {
      var k := FirstFound(n.children, id);
      var x := UpdateFirst(n.children[k], id, f);
      UpdateFirstIds(n.children[k], id, f);
      IdsReplaceChild(n, k, x);
      var m := FindById(n, id).value;
      Trade(multiset(Ids(n)), multiset(Ids(UpdateFirst(n, id, f))), multiset(Ids(n.children[k])), multiset(Ids(x)),
            multiset(Ids(m)), multiset(Ids(f(m))));
    }
  }

  /** An edit that keeps the found node's type and chat count keeps the chat
      count of the whole tree. */
  lemma {:induction false} UpdateFirstKeepsChatCount(n: Node, id: string, f: Node -> Node)
    requires FindById(n, id).Some?
    requires f(FindById(n, id).value).kind == FindById(n, id).value.kind
    requires CountChatsInFolder(f(FindById(n, id).value)) == CountChatsInFolder(FindById(n, id).value)
    ensures UpdateFirst(n, id, f).kind == n.kind
    ensures CountChatsInFolder(UpdateFirst(n, id, f)) == CountChatsInFolder(n)
    decreases n
  {
    if n.id != id {
      var k := FirstFound(n.children, id);
      UpdateFirstKeepsChatCount(n.children[k], id, f);
      CountChatsInListSplit(n.children, k, UpdateFirst(n.children[k], id, f));
    }
  }

  // ---------------------------------------------------------------------
  // Editing the node findParentNode returns
  // ---------------------------------------------------------------------

  /** Applies g to the node `findParentNode(n, id)` returns; without an
      answer the tree is unchanged. */
  function UpdateParentOf(n: Node, id: string, g: Node -> Node): Node
    decreases n
  {
    if !n.hasChildren then n
    else
      var k := FirstHit(n.children, id);
      if k < 0 then n
      else if n.children[k].id == id then g(n)
      else n.(children := n.children[k := UpdateParentOf(n.children[k], id, g)])
  }

  /** Only the image of the parent matters: two edits that agree on it
      produce the same tree. */
  lemma {:induction false} UpdateParentOfAt(n: Node, id: string, g: Node -> Node, g': Node -> Node)
    requires FindParent(n, id).Some? ==> g(FindParent(n, id).value) == g'(FindParent(n, id).value)
    ensures UpdateParentOf(n, id, g) == UpdateParentOf(n, id, g')
    decreases n
  {
    if n.hasChildren {
      var k := FirstHit(n.children, id);
      if k >= 0 && n.children[k].id != id {
        UpdateParentOfAt(n.children[k], id, g, g');
      }
    }
  }

  /** The edit trades the ids of the parent's subtree for those of its image. */
  lemma {:induction false} UpdateParentOfIds(n: Node, id: string, g: Node -> Node)
    requires FindParent(n, id).Some?
    ensures multiset(Ids(UpdateParentOf(n, id, g))) + multiset(Ids(FindParent(n, id).value))
         == multiset(Ids(n)) + multiset(Ids(g(FindParent(n, id).value)))
    decreases n
  {
    var k := FirstHit(n.children, id);
    if n.children[k].id != id {
      var x := UpdateParentOf(n.children[k], id, g);
      assert FindParent(n, id) == FindParent(n.children[k], id);
      UpdateParentOfIds(n.children[k], id, g);
      IdsReplaceChild(n, k, x);
      var p := FindParent(n, id).value;
      Trade(multiset(Ids(n)), multiset(Ids(UpdateParentOf(n, id, g))), multiset(Ids(n.children[k])), multiset(Ids(x)),
            multiset(Ids(p)), multiset(Ids(g(p))));
    }
  }

  /** An edit of the parent that keeps its type and chat count keeps the
      chat count of the whole tree. */
  lemma {:induction false} UpdateParentOfKeepsChatCount(n: Node, id: string, g: Node -> Node)
    requires FindParent(n, id).Some?
    requires g(FindParent(n, id).value).kind == FindParent(n, id).value.kind
    requires CountChatsInFolder(g(FindParent(n, id).value)) == CountChatsInFolder(FindParent(n, id).value)
    ensures UpdateParentOf(n, id, g).kind == n.kind
    ensures CountChatsInFolder(UpdateParentOf(n, id, g)) == CountChatsInFolder(n)
    decreases n
  {
    var k := FirstHit(n.children, id);
    if n.children[k].id != id {
      UpdateParentOfKeepsChatCount(n.children[k], id, g);
      CountChatsInListSplit(n.children, k, UpdateParentOf(n.children[k], id, g));
    }
  }

  /** When g keeps the parent's id, the start node's id is kept as well. */
  lemma {:induction false} UpdateParentOfKeepsRoot(n: Node, id: string, g: Node -> Node)
    requires FindParent(n, id).Some? ==> g(FindParent(n, id).value).id == FindParent(n, id).value.id
    ensures UpdateParentOf(n, id, g).id == n.id
    decreases n
  {
    if n.hasChildren {
      var k := FirstHit(n.children, id);
      if k >= 0 && n.children[k].id != id {
        UpdateParentOfKeepsRoot(n.children[k], id, g);
      }
    }
  }

  /** The first child that holds the id, directly or below, is the first
      such child of any longer list that starts with the same children. */
  lemma {:induction false} FirstHitPrefix(a: seq<Node>, b: seq<Node>, id: string)
    requires 0 <= FirstHit(a, id)
    ensures FirstHit(a + b, id) == FirstHit(a, id)
  {
    var k := FirstHit(a, id);
    assert (a + b)[k] == a[k];
    assert forall j :: 0 <= j < k ==> (a + b)[j] == a[j];
  }

  /** When g keeps the parent's id and only appends to its children, the
      parent lookup afterwards finds g's image of the parent. */
  lemma {:induction false} UpdateParentOfFinds(n: Node, id: string, g: Node -> Node)
    requires FindParent(n, id).Some?
    requires forall p :: g(p).id == p.id
    requires var p := FindParent(n, id).value;
      g(p).hasChildren && |p.children| <= |g(p).children| && g(p).children[..|p.children|] == p.children
    ensures FindParent(UpdateParentOf(n, id, g), id) == Some(g(FindParent(n, id).value))
    decreases n
  {
    var k := FirstHit(n.children, id);
    if n.children[k].id == id {
      var m := g(n);
      assert m.children == n.children + m.children[|n.children|..];
      FirstHitPrefix(n.children, m.children[|n.children|..], id);
    } else {
      var x := UpdateParentOf(n.children[k], id, g);
      UpdateParentOfFinds(n.children[k], id, g);
      UpdateParentOfKeepsRoot(n.children[k], id, g);
      var cs := n.children[k := x];
      var k' := FirstHit(cs, id);
      assert k' == k by {
        assert cs[k].id != id && FindParent(cs[k], id).Some?;
        assert forall j :: 0 <= j < k ==> cs[j] == n.children[j];
      }
    }
  }

  // ---------------------------------------------------------------------
  // Expand all / collapse all
  // ---------------------------------------------------------------------

  /** `_expandNode` / `_collapseNode` and the popups' expandNode /
      collapseNode: a folder gets `expanded = b` and the walk goes on into its
      children; any other node is left alone together with its subtree. */
  function SetAllExpanded(n: Node, b: bool): Node
    decreases n, 1
  {
    if n.kind != Folder then n
    else n.(expanded := Some(b), children := if n.hasChildren then SetAllExpandedIn(n.children, b) else n.children)
  }

  function SetAllExpandedIn(cs: seq<Node>, b: bool): (r: seq<Node>)
    ensures |r| == |cs|
    ensures forall j :: 0 <= j < |cs| ==> r[j] == SetAllExpanded(cs[j], b)
    decreases cs, 0
  {
    if cs == [] then [] else [SetAllExpanded(cs[0], b)] + SetAllExpandedIn(cs[1..], b)
  }

  /** Every folder reachable from n through folders, n included, has its
      `expanded` flag set to b. */
  predicate FoldersFlagged(n: Node, b: bool) {
    n.kind == Folder ==>
      && n.expanded == Some(b)
      && (n.hasChildren ==> forall j :: 0 <= j < |n.children| ==> FoldersFlagged(n.children[j], b))
  }

  /** Expand-all (collapse-all) leaves every folder reachable through folders
      expanded (collapsed). */
  lemma {:induction false} SetAllExpandedFlagsEveryFolder(n: Node, b: bool)
    ensures FoldersFlagged(SetAllExpanded(n, b), b)
    decreases n
  {
    if n.kind == Folder && n.hasChildren {
      forall j | 0 <= j < |n.children| ensures FoldersFlagged(SetAllExpanded(n, b).children[j], b) {
        SetAllExpandedFlagsEveryFolder(n.children[j], b);
      }
    }
  }

  /** A tree whose folders all carry the flag already is left as it is. */
  lemma {:induction false} SetAllExpandedFixedPoint(n: Node, b: bool)
    requires FoldersFlagged(n, b)
    ensures SetAllExpanded(n, b) == n
    decreases n
  {
    if n.kind == Folder && n.hasChildren {
      forall j | 0 <= j < |n.children| ensures SetAllExpanded(n.children[j], b) == n.children[j] {
        SetAllExpandedFixedPoint(n.children[j], b);
      }
      assert SetAllExpandedIn(n.children, b) == n.children;
    }
  }

  /** Expand-all then collapse-all is collapse-all, and vice versa: the last
      walk decides every flag it reaches. */
  lemma {:induction false} SetAllExpandedLastWins(n: Node, b: bool, c: bool)
    ensures SetAllExpanded(SetAllExpanded(n, b), c) == SetAllExpanded(n, c)
    decreases n
  {
    if n.kind == Folder && n.hasChildren {
      forall j | 0 <= j < |n.children|
        ensures SetAllExpanded(SetAllExpanded(n.children[j], b), c) == SetAllExpanded(n.children[j], c)
      {
        SetAllExpandedLastWins(n.children[j], b, c);
      }
      assert SetAllExpandedIn(SetAllExpandedIn(n.children, b), c) == SetAllExpandedIn(n.children, c);
    }
  }

  /** The walk moves nothing: same ids in the same pre-order positions, and
      the same chat count. */
  lemma {:induction false} SetAllExpandedKeepsShape(n: Node, b: bool)
    ensures Ids(SetAllExpanded(n, b)) == Ids(n)
    ensures SetAllExpanded(n, b).kind == n.kind
    ensures CountChatsInFolder(SetAllExpanded(n, b)) == CountChatsInFolder(n)
    decreases n, 1
  {
    if n.kind == Folder && n.hasChildren {
      SetAllExpandedInKeepsShape(n.children, b);
      IdsWithChildren(n, SetAllExpandedIn(n.children, b));
    }
  }

  lemma {:induction false} SetAllExpandedInKeepsShape(cs: seq<Node>, b: bool)
    ensures IdsOf(PreorderIn(SetAllExpandedIn(cs, b))) == IdsOf(PreorderIn(cs))
    ensures CountChatsInList(SetAllExpandedIn(cs, b)) == CountChatsInList(cs)
    decreases cs, 0
  {
    if cs != [] {
      var r := SetAllExpandedIn(cs, b);
      SetAllExpandedKeepsShape(cs[0], b);
      SetAllExpandedInKeepsShape(cs[1..], b);
      assert r[1..] == SetAllExpandedIn(cs[1..], b);
      IdsOfAppend(Preorder(r[0]), PreorderIn(r[1..]));
      IdsOfAppend(Preorder(cs[0]), PreorderIn(cs[1..]));
      IdsOfAppend([r[0]], Below(r[0]));
      IdsOfAppend([cs[0]], Below(cs[0]));
    }
  }

  // ---------------------------------------------------------------------
  // _deleteNodeById / deleteNodeById (refactored TreeManager and popups)
  // ---------------------------------------------------------------------

  /** The tree after a delete, and the subtree it cut out, if any. */
  datatype Removal = Removal(tree: Node, removed: Option<Node>)

  /** The first child carrying the id is spliced out; only when no child
      carries it is each folder child searched in turn, and the first folder
      where the delete succeeds ends the search. */
  function DeleteById(p: Node, id: string): Removal
    decreases p, 1
  {
    if !p.hasChildren then Removal(p, None)
    else
      var k := IndexOfId(p.children, id);
      if k >= 0 then Removal(p.(children := Without(p.children, k)), Some(p.children[k]))
      else
        var j := FirstDeletable(p.children, id);
        if j < 0 then Removal(p, None)
        else
          var r := DeleteById(p.children[j], id);
          Removal(p.(children := p.children[j := r.tree]), r.removed)
  }

  /** A folder child where the recursive delete succeeds. */
  predicate DeletesBelow(c: Node, id: string)
    decreases c, 2
  {
    c.kind == Folder && DeleteById(c, id).removed.Some?
  }

  /** Index of the first folder child where the delete succeeds, or -1. */
  function FirstDeletable(cs: seq<Node>, id: string): (k: int)
    ensures -1 <= k < |cs|
    ensures k >= 0 ==> DeletesBelow(cs[k], id)
    ensures forall j :: 0 <= j < |cs| && (k < 0 || j < k) ==> !DeletesBelow(cs[j], id)
    decreases cs, 0
  {
    if cs == [] then -1
    else if DeletesBelow(cs[0], id) then 0
    else
      var k := FirstDeletable(cs[1..], id);
      if k < 0 then -1 else k + 1
  }

  /** The delete succeeds exactly when `_isDescendant` would find the id: a
      child carries it, or it lies below a folder child. */
  lemma {:induction false} DeleteSucceedsIff(p: Node, id: string)
    ensures DeleteById(p, id).removed.Some? <==> FolderDescendant(p, id)
    decreases p
  {
    if p.hasChildren {
      forall j | 0 <= j < |p.children| ensures DeleteById(p.children[j], id).removed.Some? <==> FolderDescendant(p.children[j], id) {
        DeleteSucceedsIff(p.children[j], id);
      }
    }
  }

  /** What the delete does: a failed delete changes nothing; a successful one
      keeps the start node's own fields, cuts out a subtree whose top node
      carries the id, and the ids it loses are exactly those of that
      subtree. */
  lemma {:induction false} DeleteByIdRemoves(p: Node, id: string)
    ensures DeleteById(p, id).removed.None? ==> DeleteById(p, id).tree == p
    ensures DeleteById(p, id).tree == p.(children := DeleteById(p, id).tree.children)
    ensures DeleteById(p, id).removed.Some? ==>
      && DeleteById(p, id).removed.value.id == id
      && multiset(Ids(DeleteById(p, id).tree)) + multiset(Ids(DeleteById(p, id).removed.value)) == multiset(Ids(p))
    decreases p
  {
    if p.hasChildren {
      var k := IndexOfId(p.children, id);
      if k >= 0 {
        IdsRemoveChild(p, k);
      } else {
        var j := FirstDeletable(p.children, id);
        if j >= 0 {
          var r := DeleteById(p.children[j], id);
          DeleteByIdRemoves(p.children[j], id);
          IdsReplaceChild(p, j, r.tree);
          var m := multiset(Ids(r.removed.value));
          Trade(multiset(Ids(p)), multiset(Ids(DeleteById(p, id).tree)), multiset(Ids(p.children[j])), multiset(Ids(r.tree)),
                m, multiset{});
          assert multiset(Ids(r.tree)) + m == multiset(Ids(p.children[j])) + multiset{};
        }
      }
    }
  }

  /** With unique ids a successful delete leaves no node with that id. */
  lemma DeleteByIdLeavesNoMatch(p: Node, id: string)
    requires UniqueIds(p) && DeleteById(p, id).removed.Some?
    ensures id !in Ids(DeleteById(p, id).tree)
  {
    DeleteByIdRemoves(p, id);
    var r := DeleteById(p, id);
    assert Ids(r.removed.value)[0] == id;
    assert multiset(Ids(r.removed.value))[id] >= 1;
    UniqueIdsOccurOnce(p, id);
  }

  /** With unique ids every id occurs at most once in the multiset of ids. */
  lemma UniqueIdsOccurOnce(n: Node, id: string)
    requires UniqueIds(n)
    ensures multiset(Ids(n))[id] <= 1
  {
    DistinctOccursOnce(Ids(n), id);
  }

  lemma {:induction false} DistinctOccursOnce(s: seq<string>, x: string)
    requires forall i, j :: 0 <= i < j < |s| ==> s[i] != s[j]
    ensures multiset(s)[x] <= 1
  {
    if s != [] {
      assert s == [s[0]] + s[1..];
      DistinctOccursOnce(s[1..], x);
      if s[0] == x {
        assert x !in s[1..] by {
          forall i | 0 <= i < |s[1..]| ensures s[1..][i] != x {
            assert s[1..][i] == s[i + 1];
          }
        }
      }
    }
  }

  // ---------------------------------------------------------------------
  // Appending, toggling, and the imperative walks shared by the tree stores
  // ---------------------------------------------------------------------

  /** `!node.expanded` stored back: an absent flag becomes true. */
  function Toggled(n: Node): Node {
    n.(expanded := Some(!Truthy(n.expanded)))
  }

  /** The tree after `addNode(parentId, node)`. */
  function AddChild(root: Node, parentId: string, c: Node): Node {
    UpdateFirst(root, parentId, (p: Node) => Append(p, c))
  }

  /** Pushing one node adds exactly the ids of its subtree. */
  lemma IdsAppend(m: Node, c: Node)
    ensures multiset(Ids(Append(m, c))) == multiset(Ids(m)) + multiset(Ids(c))
  {
    IdsAppendAll(m, [c]);
    assert PreorderIn([c]) == Preorder(c);
    assert AppendAll(m, [c]) == Append(m, c);
  }

  /** A node without a child list carries its own id alone. */
  lemma LeafIds(c: Node)
    requires !c.hasChildren || c.children == []
    ensures multiset(Ids(c)) == multiset{c.id}
  {
    assert Preorder(c) == [c];
    assert Ids(c) == [c.id];
  }

  /** An append lands as the parent's last child, adds exactly the ids of
      the new subtree, and keeps the root's id. */
  lemma AddChildAppends(root: Node, parentId: string, c: Node)
    requires FindById(root, parentId).Some?
    ensures FindById(AddChild(root, parentId, c), parentId) == Some(Append(FindById(root, parentId).value, c))
    ensures multiset(Ids(AddChild(root, parentId, c))) == multiset(Ids(root)) + multiset(Ids(c))
    ensures AddChild(root, parentId, c).id == root.id
  {
    var f := (p: Node) => Append(p, c);
    var m := FindById(root, parentId).value;
    assert f(m) == Append(m, c);
    UpdateFirstFinds(root, parentId, f);
    UpdateFirstIds(root, parentId, f);
    IdsAppend(m, c);
    var before, after := multiset(Ids(root)), multiset(Ids(AddChild(root, parentId, c)));
    Cancel(after, before + multiset(Ids(c)), multiset(Ids(m)));
  }

  /** Every node of a tree whose chats have no children has that property. */
  lemma OnlyFoldersBelow(n: Node, m: Node)
    requires OnlyFoldersHaveChildren(n) && m in Preorder(n)
    ensures OnlyFoldersHaveChildren(m)
    decreases n
  {
    if m != n {
      assert m in PreorderIn(n.children);
      PreorderInMember(n.children, m);
      var j :| 0 <= j < |n.children| && m in Preorder(n.children[j]);
      OnlyFoldersBelow(n.children[j], m);
    }
  }

  /** With unique ids and chats without children, the delete of a non-root
      node's id succeeds and cuts out that node. */
  lemma DeleteSourceRemovesIt(root: Node, source: Node, i: int)
    requires UniqueIds(root) && OnlyFoldersHaveChildren(root)
    requires 0 < i < |Preorder(root)| && Preorder(root)[i] == source
    ensures DeleteById(root, source.id).removed == Some(source)
  {
    assert source.id in IdsOf(Below(root)) by {
      assert Below(root)[i - 1] == source;
    }
    AnyDescendantIff(root, source.id);
    FolderDescendantAgrees(root, source.id);
    DeleteSucceedsIff(root, source.id);
    var r := DeleteById(root, source.id).removed.value;
    DeleteByIdInTree(root, source.id);
    DeleteByIdRemoves(root, source.id);
    SameIdSameNode(root, r, source);
  }

  /** The subtree a delete cuts out is a node of the tree. */
  lemma {:induction false} DeleteByIdInTree(p: Node, id: string)
    ensures DeleteById(p, id).removed.Some? ==> DeleteById(p, id).removed.value in Preorder(p)
    decreases p
  {
    if p.hasChildren {
      var k := IndexOfId(p.children, id);
      if k >= 0 {
        ChildSubtreeInPreorder(p, k);
      } else {
        var j := FirstDeletable(p.children, id);
        if j >= 0 {
          DeleteByIdInTree(p.children[j], id);
          ChildSubtreeInPreorder(p, j);
        }
      }
    }
  }

  /** toggleNode flips what a later lookup sees, and moves nothing. */
  lemma ToggleFlips(root: Node, nodeId: string)
    requires FindById(root, nodeId).Some? && FindById(root, nodeId).value.kind == Folder
    ensures FindById(UpdateFirst(root, nodeId, Toggled), nodeId) == Some(Toggled(FindById(root, nodeId).value))
    ensures multiset(Ids(UpdateFirst(root, nodeId, Toggled))) == multiset(Ids(root))
    ensures CountChatsInFolder(UpdateFirst(root, nodeId, Toggled)) == CountChatsInFolder(root)
  {
    var m := FindById(root, nodeId).value;
    var t := UpdateFirst(root, nodeId, Toggled);
    UpdateFirstFinds(root, nodeId, Toggled);
    UpdateFirstIds(root, nodeId, Toggled);
    UpdateFirstKeepsChatCount(root, nodeId, Toggled);
    SameShapeSameIds(m, Toggled(m));
    Cancel(multiset(Ids(t)), multiset(Ids(root)), multiset(Ids(m)));
  }

  /** Two nodes that differ only in fields other than id and children carry
      the same ids. */
  lemma SameShapeSameIds(m: Node, m': Node)
    requires m.id == m'.id && m.hasChildren == m'.hasChildren && m.children == m'.children
    ensures Ids(m) == Ids(m')
  {
    IdsOfAppend([m], Below(m));
    IdsOfAppend([m'], Below(m'));
  }

  /** Without a match the edit changes nothing. */
  lemma {:induction false} UpdateFirstMissing(n: Node, id: string, f: Node -> Node)
    requires FindById(n, id).None?
    ensures UpdateFirst(n, id, f) == n
  {
  }

  /** Without a parent to edit the tree is unchanged. */
  lemma {:induction false} UpdateParentOfMissing(n: Node, id: string, g: Node -> Node)
    requires FindParent(n, id).None?
    ensures UpdateParentOf(n, id, g) == n
  {
  }

  /** An edit that keeps the found node's id, type and children (a rename or
      a flag write) keeps the ids and the chat count of the whole tree. */
  lemma Relabel(n: Node, id: string, f: Node -> Node)
    requires forall m :: f(m).id == m.id && f(m).kind == m.kind && f(m).hasChildren == m.hasChildren && f(m).children == m.children
    ensures multiset(Ids(UpdateFirst(n, id, f))) == multiset(Ids(n))
    ensures CountChatsInFolder(UpdateFirst(n, id, f)) == CountChatsInFolder(n)
  {
    if FindById(n, id).Some? {
      var m := FindById(n, id).value;
      UpdateFirstIds(n, id, f);
      SameShapeSameIds(m, f(m));
      Cancel(multiset(Ids(UpdateFirst(n, id, f))), multiset(Ids(n)), multiset(Ids(m)));
      UpdateFirstKeepsChatCount(n, id, f);
    } else {
      UpdateFirstMissing(n, id, f);
    }
  }

  /** An edit whose image of the found node gains the ids `extra` makes the
      whole tree gain exactly those ids. */
  lemma UpdateFirstGains(n: Node, id: string, f: Node -> Node, extra: multiset<string>)
    requires FindById(n, id).Some?
    requires multiset(Ids(f(FindById(n, id).value))) == multiset(Ids(FindById(n, id).value)) + extra
    ensures multiset(Ids(UpdateFirst(n, id, f))) == multiset(Ids(n)) + extra
  {
    var m := FindById(n, id).value;
    UpdateFirstIds(n, id, f);
    Cancel(multiset(Ids(UpdateFirst(n, id, f))), multiset(Ids(n)) + extra, multiset(Ids(m)));
  }

  /** `_deleteNodeById(parentNode, id)` of the TreeManager class and
      `deleteNodeById` of the popups: `findIndex` over the children, then the
      loop over the folder children. */
  method DeleteNodeById(parent: Node, id: string) returns (r: Removal)
    ensures r == DeleteById(parent, id)
    decreases parent
  {
    if !parent.hasChildren {
      return Removal(parent, None);
    }
    var cs := parent.children;
    var index := 0;
    while index < |cs| && cs[index].id != id
      invariant 0 <= index <= |cs|
      invariant forall j :: 0 <= j < index ==> cs[j].id != id
    {
      index := index + 1;
    }
    if index < |cs| {
      return Removal(parent.(children := cs[..index] + cs[index + 1..]), Some(cs[index]));
    }
    var i := 0;
    while i < |cs|
      invariant 0 <= i <= |cs|
      invariant forall j :: 0 <= j < i ==> !DeletesBelow(cs[j], id)
    {
      if cs[i].kind == Folder {
        var deleted := DeleteNodeById(cs[i], id);
        if deleted.removed.Some? {
          return Removal(parent.(children := cs[i := deleted.tree]), deleted.removed);
        }
      }
      i := i + 1;
    }
    return Removal(parent, None);
  }

  /** `_expandNode` (expanded = true) and `_collapseNode` (false) of the
      TreeManager class, and the popups' `expandNode` / `collapseNode`: the
      recursive walk with its `forEach` over the children. */
  method FlagFolders(node: Node, expanded: bool) returns (r: Node)
    ensures r == SetAllExpanded(node, expanded)
    decreases node
  {
    if node.kind != Folder {
      return node;
    }
    if !node.hasChildren {
      return node.(expanded := Some(expanded));
    }
    var cs := node.children;
    var walked: seq<Node> := [];
    var i := 0;
    while i < |cs|
      invariant 0 <= i <= |cs| && |walked| == i
      invariant forall j :: 0 <= j < i ==> walked[j] == SetAllExpanded(cs[j], expanded)
    {
      var c := FlagFolders(cs[i], expanded);
      walked := walked + [c];
      i := i + 1;
    }
    assert walked == SetAllExpandedIn(cs, expanded);
    return node.(expanded := Some(expanded), children := walked);
  }
}
