/** The folder/chat tree that every revision of the extension keeps in memory,
    and the recursive queries the revisions share: lookup by id, the parent
    lookup, the descendant tests, the chat counts and the depth-first order
    the lookups follow. */
module Tree {

  datatype Option<T> = None | Some(value: T)

  /** The `type` property of a node: `'folder'`, `'chat'`, or any other string. */
  datatype Kind = Folder | Chat | OtherKind(typeName: string)

  /** The inline-form flags `isCreatingChat`, `isCreatingFolder` and
      `isEditing`; false stands for an absent property. */
  datatype Forms = Forms(creatingChat: bool, creatingFolder: bool, editing: bool)

  const NoForms := Forms(false, false, false)

  /** One node of the tree. `hasChildren` says whether the node has a
      `children` property at all (a chat has none); `expanded`, `link`, `tag`
      and `parentId` are None when the property is absent or null. */
  datatype Node = Node(
    id: string,
    name: string,
    kind: Kind,
    hasChildren: bool,
    children: seq<Node>,
    expanded: Option<bool>,
    link: Option<string>,
    tag: Option<string>,
    tags: seq<string>,
    parentId: Option<string>,
    forms: Forms)

  /** A folder with an empty child list. */
  function FolderNode(id: string, name: string, expanded: bool): (n: Node)
    ensures n.kind == Folder && n.hasChildren && n.children == []
    ensures n.id == id && n.name == name && n.expanded == Some(expanded)
  {
    Node(id, name, Folder, true, [], Some(expanded), None, None, [], None, NoForms)
  }

  /** A chat: no `children` property. */
  function ChatNode(id: string, name: string, link: Option<string>, tag: Option<string>): (n: Node)
    ensures n.kind == Chat && !n.hasChildren && n.children == []
    ensures n.id == id && n.name == name && n.link == link && n.tag == tag
  {
    Node(id, name, Chat, false, [], None, link, tag, [], None, NoForms)
  }

  /** The children a walk visits: none when the property is absent. */
  function Kids(n: Node): seq<Node> {
    if n.hasChildren then n.children else []
  }

  /** JavaScript truthiness of an optional `expanded` flag. */
  predicate Truthy(e: Option<bool>) {
    e.Some? && e.value
  }

  // ---------------------------------------------------------------------
  // Depth-first pre-order: the reference order of every walk below.
  // ---------------------------------------------------------------------

  function Preorder(n: Node): (r: seq<Node>)
    ensures |r| >= 1 && r[0] == n
    decreases n, 1
  {
    [n] + (if n.hasChildren then PreorderIn(n.children) else [])
  }

  function PreorderIn(cs: seq<Node>): seq<Node>
    decreases cs, 0
  {
    if cs == [] then [] else Preorder(cs[0]) + PreorderIn(cs[1..])
  }

  lemma {:induction false} PreorderInAppend(a: seq<Node>, b: seq<Node>)
    ensures PreorderIn(a + b) == PreorderIn(a) + PreorderIn(b)
  {
    if a == [] {
      assert a + b == b;
    } else {
      assert (a + b)[1..] == a[1..] + b;
      PreorderInAppend(a[1..], b);
    }
  }

  /** The pre-order of a child list whose entry j is replaced by x. */
  lemma PreorderInSplit(cs: seq<Node>, j: int, x: Node)
    requires 0 <= j < |cs|
    ensures PreorderIn(cs) == PreorderIn(cs[..j]) + Preorder(cs[j]) + PreorderIn(cs[j + 1..])
    ensures PreorderIn(cs[j := x]) == PreorderIn(cs[..j]) + Preorder(x) + PreorderIn(cs[j + 1..])
    ensures PreorderIn(cs[..j] + cs[j + 1..]) == PreorderIn(cs[..j]) + PreorderIn(cs[j + 1..])
  {
    assert cs == cs[..j] + ([cs[j]] + cs[j + 1..]);
    assert cs[j := x] == cs[..j] + ([x] + cs[j + 1..]);
    PreorderInAppend(cs[..j], [cs[j]] + cs[j + 1..]);
    PreorderInAppend([cs[j]], cs[j + 1..]);
    PreorderInAppend(cs[..j], [x] + cs[j + 1..]);
    PreorderInAppend([x], cs[j + 1..]);
    PreorderInAppend(cs[..j], cs[j + 1..]);
    assert PreorderIn([cs[j]]) == Preorder(cs[j]);
    assert PreorderIn([x]) == Preorder(x);
  }

  /** Every child list entry's subtree is part of the pre-order of the list. */
  lemma {:induction false} PreorderInContains(cs: seq<Node>, j: int)
    requires 0 <= j < |cs|
    ensures forall m :: m in Preorder(cs[j]) ==> m in PreorderIn(cs)
  {
    PreorderInSplit(cs, j, cs[j]);
  }

  /** A node met in the pre-order of its parent's child list is below the parent. */
  lemma ChildSubtreeInPreorder(n: Node, j: int)
    requires n.hasChildren && 0 <= j < |n.children|
    ensures forall m :: m in Preorder(n.children[j]) ==> m in Preorder(n)
  {
    PreorderInContains(n.children, j);
  }

  /** Membership in pre-order is transitive: a node below a node of the tree
      is a node of the tree. */
  lemma {:induction false} PreorderTrans(n: Node, p: Node, m: Node)
    requires p in Preorder(n) && m in Preorder(p)
    ensures m in Preorder(n)
    decreases n
  {
    if p != n {
      assert p in PreorderIn(n.children);
      PreorderInMember(n.children, p);
      var j :| 0 <= j < |n.children| && p in Preorder(n.children[j]);
      PreorderTrans(n.children[j], p, m);
      ChildSubtreeInPreorder(n, j);
    }
  }

  /** names are the names met going down the tree from n to c, one child
      at a time: n's name first and c's name last. */
  predicate Chain(n: Node, names: seq<string>, c: Node)
    decreases n
  {
    && names != [] && names[0] == n.name
    && ((|names| == 1 && c == n)
        || (|names| > 1 && n.hasChildren
            && exists i :: 0 <= i < |n.children| && Chain(n.children[i], names[1..], c)))
  }

  /** A chain ends with the name of a node of the subtree. */
  lemma {:induction false} ChainEnds(n: Node, names: seq<string>, c: Node)
    requires Chain(n, names, c)
    ensures names[|names| - 1] == c.name && c in Preorder(n)
    decreases n
  {
    if !(|names| == 1 && c == n) {
      var i :| 0 <= i < |n.children| && Chain(n.children[i], names[1..], c);
      ChainEnds(n.children[i], names[1..], c);
      ChildSubtreeInPreorder(n, i);
    }
  }

  /** The ids of a sequence of nodes, in order. */
  function IdsOf(s: seq<Node>): (r: seq<string>)
    ensures |r| == |s|
    ensures forall i :: 0 <= i < |s| ==> r[i] == s[i].id
  {
    seq(|s|, i requires 0 <= i < |s| => s[i].id)
  }

  lemma IdsOfAppend(a: seq<Node>, b: seq<Node>)
    ensures IdsOf(a + b) == IdsOf(a) + IdsOf(b)
  {
  }

  /** Every id in the tree, in depth-first pre-order. */
  function Ids(n: Node): seq<string> {
    IdsOf(Preorder(n))
  }

  /** No two nodes of the tree share an id. */
  predicate UniqueIds(n: Node) {
    forall i, j :: 0 <= i < j < |Ids(n)| ==> Ids(n)[i] != Ids(n)[j]
  }

  // ---------------------------------------------------------------------
  // findById
  // ---------------------------------------------------------------------

  /** `findById(node, id)`: the node itself when its id matches, otherwise
      the first match found child by child, depth first. */
  function FindById(n: Node, id: string): (r: Option<Node>)
    ensures r.Some? ==> r.value.id == id
    ensures n.id == id ==> r == Some(n)
    decreases n, 1
  {
    if n.id == id then Some(n)
    else if !n.hasChildren then None
    else
      var k := FirstFound(n.children, id);
      if k < 0 then None else FindById(n.children[k], id)
  }

  /** Index of the first child whose subtree holds the id, or -1. */
  function FirstFound(cs: seq<Node>, id: string): (k: int)
    ensures -1 <= k < |cs|
    ensures k >= 0 ==> FindById(cs[k], id).Some?
    ensures forall j :: 0 <= j < |cs| && (k < 0 || j < k) ==> FindById(cs[j], id).None?
    decreases cs, 0
  {
    if cs == [] then -1
    else if FindById(cs[0], id).Some? then 0
    else
      var k := FirstFound(cs[1..], id);
      if k < 0 then -1 else k + 1
  }

  /** Reference reading of a depth-first search: the first node of a
      sequence carrying the id. */
  function FirstWithId(s: seq<Node>, id: string): (r: Option<Node>)
  {
    if s == [] then None
    else if s[0].id == id then Some(s[0])
    else FirstWithId(s[1..], id)
  }

  lemma {:induction false} FirstWithIdAppend(a: seq<Node>, b: seq<Node>, id: string)
    ensures FirstWithId(a + b, id) == if FirstWithId(a, id).Some? then FirstWithId(a, id) else FirstWithId(b, id)
  {
    if a == [] {
      assert a + b == b;
    } else {
      assert (a + b)[1..] == a[1..] + b;
      FirstWithIdAppend(a[1..], b, id);
    }
  }

  /** FirstWithId finds exactly the first position carrying the id. */
  lemma {:induction false} FirstWithIdPosition(s: seq<Node>, id: string)
    ensures FirstWithId(s, id).None? <==> forall i :: 0 <= i < |s| ==> s[i].id != id
    ensures FirstWithId(s, id).Some? ==>
      exists k :: 0 <= k < |s| && s[k] == FirstWithId(s, id).value && s[k].id == id
        && forall i :: 0 <= i < k ==> s[i].id != id
  {
    if s != [] && s[0].id != id {
      FirstWithIdPosition(s[1..], id);
      if FirstWithId(s, id).Some? {
        var k :| 0 <= k < |s[1..]| && s[1..][k] == FirstWithId(s, id).value && s[1..][k].id == id
          && forall i :: 0 <= i < k ==> s[1..][i].id != id;
        assert s[k + 1] == s[1..][k];
        assert forall i :: 0 <= i < k + 1 ==> s[i].id != id by {
          forall i | 0 <= i < k + 1 ensures s[i].id != id {
            if i > 0 { assert s[i] == s[1..][i - 1]; }
          }
        }
      } else {
        forall i | 0 <= i < |s| ensures s[i].id != id {
          if i > 0 { assert s[i] == s[1..][i - 1]; }
        }
      }
    }
  }

  /** findById returns the first node of the depth-first pre-order that
      carries the id, and null when no node does. */
  lemma {:induction false} FindByIdIsFirstInPreorder(n: Node, id: string)
    ensures FindById(n, id) == FirstWithId(Preorder(n), id)
    decreases n, 1
  {
    if n.id != id && n.hasChildren {
      FindInIsFirstInPreorder(n.children, id);
      FirstWithIdAppend([n], PreorderIn(n.children), id);
    }
  }

  lemma {:induction false} FindInIsFirstInPreorder(cs: seq<Node>, id: string)
    ensures FirstWithId(PreorderIn(cs), id)
      == (var k := FirstFound(cs, id); if k < 0 then None else FindById(cs[k], id))
    decreases cs, 0
  {
    if cs != [] {
      FindByIdIsFirstInPreorder(cs[0], id);
      FindInIsFirstInPreorder(cs[1..], id);
      FirstWithIdAppend(Preorder(cs[0]), PreorderIn(cs[1..]), id);
      var k := FirstFound(cs[1..], id);
      if k >= 0 {
        assert cs[1..][k] == cs[k + 1];
      }
    }
  }

  /** The lookup succeeds exactly for the ids present in the tree. */
  lemma FindByIdSucceedsIff(n: Node, id: string)
    ensures FindById(n, id).Some? <==> id in Ids(n)
  {
    FindByIdIsFirstInPreorder(n, id);
    FirstWithIdPosition(Preorder(n), id);
    if id in Ids(n) {
      var i :| 0 <= i < |Ids(n)| && Ids(n)[i] == id;
      assert Preorder(n)[i].id == id;
    }
  }

  /** The node found is a node of the tree. */
  lemma FindByIdInTree(n: Node, id: string)
    ensures FindById(n, id).Some? ==> FindById(n, id).value in Preorder(n)
  {
    FindByIdIsFirstInPreorder(n, id);
    FirstWithIdPosition(Preorder(n), id);
  }

  /** With unique ids, looking up the id of any node of the tree yields that
      very node. */
  lemma FindByIdUnique(n: Node, i: int)
    requires UniqueIds(n) && 0 <= i < |Preorder(n)|
    ensures FindById(n, Preorder(n)[i].id) == Some(Preorder(n)[i])
  {
    var s := Preorder(n);
    var id := s[i].id;
    FindByIdIsFirstInPreorder(n, id);
    FirstWithIdPosition(s, id);
    var k :| 0 <= k < |s| && s[k] == FirstWithId(s, id).value && s[k].id == id
      && forall j :: 0 <= j < k ==> s[j].id != id;
    assert Ids(n)[k] == id && Ids(n)[i] == id;
  }

  // ---------------------------------------------------------------------
  // Strict descendants
  // ---------------------------------------------------------------------

  /** With unique ids, a node of the tree is determined by its id. */
  lemma SameIdSameNode(n: Node, a: Node, b: Node)
    requires UniqueIds(n) && a in Preorder(n) && b in Preorder(n) && a.id == b.id
    ensures a == b
  {
    var s := Preorder(n);
    var i :| 0 <= i < |s| && s[i] == a;
    var j :| 0 <= j < |s| && s[j] == b;
    assert Ids(n)[i] == Ids(n)[j];
  }

  /** The nodes strictly below n, in pre-order. */
  function Below(n: Node): (r: seq<Node>)
    ensures Preorder(n) == [n] + r
  {
    if n.hasChildren then PreorderIn(n.children) else []
  }

  /** A node lies in the pre-order of a child list exactly when it lies in
      the subtree of one of its entries. */
  lemma {:induction false} PreorderInMember(cs: seq<Node>, m: Node)
    ensures m in PreorderIn(cs) <==> exists j :: 0 <= j < |cs| && m in Preorder(cs[j])
  {
    if cs != [] {
      PreorderInMember(cs[1..], m);
      if m in PreorderIn(cs[1..]) {
        var j :| 0 <= j < |cs[1..]| && m in Preorder(cs[1..][j]);
        assert cs[1..][j] == cs[j + 1];
      }
      if exists j :: 0 <= j < |cs| && m in Preorder(cs[j]) {
        var j :| 0 <= j < |cs| && m in Preorder(cs[j]);
        if j > 0 {
          assert cs[j] == cs[1..][j - 1];
        }
      }
    }
  }

  /** An id occurs in the pre-order of a child list exactly when it occurs
      in the subtree of one of its entries. */
  lemma {:induction false} IdInPreorderIn(cs: seq<Node>, id: string)
    ensures id in IdsOf(PreorderIn(cs)) <==> exists j :: 0 <= j < |cs| && id in Ids(cs[j])
  {
    if cs != [] {
      IdInPreorderIn(cs[1..], id);
      IdsOfAppend(Preorder(cs[0]), PreorderIn(cs[1..]));
      if id in IdsOf(PreorderIn(cs[1..])) {
        var j :| 0 <= j < |cs[1..]| && id in Ids(cs[1..][j]);
        assert cs[1..][j] == cs[j + 1];
      }
      if exists j :: 0 <= j < |cs| && id in Ids(cs[j]) {
        var j :| 0 <= j < |cs| && id in Ids(cs[j]);
        if j > 0 {
          assert cs[j] == cs[1..][j - 1];
        }
      }
    }
  }

  /** An id occurs strictly below n exactly when some child carries it or
      occurs strictly below some child. */
  lemma IdBelow(n: Node, id: string)
    ensures id in IdsOf(Below(n)) <==>
      n.hasChildren && exists j :: 0 <= j < |n.children| && (n.children[j].id == id || id in IdsOf(Below(n.children[j])))
  {
    if n.hasChildren {
      IdInPreorderIn(n.children, id);
      forall j | 0 <= j < |n.children|
        ensures id in Ids(n.children[j]) <==> n.children[j].id == id || id in IdsOf(Below(n.children[j]))
      {
        IdsOfAppend([n.children[j]], Below(n.children[j]));
      }
    }
  }

  /** Only folders carry children: what the extension's own operations keep. */
  predicate OnlyFoldersHaveChildren(n: Node) {
    && (n.kind != Folder ==> Kids(n) == [])
    && (n.hasChildren ==> forall j :: 0 <= j < |n.children| ==> OnlyFoldersHaveChildren(n.children[j]))
  }

  // ---------------------------------------------------------------------
  // findParentNode
  // ---------------------------------------------------------------------

  /** `findParentNode(node, id)`: the children are visited in order; a child
      carrying the id makes `node` the answer, otherwise the search goes
      into that child before moving to the next one. */
  function FindParent(n: Node, id: string): Option<Node>
    decreases n, 1
  {
    if !n.hasChildren then None
    else
      var k := FirstHit(n.children, id);
      if k < 0 then None
      else if n.children[k].id == id then Some(n)
      else FindParent(n.children[k], id)
  }

  /** Index of the first child that carries the id or has a parent of it
      in its subtree, or -1. */
  function FirstHit(cs: seq<Node>, id: string): (k: int)
    ensures -1 <= k < |cs|
    ensures k >= 0 ==> cs[k].id == id || FindParent(cs[k], id).Some?
    ensures forall j :: 0 <= j < |cs| && (k < 0 || j < k) ==> cs[j].id != id && FindParent(cs[j], id).None?
    decreases cs, 0
  {
    if cs == [] then -1
    else if cs[0].id == id || FindParent(cs[0], id).Some? then 0
    else
      var k := FirstHit(cs[1..], id);
      if k < 0 then -1 else k + 1
  }

  /** findParentNode answers exactly for the ids that occur strictly below
      the start node. */
  lemma {:induction false} FindParentSucceedsIff(n: Node, id: string)
    ensures FindParent(n, id).Some? <==> id in IdsOf(Below(n))
    decreases n
  {
    IdBelow(n, id);
    if n.hasChildren {
      forall j | 0 <= j < |n.children| ensures FindParent(n.children[j], id).Some? <==> id in IdsOf(Below(n.children[j])) {
        FindParentSucceedsIff(n.children[j], id);
      }
    }
  }

  /** The answer is a node of the tree, has a child list, and one of its
      children carries the id. */
  lemma {:induction false} FindParentIsParent(n: Node, id: string)
    ensures FindParent(n, id).Some? ==>
      var p := FindParent(n, id).value;
      && p in Preorder(n) && p.hasChildren
      && exists j :: 0 <= j < |p.children| && p.children[j].id == id
    decreases n
  {
    if n.hasChildren {
      var k := FirstHit(n.children, id);
      if k >= 0 && n.children[k].id != id {
        FindParentIsParent(n.children[k], id);
        ChildSubtreeInPreorder(n, k);
      }
    }
  }

  /** With unique ids the start node (the root) has no parent. */
  lemma FindParentOfRoot(n: Node)
    requires UniqueIds(n)
    ensures FindParent(n, n.id) == None
  {
    FindParentSucceedsIff(n, n.id);
    forall i | 0 <= i < |Below(n)| ensures Below(n)[i].id != n.id {
      assert Ids(n)[i + 1] == Below(n)[i].id;
    }
  }

  // ---------------------------------------------------------------------
  // The three descendant tests
  // ---------------------------------------------------------------------

  /** `_isDescendant` of the refactored TreeManager: some child carries the
      id, or some folder child has it as a descendant. Chats' children are
      not searched. */
  predicate FolderDescendant(n: Node, id: string) {
    && n.hasChildren
    && exists j ::
         && 0 <= j < |n.children|
         && (n.children[j].id == id || (n.children[j].kind == Folder && FolderDescendant(n.children[j], id)))
  }

  /** `isDescendant` of the popup's moveNode: like FolderDescendant, but it
      searches below every child. */
  predicate AnyDescendant(n: Node, id: string) {
    && n.hasChildren
    && exists j ::
         && 0 <= j < |n.children|
         && (n.children[j].id == id || AnyDescendant(n.children[j], id))
  }

  /** `isDescendant` of the archived TreeManager: the node itself counts. */
  predicate SubtreeHas(n: Node, id: string) {
    n.id == id || (n.hasChildren && exists j :: 0 <= j < |n.children| && SubtreeHas(n.children[j], id))
  }

  /** The popup's test holds exactly for the ids strictly below the node. */
  lemma {:induction false} AnyDescendantIff(n: Node, id: string)
    ensures AnyDescendant(n, id) <==> id in IdsOf(Below(n))
    decreases n
  {
    IdBelow(n, id);
    if n.hasChildren {
      forall j | 0 <= j < |n.children| ensures AnyDescendant(n.children[j], id) <==> id in IdsOf(Below(n.children[j])) {
        AnyDescendantIff(n.children[j], id);
      }
    }
  }

  /** The archived test holds exactly for the ids of the whole subtree, the
      node's own id included. */
  lemma {:induction false} SubtreeHasIff(n: Node, id: string)
    ensures SubtreeHas(n, id) <==> id in Ids(n)
    decreases n
  {
    IdsOfAppend([n], Below(n));
    assert Ids(n) == [n.id] + IdsOf(Below(n));
    IdBelow(n, id);
    if n.hasChildren {
      forall j | 0 <= j < |n.children|
        ensures SubtreeHas(n.children[j], id) <==> n.children[j].id == id || id in IdsOf(Below(n.children[j]))
      {
        SubtreeHasIff(n.children[j], id);
        IdsOfAppend([n.children[j]], Below(n.children[j]));
        assert Ids(n.children[j]) == [n.children[j].id] + IdsOf(Below(n.children[j]));
      }
    }
  }

  /** When only folders carry children, the refactored TreeManager's test
      and the popup's test agree. */
  lemma {:induction false} FolderDescendantAgrees(n: Node, id: string)
    requires OnlyFoldersHaveChildren(n)
    ensures FolderDescendant(n, id) <==> AnyDescendant(n, id)
    decreases n
  {
    if n.hasChildren {
      forall j | 0 <= j < |n.children|
        ensures (n.children[j].kind == Folder && FolderDescendant(n.children[j], id)) <==> AnyDescendant(n.children[j], id)
      {
        FolderDescendantAgrees(n.children[j], id);
      }
    }
  }

  // ---------------------------------------------------------------------
  // countChatsInFolder and the chats it counts
  // ---------------------------------------------------------------------

  /** `countChatsInFolder(folder)`: 0 without a child list; otherwise each
      chat child counts one, each folder child its own count, any other
      child nothing. */
  function CountChatsInFolder(n: Node): nat
    decreases n, 1
  {
    if !n.hasChildren then 0 else CountChatsInList(n.children)
  }

  function CountChatsInList(cs: seq<Node>): nat
    decreases cs, 0
  {
    if cs == [] then 0
    else
      (match cs[0].kind
         case Chat => 1
         case Folder => CountChatsInFolder(cs[0])
         case OtherKind(_) => 0)
      + CountChatsInList(cs[1..])
  }

  /** The chats reachable from n through folder children, depth first in
      child order: the order in which `moveAllChatsToParent` pushes them. */
  function ChatsUnder(n: Node): seq<Node>
    decreases n, 1
  {
    if !n.hasChildren then [] else ChatsUnderList(n.children)
  }

  function ChatsUnderList(cs: seq<Node>): seq<Node>
    decreases cs, 0
  {
    if cs == [] then []
    else
      (match cs[0].kind
         case Chat => [cs[0]]
         case Folder => ChatsUnder(cs[0])
         case OtherKind(_) => [])
      + ChatsUnderList(cs[1..])
  }

  /** countChatsInFolder counts exactly the chats reachable through folders:
      every one is a chat lying strictly below the folder. */
  lemma {:induction false} CountChatsInFolderCounts(n: Node)
    ensures CountChatsInFolder(n) == |ChatsUnder(n)|
    ensures forall c :: c in ChatsUnder(n) ==> c.kind == Chat && c in Below(n)
    decreases n, 1
  {
    if n.hasChildren {
      CountChatsInListCounts(n.children);
    }
  }

  lemma {:induction false} CountChatsInListCounts(cs: seq<Node>)
    ensures CountChatsInList(cs) == |ChatsUnderList(cs)|
    ensures forall c :: c in ChatsUnderList(cs) ==> c.kind == Chat && c in PreorderIn(cs)
    decreases cs, 0
  {
    if cs != [] {
      CountChatsInListCounts(cs[1..]);
      if cs[0].kind == Folder {
        CountChatsInFolderCounts(cs[0]);
      }
    }
  }
}
