/** The module-level state of popup.js and the handlers that change it: the
    `data` tree, the search index and search mode, and the two form
    variables `currentEditNode` / `currentAddParentId`. Every handler that
    calls `saveData` rebuilds the search index from the new tree. */
module PopupState {
  import opened Text
  import opened Tree
  import opened TreeEdit
  import opened ChatIndex
  import opened Seqs
  import opened Popup

  // ---------------------------------------------------------------------
  // buildSearchIndex / searchChats
  // ---------------------------------------------------------------------

  /** One entry of `searchIndex.chats`; the tag is `node.tag || ''`. */
  datatype Entry = Entry(id: string, name: string, tag: string, link: Option<string>, path: seq<string>)

  function TagOrEmpty(t: Option<string>): string {
    if t.Some? then t.value else ""
  }

  function EntryOf(l: Located): Entry {
    Entry(l.node.id, l.node.name, TagOrEmpty(l.node.tag), l.node.link, l.path)
  }

  function EntriesOf(ls: seq<Located>): (r: seq<Entry>)
    ensures |r| == |ls|
  {
    if ls == [] then [] else [EntryOf(ls[0])] + EntriesOf(ls[1..])
  }

  lemma {:induction false} EntriesOfAt(ls: seq<Located>)
    ensures forall i :: 0 <= i < |ls| ==> EntriesOf(ls)[i] == EntryOf(ls[i])
  {
    if ls != [] {
      EntriesOfAt(ls[1..]);
      forall i | 1 <= i < |ls| ensures EntriesOf(ls)[i] == EntryOf(ls[i]) {
        assert ls[i] == ls[1..][i - 1];
      }
    }
  }

  lemma {:induction false} EntriesOfAppend(a: seq<Located>, b: seq<Located>)
    ensures EntriesOf(a + b) == EntriesOf(a) + EntriesOf(b)
  {
    if a == [] {
      assert a + b == b;
    } else {
      assert (a + b)[0] == a[0] && (a + b)[1..] == a[1..] + b;
      EntriesOfAppend(a[1..], b);
    }
  }

  /** The index `buildSearchIndex()` returns for the tree. */
  function SearchIndexOf(data: Node): seq<Entry> {
    EntriesOf(Locate(data, []))
  }

  /** `indexNode(node, path)`: pushes the node's entry when it is a chat, then
      walks its children with the path extended by the node's name. */
  method IndexNode(node: Node, path: seq<string>, acc: seq<Entry>) returns (r: seq<Entry>)
    ensures r == acc + EntriesOf(Locate(node, path))
    decreases node
  {
    var newPath := path + [node.name];
    ghost var own: seq<Located> := if node.kind == Chat then [Located(node, newPath)] else [];
    var cs := if node.hasChildren then node.children else [];
    assert Locate(node, path) == own + LocateIn(cs, newPath);
    r := acc;
    if node.kind == Chat {
      r := r + [Entry(node.id, node.name, TagOrEmpty(node.tag), node.link, newPath)];
      assert EntriesOf(own) == [EntryOf(own[0])];
    } else {
      assert EntriesOf(own) == [];
    }
    ghost var start := r;
    assert start == acc + EntriesOf(own);
    var i := 0;
    while i < |cs|
      invariant 0 <= i <= |cs|
      invariant r == start + EntriesOf(LocateIn(cs[..i], newPath))
    {
      r := IndexNode(cs[i], newPath, r);
      LocateInSnoc(cs, i, newPath);
      EntriesOfAppend(LocateIn(cs[..i], newPath), Locate(cs[i], newPath));
      Assoc(start, EntriesOf(LocateIn(cs[..i], newPath)), EntriesOf(Locate(cs[i], newPath)));
      i := i + 1;
    }
    assert cs[..|cs|] == cs;
    EntriesOfAppend(own, LocateIn(cs, newPath));
    Assoc(acc, EntriesOf(own), EntriesOf(LocateIn(cs, newPath)));
  }

  /** `buildSearchIndex()`. */
  method BuildSearchIndex(data: Node) returns (index: seq<Entry>)
    ensures index == SearchIndexOf(data)
  {
    index := IndexNode(data, [], []);
  }

  /** The index holds one entry per chat of the tree, in depth-first
      pre-order; each entry copies the chat's id, name and link, stores an
      absent tag as '', and its path is the names met going down from the
      top node to the chat, both included. */
  lemma SearchIndexListsChats(data: Node)
    ensures var index, chats := SearchIndexOf(data), ChatsIn(Preorder(data));
      && |index| == |chats|
      && forall i :: 0 <= i < |index| ==>
           && index[i].id == chats[i].id && index[i].name == chats[i].name
           && index[i].link == chats[i].link && index[i].tag == TagOrEmpty(chats[i].tag)
           && Chain(data, index[i].path, chats[i])
  {
    LocateFindsChats(data, []);
    LocatePaths(data, []);
    EntriesMatch(Locate(data, []), ChatsIn(Preorder(data)), data);
  }

  predicate EntryMatches(e: Entry, c: Node, top: Node) {
    && e.id == c.id && e.name == c.name && e.link == c.link && e.tag == TagOrEmpty(c.tag)
    && Chain(top, e.path, c)
  }

  /** Entry by entry, the index of a walk copies the chats it met. */
  lemma EntriesMatch(ls: seq<Located>, chats: seq<Node>, top: Node)
    requires NodesOf(ls) == chats
    requires forall l :: l in ls ==> PathFrom(l, [], top)
    ensures |EntriesOf(ls)| == |chats|
    ensures forall i :: 0 <= i < |ls| ==> EntryMatches(EntriesOf(ls)[i], chats[i], top)
  {
    EntriesOfAt(ls);
    forall i | 0 <= i < |ls| ensures EntryMatches(EntriesOf(ls)[i], chats[i], top) {
      assert ls[i] in ls;
      assert ls[i].path[0..] == ls[i].path;
    }
  }

  /** The match test of `searchChats`: the lower-cased query occurs in the
      lower-cased name, or in the lower-cased tag when the tag is not
      empty. */
  predicate Matches(e: Entry, query: string) {
    ContainsIgnoreCase(e.name, query) || (e.tag != "" && ContainsIgnoreCase(e.tag, query))
  }

  function Matcher(query: string): Entry -> bool {
    (e: Entry) => Matches(e, query)
  }

  /** What `searchChats(query)` returns for an index. */
  function Hits(index: seq<Entry>, query: string): seq<Entry> {
    Keep(index, Matcher(query))
  }

  /** An entry is a hit exactly when it is in the index and matches; the hits
      keep the index order. */
  lemma HitsAreMatches(index: seq<Entry>, query: string)
    ensures forall e :: e in Hits(index, query) <==> e in index && Matches(e, query)
    ensures Subsequence(Hits(index, query), index)
  {
    KeepMembers(index, Matcher(query));
    KeepIsSubsequence(index, Matcher(query));
  }

  /** The `forEach` of `searchChats` over the index: the matching entries
      are pushed in index order. */
  method FilterIndex(index: seq<Entry>, query: string) returns (results: seq<Entry>)
    ensures results == Hits(index, query)
  {
    results := [];
    var i := 0;
    while i < |index|
      invariant 0 <= i <= |index|
      invariant results == Keep(index[..i], Matcher(query))
    {
      KeepSnoc(index, i, Matcher(query));
      if Matches(index[i], query) {
        results := results + [index[i]];
      }
      i := i + 1;
    }
    assert index[..|index|] == index;
  }

  // ---------------------------------------------------------------------
  // Form submits
  // ---------------------------------------------------------------------

  /** How a form submit ends: refused by validation, refused for a missing
      or non-folder parent, aborted by a `push` onto a parent without a child
      list (a TypeError), or saved. */
  datatype Submit = Blank | NoFolderParent | Threw | Saved

  /** `if (parent.expanded === false) parent.expanded = true`. */
  function AutoOpened(p: Node): Node {
    if p.expanded == Some(false) then p.(expanded := Some(true)) else p
  }

  function OpenAndPush(c: Node): Node -> Node {
    (p: Node) => Append(AutoOpened(p), c)
  }

  function Renamed(name: string): Node -> Node {
    (n: Node) => n.(name := name)
  }

  /** `tag || null`. */
  function TagOrNull(tag: string): Option<string> {
    if tag == "" then None else Some(tag)
  }

  function ChatEdited(name: string, link: string, tag: string): Node -> Node {
    (n: Node) => n.(name := name, link := Some(link), tag := TagOrNull(tag))
  }

  /** The outcome of an "add" submit under parentId once validation passed. */
  function AddOutcome(data: Node, parentId: string): Submit {
    var parent := FindById(data, parentId);
    if parent.None? || parent.value.kind != Folder then NoFolderParent
    else if !parent.value.hasChildren then Threw
    else Saved
  }

  /** The tree after an "add" submit of c under parentId. */
  function AddTree(data: Node, parentId: string, c: Node): Node {
    match AddOutcome(data, parentId)
    case NoFolderParent => data
    case Threw => UpdateFirst(data, parentId, AutoOpened)
    case _ => UpdateFirst(data, parentId, OpenAndPush(c))
  }

  /** The folder form: a blank trimmed name is refused; an edit renames the
      node being edited; an add creates an expanded, empty folder. */
  function FolderFormOutcome(data: Node, editId: Option<string>, parentId: string, input: string): Submit {
    if Trim(input) == "" then Blank
    else if editId.Some? then Saved
    else AddOutcome(data, parentId)
  }

  function FolderFormTree(data: Node, editId: Option<string>, parentId: string, input: string, freshId: string): Node {
    var name := Trim(input);
    if name == "" then data
    else if editId.Some? then UpdateFirst(data, editId.value, Renamed(name))
    else AddTree(data, parentId, FolderNode(freshId, name, true))
  }

  /** The chat form: name and link are required after trimming; an edit
      rewrites name, link and tag; an add creates a chat. */
  function ChatFormOutcome(data: Node, editId: Option<string>, parentId: string, name: string, link: string): Submit {
    if Trim(name) == "" || Trim(link) == "" then Blank
    else if editId.Some? then Saved
    else AddOutcome(data, parentId)
  }

  function ChatFormTree(data: Node, editId: Option<string>, parentId: string,
                        name: string, link: string, tag: string, freshId: string): Node {
    var n, l, t := Trim(name), Trim(link), Trim(tag);
    if n == "" || l == "" then data
    else if editId.Some? then UpdateFirst(data, editId.value, ChatEdited(n, l, t))
    else AddTree(data, parentId, ChatNode(freshId, n, Some(l), TagOrNull(t)))
  }

  /** `currentEditNode` after a chat form submit: the handler never clears
      it (popup.js and refacto/popup.js alike). */
  function EditAfterChatForm(out: Submit, editId: Option<string>): Option<string> {
    editId
  }

  /** `currentEditNode` after a chat form submit as the folder form does it:
      cleared once the submit is saved. */
  function EditAfterChatFormIntended(out: Submit, editId: Option<string>): Option<string> {
    if out == Saved then None else editId
  }

  /** What a saved push does to the parent: it is opened, gets c last, and
      its subtree gains exactly c's ids. */
  lemma OpenAndPushGrows(p: Node, c: Node)
    ensures OpenAndPush(c)(p) == Append(AutoOpened(p), c)
    ensures OpenAndPush(c)(p).id == p.id && OpenAndPush(c)(p).expanded != Some(false)
    ensures multiset(Ids(OpenAndPush(c)(p))) == multiset(Ids(p)) + multiset(Ids(c))
  {
    IdsAppend(AutoOpened(p), c);
    SameShapeSameIds(p, AutoOpened(p));
  }

  /** The push written back into the tree: the parent found afterwards is
      the grown one, and the tree gains exactly c's ids. */
  lemma PushIntoTree(data: Node, parentId: string, c: Node)
    requires FindById(data, parentId).Some?
    ensures var r, p := UpdateFirst(data, parentId, OpenAndPush(c)), FindById(data, parentId).value;
      && FindById(r, parentId) == Some(OpenAndPush(c)(p))
      && multiset(Ids(r)) == multiset(Ids(data)) + multiset(Ids(c))
  {
    var p := FindById(data, parentId).value;
    var f := OpenAndPush(c);
    var r := UpdateFirst(data, parentId, f);
    OpenAndPushGrows(p, c);
    UpdateFirstFinds(data, parentId, f);
    UpdateFirstGains(data, parentId, f, multiset(Ids(c)));
  }

  /** A saved "add" appends c as the last child of the parent, opens the
      parent if it was explicitly collapsed, and adds exactly c's ids. */
  lemma AddTreeAppends(data: Node, parentId: string, c: Node)
    requires AddOutcome(data, parentId) == Saved
    ensures var r, p := AddTree(data, parentId, c), FindById(data, parentId).value;
      && FindById(r, parentId) == Some(Append(AutoOpened(p), c))
      && FindById(r, parentId).value.expanded != Some(false)
      && multiset(Ids(r)) == multiset(Ids(data)) + multiset(Ids(c))
  {
    PushIntoTree(data, parentId, c);
    OpenAndPushGrows(FindById(data, parentId).value, c);
  }

  /** An "add" refused for its parent changes nothing; one aborted by the
      missing child list only opens the parent, so the ids stay. */
  lemma AddTreeRefused(data: Node, parentId: string, c: Node)
    requires AddOutcome(data, parentId) != Saved
    ensures AddOutcome(data, parentId) == NoFolderParent ==> AddTree(data, parentId, c) == data
    ensures multiset(Ids(AddTree(data, parentId, c))) == multiset(Ids(data))
  {
    if AddOutcome(data, parentId) == Threw {
      Relabel(data, parentId, AutoOpened);
    }
  }

  /** A saved folder-form add leaves the new folder (expanded, no children)
      last under the parent and adds its id alone. */
  lemma FolderFormAdds(data: Node, parentId: string, input: string, freshId: string)
    requires FolderFormOutcome(data, None, parentId, input) == Saved
    ensures var r, c := FolderFormTree(data, None, parentId, input, freshId), FolderNode(freshId, Trim(input), true);
      && FindById(r, parentId) == Some(Append(AutoOpened(FindById(data, parentId).value), c))
      && multiset(Ids(r)) == multiset(Ids(data)) + multiset{freshId}
  {
    var c := FolderNode(freshId, Trim(input), true);
    assert FolderFormTree(data, None, parentId, input, freshId) == AddTree(data, parentId, c);
    AddTreeAppends(data, parentId, c);
    LeafIds(c);
  }

  /** A saved chat-form add leaves the new chat last under the parent, with
      the trimmed name and link and a tag that is null exactly when the
      trimmed tag is empty. */
  lemma ChatFormAdds(data: Node, parentId: string, name: string, link: string, tag: string, freshId: string)
    requires ChatFormOutcome(data, None, parentId, name, link) == Saved
    ensures var r := ChatFormTree(data, None, parentId, name, link, tag, freshId);
      var c := ChatNode(freshId, Trim(name), Some(Trim(link)), TagOrNull(Trim(tag)));
      && FindById(r, parentId) == Some(Append(AutoOpened(FindById(data, parentId).value), c))
      && multiset(Ids(r)) == multiset(Ids(data)) + multiset{freshId}
      && (c.tag.None? <==> Trim(tag) == "")
  {
    var c := ChatNode(freshId, Trim(name), Some(Trim(link)), TagOrNull(Trim(tag)));
    ChatFormIsAdd(data, parentId, name, link, tag, freshId, c);
    AddTreeAppends(data, parentId, c);
    LeafIds(c);
  }

  lemma ChatFormIsAdd(data: Node, parentId: string, name: string, link: string, tag: string, freshId: string, c: Node)
    requires ChatFormOutcome(data, None, parentId, name, link) == Saved
    requires c == ChatNode(freshId, Trim(name), Some(Trim(link)), TagOrNull(Trim(tag)))
    ensures ChatFormTree(data, None, parentId, name, link, tag, freshId) == AddTree(data, parentId, c)
    ensures AddOutcome(data, parentId) == Saved
    ensures c.tag.None? <==> Trim(tag) == ""
  {
  }

  /** An edit submit changes no id and no chat count; when the edited node is
      in the tree it carries the new name afterwards. */
  lemma FolderFormRenames(data: Node, editId: string, parentId: string, input: string, freshId: string)
    requires Trim(input) != ""
    ensures var r := FolderFormTree(data, Some(editId), parentId, input, freshId);
      && multiset(Ids(r)) == multiset(Ids(data))
      && CountChatsInFolder(r) == CountChatsInFolder(data)
      && (FindById(data, editId).Some? ==> FindById(r, editId) == Some(FindById(data, editId).value.(name := Trim(input))))
  {
    Relabel(data, editId, Renamed(Trim(input)));
    if FindById(data, editId).Some? {
      UpdateFirstFinds(data, editId, Renamed(Trim(input)));
    }
  }

  /** As written: after a saved chat edit, `currentEditNode` still names the
      chat, so the next valid folder-form submit meant as an "add" renames
      that chat and creates no folder. */
  lemma ChatEditCapturesNextAdd(data: Node, chatId: string, parentId: string,
                                name: string, link: string, tag: string, unusedId: string,
                                input: string, freshId: string)
    requires FindById(data, chatId).Some?
    requires Trim(name) != "" && Trim(link) != "" && Trim(input) != ""
    ensures var out := ChatFormOutcome(data, Some(chatId), parentId, name, link);
      var edit := EditAfterChatForm(out, Some(chatId));
      var data' := ChatFormTree(data, Some(chatId), parentId, name, link, tag, unusedId);
      var data'' := FolderFormTree(data', edit, parentId, input, freshId);
      && out == Saved && edit == Some(chatId)
      && FolderFormOutcome(data', edit, parentId, input) == Saved
      && multiset(Ids(data'')) == multiset(Ids(data))
      && FindById(data'', chatId).Some? && FindById(data'', chatId).value.name == Trim(input)
  {
    var f := ChatEdited(Trim(name), Trim(link), Trim(tag));
    var data' := UpdateFirst(data, chatId, f);
    Relabel(data, chatId, f);
    UpdateFirstFinds(data, chatId, f);
    FolderFormRenames(data', chatId, parentId, input, freshId);
  }

  /** Intended: once a saved chat submit clears `currentEditNode`, a
      following valid folder-form "add" creates the folder. */
  lemma ChatSubmitThenFolderAdd(data: Node, editId: Option<string>, parentId: string,
                                name: string, link: string, tag: string, chatId: string,
                                input: string, freshId: string)
    requires ChatFormOutcome(data, editId, parentId, name, link) == Saved
    ensures var data' := ChatFormTree(data, editId, parentId, name, link, tag, chatId);
      var edit := EditAfterChatFormIntended(Saved, editId);
      && edit == None
      && (FolderFormOutcome(data', edit, parentId, input) == Saved ==>
            multiset(Ids(FolderFormTree(data', edit, parentId, input, freshId))) == multiset(Ids(data')) + multiset{freshId})
  {
    var data' := ChatFormTree(data, editId, parentId, name, link, tag, chatId);
    if FolderFormOutcome(data', None, parentId, input) == Saved {
      FolderFormAdds(data', parentId, input, freshId);
    }
  }

  /** The "add" branch of both submit handlers: the parent is looked up by
      id and must be a folder; it is opened when explicitly collapsed, then
      the new node is pushed onto its child list, which throws when the list
      is absent. */
  method AddUnder(data: Node, parentId: string, c: Node) returns (out: Submit, tree: Node)
    ensures out == AddOutcome(data, parentId) && tree == AddTree(data, parentId, c)
  {
    var parent := FindById(data, parentId);
    if parent.None? || parent.value.kind != Folder {
      return NoFolderParent, data;
    }
    if !parent.value.hasChildren {
      return Threw, UpdateFirst(data, parentId, AutoOpened);
    }
    return Saved, UpdateFirst(data, parentId, OpenAndPush(c));
  }

  /** The body of the folder form's submit handler on the tree: validation,
      then the rename of the node being edited or the add of a new expanded
      folder. */
  method FolderSubmit(data: Node, editId: Option<string>, parentId: string, input: string, freshId: string)
    returns (out: Submit, tree: Node)
    ensures out == FolderFormOutcome(data, editId, parentId, input)
    ensures tree == FolderFormTree(data, editId, parentId, input, freshId)
  {
    var name := Trim(input);
    if name == "" {
      return Blank, data;
    }
    if editId.Some? {
      return Saved, UpdateFirst(data, editId.value, Renamed(name));
    }
    out, tree := AddUnder(data, parentId, FolderNode(freshId, name, true));
  }

  /** The body of the chat form's submit handler on the tree. */
  method ChatSubmit(data: Node, editId: Option<string>, parentId: string,
                    name: string, link: string, tag: string, freshId: string)
    returns (out: Submit, tree: Node)
    ensures out == ChatFormOutcome(data, editId, parentId, name, link)
    ensures tree == ChatFormTree(data, editId, parentId, name, link, tag, freshId)
  {
    var n, l, t := Trim(name), Trim(link), Trim(tag);
    if n == "" || l == "" {
      return Blank, data;
    }
    if editId.Some? {
      return Saved, UpdateFirst(data, editId.value, ChatEdited(n, l, t));
    }
    out, tree := AddUnder(data, parentId, ChatNode(freshId, n, Some(l), TagOrNull(t)));
  }

  // ---------------------------------------------------------------------
  // Toggling and opening folders
  // ---------------------------------------------------------------------

  /** The renderer's reading of the flag: `expanded !== false`. */
  predicate Shown(n: Node) {
    n.expanded != Some(false)
  }

  /** `folder.expanded = !folder.expanded`: an absent flag becomes true, so
      the first toggle of such a folder leaves it shown; a present flag is
      flipped and so is what the renderer shows. */
  lemma ToggleVisibility(n: Node)
    ensures n.expanded.None? ==> Shown(n) && Shown(Toggled(n))
    ensures n.expanded.Some? ==> (Shown(Toggled(n)) <==> !Shown(n))
  {
  }

  function SetOpen(n: Node): Node {
    n.(expanded := Some(true))
  }

  /** `openAllParentFolders(folder)` with at most fuel steps: the folder is
      raised, then the walk goes on with the parent `findParentNode` finds
      for the folder's id. */
  function OpenUp(data: Node, folder: Node, fuel: nat): (r: Node)
    ensures multiset(Ids(r)) == multiset(Ids(data))
    ensures CountChatsInFolder(r) == CountChatsInFolder(data)
    decreases fuel
  {
    if fuel == 0 || folder.kind != Folder then data
    else
      var raised := Raise(data, folder.id);
      var parent := FindParent(raised, folder.id);
      if parent.None? then raised else OpenUp(raised, parent.value, fuel - 1)
  }

  /** `folder.expanded = true` on the node found under id: a flag write, so
      the ids and the chat count stay. */
  function Raise(data: Node, id: string): (r: Node)
    ensures multiset(Ids(r)) == multiset(Ids(data))
    ensures CountChatsInFolder(r) == CountChatsInFolder(data)
  {
    Relabel(data, id, SetOpen);
    UpdateFirst(data, id, SetOpen)
  }

  /** The first step opens the folder it is given when that folder is in
      the tree. */
  lemma OpenUpOpensFolder(data: Node, folder: Node)
    requires folder.kind == Folder && FindById(data, folder.id).Some?
    ensures var r := FindById(OpenUp(data, folder, 1), folder.id);
      r.Some? && r.value.expanded == Some(true)
  {
    UpdateFirstFinds(data, folder.id, SetOpen);
    var raised := Raise(data, folder.id);
    if FindParent(raised, folder.id).Some? {
      assert OpenUp(raised, FindParent(raised, folder.id).value, 0) == raised;
    }
  }

  /** The popup's load step: a missing stored tree becomes the default root;
      a stored tree without an `expanded` flag gets `expanded = true`. */
  function Loaded(stored: Option<Node>): (r: Node)
    ensures stored.None? ==> r.id == "root" && r.kind == Folder && r.hasChildren && r.children == []
    ensures stored.Some? ==> r == stored.value.(expanded := r.expanded) && r.expanded.Some?
    ensures stored.Some? && stored.value.expanded.Some? ==> r == stored.value
  {
    if stored.None? then FolderNode("root", "Accueil", true)
    else if stored.value.expanded.None? then stored.value.(expanded := Some(true))
    else stored.value
  }

  /** `SEARCH_CONFIG.minLength`. */
  const MinLength := 2
}
