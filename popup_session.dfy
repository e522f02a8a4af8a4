/** The popup session: the module-level variables of popup.js and the
    handlers that change them. Every handler that calls `saveData` rebuilds
    the search index from the new tree. */
module PopupSession {
  import opened Text
  import opened Tree
  import opened TreeEdit
  import opened Popup
  import opened PopupState

  /** `isSearchMode`, `currentSearchQuery`, and the query of the armed
      debounce timer, if any. */
  datatype SearchBox = SearchBox(active: bool, query: string, pending: Option<string>)

  /** `currentEditNode`, by the id of the node object it holds, and
      `currentAddParentId`. */
  datatype FormTarget = FormTarget(editId: Option<string>, addParentId: string)

  class Session {
    var data: Node
    var searchIndex: Option<seq<Entry>>
    var search: SearchBox
    var form: FormTarget

    /** The initial variables followed by `loadData()` with the stored tree
        as input; both branches end by rebuilding the index. */
    constructor (stored: Option<Node>)
      ensures data == Loaded(stored) && searchIndex == Some(SearchIndexOf(data))
      ensures search == SearchBox(false, "", None) && form == FormTarget(None, "root")
    {
      data := Loaded(stored);
      search := SearchBox(false, "", None);
      form := FormTarget(None, "root");
      var index := BuildSearchIndex(Loaded(stored));
      searchIndex := Some(index);
    }

    /** `saveData()`: storage is not modelled; the index is rebuilt. */
    method Save()
      modifies this`searchIndex
      ensures searchIndex == Some(SearchIndexOf(data))
    {
      var index := BuildSearchIndex(data);
      searchIndex := Some(index);
    }

    /** `deleteNode(nodeId)` with the dialog's answer as input. */
    method DeleteNode(nodeId: string, confirmed: bool)
      modifies this`data, this`searchIndex
      ensures data == AfterDelete(old(data), nodeId, confirmed)
      ensures searchIndex == if DeleteRuns(old(data), nodeId, confirmed) then Some(SearchIndexOf(data)) else old(searchIndex)
    {
      var node := FindById(data, nodeId);
      if node.None? || (node.value.kind == Folder && nodeId == "root") || !confirmed {
        return;
      }
      var parent := FindParent(data, nodeId);
      if parent.None? {
        UpdateParentOfMissing(data, nodeId, DropFrom(node.value, nodeId));
        return;
      }
      var p := parent.value;
      if node.value.kind == Folder {
        p := MoveAllChatsToParent(node.value, p);
      }
      var r := DeleteNodeById(p, nodeId);
      var k := (q: Node) => r.tree;
      UpdateParentOfAt(data, nodeId, k, DropFrom(node.value, nodeId));
      data := UpdateParentOf(data, nodeId, k);
      Save();
    }

    /** `moveNode(sourceNodeId, targetNodeId)`; the drop handler saves after
        an accepted move. */
    method MoveNode(sourceId: string, targetId: string) returns (ok: bool)
      modifies this`data, this`searchIndex
      ensures ok == PopupMove(old(data), sourceId, targetId).ok
      ensures data == PopupMove(old(data), sourceId, targetId).data
      ensures searchIndex == if ok then Some(SearchIndexOf(data)) else old(searchIndex)
    {
      ok := false;
      if sourceId == targetId || sourceId == "root" {
        return;
      }
      var source := FindById(data, sourceId);
      var target := FindById(data, targetId);
      if source.None? || target.None? {
        return;
      }
      var sourceParent := FindParent(data, sourceId);
      if targetId != "root" && sourceParent.Some? && sourceParent.value.id == targetId {
        return;
      }
      if AnyDescendant(source.value, targetId) || sourceParent.None? {
        return;
      }
      var sp := sourceParent.value;
      var k := IndexOfId(Kids(sp), sourceId);
      if k < 0 {
        return;
      }
      var moved := sp.children[k];
      var cut := Cut(data, sourceId);
      if target.value.kind == Folder || targetId == "root" {
        data := AddChild(cut, targetId, moved);
      } else if FindParent(cut, targetId).Some? {
        data := AddBeside(cut, targetId, moved);
      } else {
        return;
      }
      ok := true;
      Save();
    }

    /** `toggleFolder(folderId)`: only a folder found by id is toggled and
        saved. */
    method ToggleFolder(folderId: string)
      modifies this`data, this`searchIndex
      ensures var f := FindById(old(data), folderId);
        if f.Some? && f.value.kind == Folder then
          data == UpdateFirst(old(data), folderId, Toggled) && searchIndex == Some(SearchIndexOf(data))
        else data == old(data) && searchIndex == old(searchIndex)
    {
      var folder := FindById(data, folderId);
      if folder.Some? && folder.value.kind == Folder {
        data := UpdateFirst(data, folderId, Toggled);
        Save();
      }
    }

    /** `expandAllFolders()`. */
    method ExpandAllFolders()
      modifies this`data, this`searchIndex
      ensures data == SetAllExpanded(old(data), true) && searchIndex == Some(SearchIndexOf(data))
    {
      data := FlagFolders(data, true);
      Save();
    }

    /** `collapseAllFolders()`. */
    method CollapseAllFolders()
      modifies this`data, this`searchIndex
      ensures data == SetAllExpanded(old(data), false) && searchIndex == Some(SearchIndexOf(data))
    {
      data := FlagFolders(data, false);
      Save();
    }

    /** `addChat(parentId)` / `addFolder(parentId)`: the form is raised for
        that parent; the edit variable is not touched. */
    method OpenAddForm(parentId: string)
      modifies this`form
      ensures form == old(form).(addParentId := parentId)
    {
      form := form.(addParentId := parentId);
    }

    /** `editNode(nodeId)`: for a known node the form is raised on it, with
        the node's parent as the add parent when it has one. */
    method EditNode(nodeId: string)
      modifies this`form
      ensures FindById(old(data), nodeId).None? ==> form == old(form)
      ensures FindById(old(data), nodeId).Some? ==>
        && form.editId == Some(nodeId)
        && form.addParentId == (if FindParent(old(data), nodeId).Some? then FindParent(old(data), nodeId).value.id
                                else old(form).addParentId)
    {
      var node := FindById(data, nodeId);
      if node.None? {
        return;
      }
      var parent := FindParent(data, nodeId);
      if parent.Some? {
        form := form.(addParentId := parent.value.id);
      }
      form := form.(editId := Some(nodeId));
    }

    /** The folder form's submit handler; freshId stands for `generateId()`.
        A saved submit clears the edit variable. */
    method SubmitFolderForm(input: string, freshId: string) returns (out: Submit)
      modifies this`data, this`searchIndex, this`form
      ensures out == FolderFormOutcome(old(data), old(form).editId, old(form).addParentId, input)
      ensures data == FolderFormTree(old(data), old(form).editId, old(form).addParentId, input, freshId)
      ensures out == Saved ==> searchIndex == Some(SearchIndexOf(data)) && form == old(form).(editId := None)
      ensures out != Saved ==> searchIndex == old(searchIndex) && form == old(form)
    {
      out, data := FolderSubmit(data, form.editId, form.addParentId, input, freshId);
      if out == Saved {
        Save();
        form := form.(editId := None);
      }
    }

    /** The chat form's submit handler; freshId stands for `generateId()`.
        The edit variable is left as it was. */
    method SubmitChatForm(name: string, link: string, tag: string, freshId: string) returns (out: Submit)
      modifies this`data, this`searchIndex
      ensures out == ChatFormOutcome(old(data), old(form).editId, old(form).addParentId, name, link)
      ensures data == ChatFormTree(old(data), old(form).editId, old(form).addParentId, name, link, tag, freshId)
      ensures searchIndex == if out == Saved then Some(SearchIndexOf(data)) else old(searchIndex)
      ensures form.editId == EditAfterChatForm(out, old(form).editId)
    {
      out, data := ChatSubmit(data, form.editId, form.addParentId, name, link, tag, freshId);
      if out == Saved {
        Save();
      }
    }

    /** `searchChats(query)`: the index is built first when missing, then the
        `forEach` keeps the matching entries. */
    method SearchChats(query: string) returns (results: seq<Entry>)
      modifies this`searchIndex
      ensures searchIndex == if old(searchIndex).None? then Some(SearchIndexOf(data)) else old(searchIndex)
      ensures results == Hits(searchIndex.value, query)
    {
      if searchIndex.None? {
        Save();
      }
      results := FilterIndex(searchIndex.value, query);
    }

    /** `clearSearch()`. */
    method ClearSearch()
      modifies this`search
      ensures search == old(search).(active := false, query := "")
    {
      search := search.(active := false, query := "");
    }

    /** `performSearch(query)`: a query shorter than the minimum clears the
        search and returns no result list. */
    method PerformSearch(query: string) returns (results: Option<seq<Entry>>)
      modifies this`search, this`searchIndex
      ensures |query| < MinLength ==> results == None && search == old(search).(active := false, query := "")
      ensures |query| < MinLength ==> searchIndex == old(searchIndex)
      ensures |query| >= MinLength ==>
        && search == old(search).(active := true, query := query)
        && searchIndex == (if old(searchIndex).None? then Some(SearchIndexOf(data)) else old(searchIndex))
        && results == Some(Hits(searchIndex.value, query))
    {
      if |query| < MinLength {
        ClearSearch();
        return None;
      }
      search := search.(active := true, query := query);
      var r := SearchChats(query);
      return Some(r);
    }

    /** The search box's input listener: the pending timer is cancelled; an
        empty trimmed query clears the search, any other arms one timer for
        the trimmed query. */
    method OnSearchInput(raw: string)
      modifies this`search
      ensures Trim(raw) == "" ==> search == SearchBox(false, "", None)
      ensures Trim(raw) != "" ==> search == old(search).(pending := Some(Trim(raw)))
    {
      search := search.(pending := None);
      var query := Trim(raw);
      if query == "" {
        ClearSearch();
        return;
      }
      search := search.(pending := Some(query));
    }

    /** The debounce timer fires: the armed query is searched. */
    method FireSearchTimer() returns (results: Option<seq<Entry>>)
      modifies this`search, this`searchIndex
      ensures old(search).pending.None? ==> results == None && search == old(search) && searchIndex == old(searchIndex)
      ensures old(search).pending.Some? && |old(search).pending.value| >= MinLength ==>
        && search == SearchBox(true, old(search).pending.value, None)
        && searchIndex == (if old(searchIndex).None? then Some(SearchIndexOf(data)) else old(searchIndex))
        && results == Some(Hits(searchIndex.value, old(search).pending.value))
      ensures old(search).pending.Some? && |old(search).pending.value| < MinLength ==>
        search == SearchBox(false, "", None) && results == None && searchIndex == old(searchIndex)
    {
      if search.pending.None? {
        return None;
      }
      var query := search.pending.value;
      search := search.(pending := None);
      results := PerformSearch(query);
    }

    /** `navigateToChatInTree(chatId)`: for a chat with a parent, the parent
        chain is raised (bounded by the number of nodes) and the search is
        cleared. */
    method NavigateToChat(chatId: string)
      modifies this`data, this`search
      ensures var chat, parent := FindById(old(data), chatId), FindParent(old(data), chatId);
        if chat.Some? && parent.Some? then
          && data == OpenUp(old(data), parent.value, |Preorder(old(data))|)
          && search == old(search).(active := false, query := "")
        else data == old(data) && search == old(search)
    {
      var chat := FindById(data, chatId);
      if chat.None? {
        return;
      }
      var parent := FindParent(data, chatId);
      if parent.None? {
        return;
      }
      data := OpenUp(data, parent.value, |Preorder(data)|);
      ClearSearch();
    }
  }
}
