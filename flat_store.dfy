/** The early popup (popu.js): a flat list of folders, each holding the ids
    of its chats, and a dictionary from chat id to chat. The prompt and
    confirm dialogs are inputs (`None` is a cancelled prompt), ids come in
    as fresh parameters, and rendering is reduced to the list of chats a
    folder shows. */
module FlatStore {
  import opened Text
  import Tree

  datatype Folder = Folder(id: string, name: string, chatIds: seq<string>)
  datatype Chat = Chat(name: string, url: string)

  /** The only chat links the save form accepts. */
  const ChatUrlPrefix := "https://chat.openai.com/chat/"

  const NameRequired := "Nom du chat obligatoire."
  const BadUrl := "URL du chat ChatGPT invalide."
  const BadFolder := "Dossier invalide."

  /** `folders.find(f => f.id === id)`, as the index of the first match. */
  function FindFolder(folders: seq<Folder>, id: string): (r: Tree.Option<nat>)
    ensures r.None? <==> forall i :: 0 <= i < |folders| ==> folders[i].id != id
    ensures r.Some? ==>
      && r.value < |folders| && folders[r.value].id == id
      && forall i :: 0 <= i < r.value ==> folders[i].id != id
  {
    if folders == [] then Tree.None
    else if folders[0].id == id then Tree.Some(0)
    else
      match FindFolder(folders[1..], id)
      case None => Tree.None
      case Some(i) => Tree.Some(i + 1)
  }

  /** `folders.filter(f => f.id !== id)`: every folder with that id goes,
      the others stay in order. */
  function WithoutFolder(folders: seq<Folder>, id: string): (r: seq<Folder>)
    ensures forall f :: f in r <==> f in folders && f.id != id
    ensures |r| <= |folders|
  {
    if folders == [] then []
    else (if folders[0].id != id then [folders[0]] else []) + WithoutFolder(folders[1..], id)
  }

  /** Deleting a folder whose id is unique removes exactly one folder. */
  lemma {:induction false} WithoutUniqueFolder(folders: seq<Folder>, k: nat)
    requires k < |folders| && forall i :: 0 <= i < |folders| && i != k ==> folders[i].id != folders[k].id
    ensures WithoutFolder(folders, folders[k].id) == folders[..k] + folders[k + 1..]
  {
    var id := folders[k].id;
    if k == 0 {
      WithoutNone(folders[1..], id);
    } else {
      WithoutUniqueFolder(folders[1..], k - 1);
      assert folders[1..][..k - 1] + folders[1..][k..] == folders[1..k] + folders[k + 1..];
      assert folders[..k] == [folders[0]] + folders[1..k];
    }
  }

  lemma {:induction false} WithoutNone(folders: seq<Folder>, id: string)
    requires forall i :: 0 <= i < |folders| ==> folders[i].id != id
    ensures WithoutFolder(folders, id) == folders
  {
    if folders != [] {
      WithoutNone(folders[1..], id);
    }
  }

  /** The chats a folder shows: its ids that have an entry, in order; the
      others are skipped. */
  function Shown(chatIds: seq<string>, chats: map<string, Chat>): (r: seq<Chat>)
    ensures |r| <= |chatIds|
    ensures forall c :: c in r <==> exists i :: 0 <= i < |chatIds| && chatIds[i] in chats && chats[chatIds[i]] == c
  {
    if chatIds == [] then []
    else
      var rest := Shown(chatIds[1..], chats);
      assert forall i :: 0 <= i < |chatIds| - 1 ==> chatIds[1..][i] == chatIds[i + 1];
      (if chatIds[0] in chats then [chats[chatIds[0]]] else []) + rest
  }

  /** Every chat id a folder holds has its chat: nothing is skipped. */
  predicate Linked(folders: seq<Folder>, chats: map<string, Chat>) {
    forall i, j :: 0 <= i < |folders| && 0 <= j < |folders[i].chatIds| ==> folders[i].chatIds[j] in chats
  }

  /** In a linked store a folder shows one chat per id. */
  lemma {:induction false} LinkedShowsAll(chatIds: seq<string>, chats: map<string, Chat>)
    requires forall j :: 0 <= j < |chatIds| ==> chatIds[j] in chats
    ensures |Shown(chatIds, chats)| == |chatIds|
  {
    if chatIds != [] {
      LinkedShowsAll(chatIds[1..], chats);
    }
  }

  /** What the save button's checks decide, in their order. */
  datatype Check = Accepted(name: string, url: string, folder: nat) | Refused(message: string)

  function CheckChat(nameInput: string, urlInput: string, folders: seq<Folder>, folderId: string): (r: Check)
    ensures r.Accepted? <==>
      && !IsBlank(nameInput)
      && !IsBlank(urlInput) && StartsWith(Trim(urlInput), ChatUrlPrefix)
      && exists i :: 0 <= i < |folders| && folders[i].id == folderId
    ensures r.Accepted? ==>
      && r.name == Trim(nameInput) && r.url == Trim(urlInput)
      && r.folder < |folders| && folders[r.folder].id == folderId
    ensures r.Refused? ==>
      r.message == (
        if IsBlank(nameInput) then NameRequired
        else if IsBlank(urlInput) || !StartsWith(Trim(urlInput), ChatUrlPrefix) then BadUrl
        else BadFolder)
  {
    var name, url := Trim(nameInput), Trim(urlInput);
    if name == "" then Refused(NameRequired)
    else if url == "" || !StartsWith(url, ChatUrlPrefix) then Refused(BadUrl)
    else match FindFolder(folders, folderId)
      case None => Refused(BadFolder)
      case Some(i) => Accepted(name, url, i)
  }

  /** `folder.chatIds.push(chatId)` on the folder at position k: that
      folder gains the id at the end, and no other folder changes. */
  function AppendChat(folders: seq<Folder>, k: nat, chatId: string): (r: seq<Folder>)
    requires k < |folders|
    ensures |r| == |folders| && r[k].id == folders[k].id && r[k].name == folders[k].name
    ensures r[k].chatIds == folders[k].chatIds + [chatId]
    ensures forall i :: 0 <= i < |r| && i != k ==> r[i] == folders[i]
  {
    folders[k := folders[k].(chatIds := folders[k].chatIds + [chatId])]
  }

  /** Storing the chat before appending its id keeps the store linked. */
  lemma AppendChatLinked(folders: seq<Folder>, chats: map<string, Chat>, k: nat, chatId: string, chat: Chat)
    requires k < |folders| && Linked(folders, chats)
    ensures Linked(AppendChat(folders, k, chatId), chats[chatId := chat])
  {
    var r := AppendChat(folders, k, chatId);
    forall i, j | 0 <= i < |r| && 0 <= j < |r[i].chatIds| ensures r[i].chatIds[j] in chats[chatId := chat] {
      if i == k && j < |folders[k].chatIds| {
        assert r[i].chatIds[j] == folders[k].chatIds[j];
      }
    }
  }

  /** The save result: the new chat's id, or the alert shown. */
  datatype Saved = SavedAs(chatId: string) | Alert(message: string)

  class FlatStore {
    var folders: seq<Folder>
    var chats: map<string, Chat>

    /** The state `loadData` leaves when storage holds nothing. */
    constructor ()
      ensures folders == [] && chats == map[]
    {
      folders := [];
      chats := map[];
    }

    /** The add-folder button: a cancelled or blank prompt does nothing;
        otherwise the trimmed name becomes a new, empty, last folder. */
    method AddFolder(answer: Tree.Option<string>, freshId: string)
      modifies this`folders
      ensures answer.None? || IsBlank(answer.value) ==> folders == old(folders)
      ensures answer.Some? && !IsBlank(answer.value) ==>
        folders == old(folders) + [Folder(freshId, Trim(answer.value), [])]
      ensures Linked(old(folders), chats) ==> Linked(folders, chats)
    {
      if answer.None? || answer.value == "" || Trim(answer.value) == "" {
        return;
      }
      folders := folders + [Folder(freshId, Trim(answer.value), [])];
    }

    /** The new-chat button: with no folder it only alerts; otherwise the
        form opens on the first folder. */
    method OpenChatForm() returns (selected: Tree.Option<string>)
      ensures selected == if folders == [] then Tree.None else Tree.Some(folders[0].id)
    {
      if |folders| == 0 {
        return Tree.None;
      }
      return Tree.Some(folders[0].id);
    }

    /** The save button: the checks in order, then the chat is stored under
        the fresh id and that id appended to the first folder with the
        chosen id, and to no other. */
    method SaveChat(nameInput: string, urlInput: string, folderId: string, freshId: string) returns (r: Saved)
      requires freshId !in chats
      modifies this`folders, this`chats
      ensures CheckChat(nameInput, urlInput, old(folders), folderId).Refused? ==>
        && r == Alert(CheckChat(nameInput, urlInput, old(folders), folderId).message)
        && folders == old(folders) && chats == old(chats)
      ensures CheckChat(nameInput, urlInput, old(folders), folderId).Accepted? ==>
        var c := CheckChat(nameInput, urlInput, old(folders), folderId);
        && r == SavedAs(freshId)
        && chats == old(chats)[freshId := Chat(c.name, c.url)]
        && folders == AppendChat(old(folders), c.folder, freshId)
      ensures Linked(old(folders), old(chats)) ==> Linked(folders, chats)
    {
      var c := CheckChat(nameInput, urlInput, folders, folderId);
      if c.Refused? {
        return Alert(c.message);
      }
      if Linked(folders, chats) {
        AppendChatLinked(folders, chats, c.folder, freshId, Chat(c.name, c.url));
      }
      chats := chats[freshId := Chat(c.name, c.url)];
      folders := AppendChat(folders, c.folder, freshId);
      r := SavedAs(freshId);
    }

    /** The delete button of the folder at position k: it is only there
        while the folder is empty, and acts only when confirmed. */
    method DeleteFolder(k: nat, confirmed: bool)
      requires k < |folders|
      modifies this`folders
      ensures old(folders)[k].chatIds != [] || !confirmed ==> folders == old(folders)
      ensures old(folders)[k].chatIds == [] && confirmed ==> folders == WithoutFolder(old(folders), old(folders)[k].id)
      ensures Linked(old(folders), chats) ==> Linked(folders, chats)
    {
      if folders[k].chatIds != [] || !confirmed {
        return;
      }
      folders := WithoutFolder(folders, folders[k].id);
    }

    /** Clicking the title of the folder at position k: a non-blank answer
        becomes its trimmed name. */
    method RenameFolder(k: nat, answer: Tree.Option<string>)
      requires k < |folders|
      modifies this`folders
      ensures answer.None? || IsBlank(answer.value) ==> folders == old(folders)
      ensures answer.Some? && !IsBlank(answer.value) ==>
        folders == old(folders)[k := old(folders)[k].(name := Trim(answer.value))]
      ensures Linked(old(folders), chats) ==> Linked(folders, chats)
    {
      if answer.None? || answer.value == "" || Trim(answer.value) == "" {
        return;
      }
      folders := folders[k := folders[k].(name := Trim(answer.value))];
    }

    /** Right-clicking a shown chat: a non-blank answer becomes its trimmed
        name; its link stays. */
    method RenameChat(chatId: string, answer: Tree.Option<string>)
      requires chatId in chats
      modifies this`chats
      ensures answer.None? || IsBlank(answer.value) ==> chats == old(chats)
      ensures answer.Some? && !IsBlank(answer.value) ==>
        chats == old(chats)[chatId := Chat(Trim(answer.value), old(chats)[chatId].url)]
      ensures chats.Keys == old(chats).Keys
    {
      if answer.None? || answer.value == "" || Trim(answer.value) == "" {
        return;
      }
      chats := chats[chatId := chats[chatId].(name := Trim(answer.value))];
    }
  }
}
