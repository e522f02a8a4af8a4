/** The `SearchEngine` service of the refactored extension
    (refacto/services/SearchEngine.js): a flat index of the chats of the
    tree, a filter over it behind a minimum query length, and the
    debounce / search-mode state. The debounce timer is an explicit pending
    query that a separate step fires. */
module SearchEngine {
  import opened Text
  import opened Tree
  import opened ChatIndex
  import opened Seqs

  /** One entry of `this.searchIndex` (`fullPath` is the same array as
      `path`; `type` is always 'chat'). The tag is copied as stored. */
  datatype IndexEntry = IndexEntry(id: string, name: string, path: seq<string>, link: Option<string>, tag: Option<string>)

  function EntryOf(l: Located): IndexEntry {
    IndexEntry(l.node.id, l.node.name, l.path, l.node.link, l.node.tag)
  }

  function EntriesOf(ls: seq<Located>): (r: seq<IndexEntry>)
    ensures |r| == |ls|
    ensures forall i :: 0 <= i < |ls| ==> r[i] == EntryOf(ls[i])
  {
    if ls == [] then [] else [EntryOf(ls[0])] + EntriesOf(ls[1..])
  }

  lemma {:induction false} EntriesOfAppend(a: seq<Located>, b: seq<Located>)
    ensures EntriesOf(a + b) == EntriesOf(a) + EntriesOf(b)
  {
    if a == [] {
      assert a + b == b;
    } else {
      assert (a + b)[0] == a[0] && (a + b)[1..] == a[1..] + b;
      EntriesOfAppend(a[1..], b);
      Assoc([EntryOf(a[0])], EntriesOf(a[1..]), EntriesOf(b));
    }
  }

  /** The index `buildIndex(tree)` leaves behind. */
  function EngineIndexOf(tree: Node): seq<IndexEntry> {
    EntriesOf(Locate(tree, []))
  }

  /** The index holds exactly one entry per chat, in depth-first pre-order,
      and each path is the names met going down from the tree's top node to
      the chat, both included. */
  lemma EngineIndexListsChats(tree: Node)
    ensures var index, chats := EngineIndexOf(tree), ChatsIn(Preorder(tree));
      && |index| == |chats|
      && forall i :: 0 <= i < |index| ==> EntryDescribes(index[i], chats[i], tree)
  {
    var ls := Locate(tree, []);
    LocateFindsChats(tree, []);
    LocatePaths(tree, []);
    forall i | 0 <= i < |ls|
      ensures EntryDescribes(EntryOf(ls[i]), NodesOf(ls)[i], tree)
    {
      assert ls[i] in ls;
      LocatedEntry(ls[i], tree);
    }
  }

  /** An index entry copies the chat's id, name, link and tag, and its path
      runs down the tree from the top node to the chat. */
  predicate EntryDescribes(e: IndexEntry, chat: Node, top: Node) {
    && e.id == chat.id && e.name == chat.name && e.link == chat.link && e.tag == chat.tag
    && Chain(top, e.path, chat)
  }

  lemma LocatedEntry(l: Located, top: Node)
    requires PathFrom(l, [], top)
    ensures EntryDescribes(EntryOf(l), l.node, top)
  {
    assert l.path[0..] == l.path;
  }

  /** `_indexNode(node, path)`: the chat's entry is pushed, then the
      `for … of` over its children with the path extended by its name. */
  method IndexNode(node: Node, path: seq<string>, acc: seq<IndexEntry>) returns (r: seq<IndexEntry>)
    ensures r == acc + EntriesOf(Locate(node, path))
    decreases node
  {
    var currentPath := path + [node.name];
    ghost var own: seq<Located> := if node.kind == Chat then [Located(node, currentPath)] else [];
    var cs := if node.hasChildren then node.children else [];
    assert Locate(node, path) == own + LocateIn(cs, currentPath);
    r := acc;
    if node.kind == Chat {
      r := r + [IndexEntry(node.id, node.name, currentPath, node.link, node.tag)];
    }
    ghost var start := r;
    assert start == acc + EntriesOf(own);
    var i := 0;
    while i < |cs|
      invariant 0 <= i <= |cs|
      invariant r == start + EntriesOf(LocateIn(cs[..i], currentPath))
    {
      r := IndexNode(cs[i], currentPath, r);
      LocateInSnoc(cs, i, currentPath);
      EntriesOfAppend(LocateIn(cs[..i], currentPath), Locate(cs[i], currentPath));
      Assoc(start, EntriesOf(LocateIn(cs[..i], currentPath)), EntriesOf(Locate(cs[i], currentPath)));
      i := i + 1;
    }
    assert cs[..|cs|] == cs;
    EntriesOfAppend(own, LocateIn(cs, currentPath));
    Assoc(acc, EntriesOf(own), EntriesOf(LocateIn(cs, currentPath)));
  }

  // ---------------------------------------------------------------------
  // search(query)
  // ---------------------------------------------------------------------

  /** `this.config`. */
  datatype Config = Config(minLength: int, debounceDelay: int, useIndex: bool, rebuildIndexOnChange: bool)

  const DefaultConfig := Config(2, 400, true, true)

  /** The guard of `search`: a falsy query or one shorter than the minimum,
      measured before trimming, gives no result. */
  predicate Refused(query: string, minLength: int) {
    query == "" || |query| < minLength
  }

  /** The filter test: the lower-cased, trimmed query occurs in the
      lower-cased name, or in the lower-cased tag when the tag is truthy. */
  predicate Matches(e: IndexEntry, normalized: string) {
    || Contains(ToLower(e.name), normalized)
    || (e.tag.Some? && e.tag.value != "" && Contains(ToLower(e.tag.value), normalized))
  }

  function Matcher(normalized: string): IndexEntry -> bool {
    (e: IndexEntry) => Matches(e, normalized)
  }

  /** `query.toLowerCase().trim()`. */
  function Normalized(query: string): string {
    Trim(ToLower(query))
  }

  /** What `search(query)` gives: the entries it returns, or the
      `TypeError` that `this.searchIndex.filter` throws while the index is
      still null. */
  datatype SearchOutcome = Answered(entries: seq<IndexEntry>) | NullIndexError

  /** `search(query)` over an index, which is null until it is built. */
  function SearchIn(index: Option<seq<IndexEntry>>, minLength: int, query: string): SearchOutcome {
    if Refused(query, minLength) then Answered([])
    else if index.None? then NullIndexError
    else Answered(Keep(index.value, Matcher(Normalized(query))))
  }

  /** What search returns: nothing for a refused query; a `TypeError` for
      any other query while there is no index; otherwise exactly the index
      entries that match the normalized query, in index order. */
  lemma SearchFilters(index: Option<seq<IndexEntry>>, minLength: int, query: string)
    ensures Refused(query, minLength) ==> SearchIn(index, minLength, query) == Answered([])
    ensures !Refused(query, minLength) && index.None? ==> SearchIn(index, minLength, query) == NullIndexError
    ensures !Refused(query, minLength) && index.Some? ==>
      && SearchIn(index, minLength, query).Answered?
      && (forall e :: e in SearchIn(index, minLength, query).entries <==> e in index.value && Matches(e, Normalized(query)))
      && Subsequence(SearchIn(index, minLength, query).entries, index.value)
  {
    if !Refused(query, minLength) && index.Some? {
      KeepMembers(index.value, Matcher(Normalized(query)));
      KeepIsSubsequence(index.value, Matcher(Normalized(query)));
    }
  }

  /** The search ignores case in the query: an upper-cased and a lower-cased
      spelling of the same query find the same entries. */
  lemma SearchIgnoresCase(index: Option<seq<IndexEntry>>, minLength: int, query: string)
    ensures Refused(ToLower(query), minLength) <==> Refused(query, minLength)
    ensures SearchIn(index, minLength, ToLower(query)) == SearchIn(index, minLength, query)
  {
    ToLowerIdempotent(query);
    assert query == "" <==> ToLower(query) == "";
  }

  /** Because the length is measured before trimming, a padded one-letter
      query passes the guard and is searched as that one letter. */
  lemma GuardBeforeTrim()
    ensures !Refused(" a", DefaultConfig.minLength) && Normalized(" a") == "a" && Trim(" a") == "a"
  {
    assert ToLower(" a") == [LowerChar(' ')] + ToLower("a");
    assert ToLower("a") == [LowerChar('a')] + ToLower([]);
    assert ToLower(" a") == " a";
    assert IsSpace(' ') && !IsSpace('a');
    assert " a"[1..] == "a";
    assert TrimStart(" a") == "a";
    assert TrimEnd("a") == "a";
  }

  /** Every query the popup's own search box lets through (at least two
      characters once trimmed) also passes the engine's guard. */
  lemma PopupGuardImpliesEngineGuard(raw: string)
    requires |Trim(raw)| >= 2
    ensures !Refused(raw, DefaultConfig.minLength)
  {
    TrimIsSlice(raw);
  }

  // ---------------------------------------------------------------------
  // The service object
  // ---------------------------------------------------------------------

  /** What `getSearchState()` reports. */
  datatype SearchState = SearchState(isSearchMode: bool, currentQuery: string, hasIndex: bool)

  class SearchEngine {
    var searchIndex: Option<seq<IndexEntry>>
    /** The query the armed debounce timer will search, if one is armed. */
    var pending: Option<string>
    var isSearchMode: bool
    var currentSearchQuery: string
    var config: Config

    constructor ()
      ensures searchIndex == None && pending == None && !isSearchMode && currentSearchQuery == ""
      ensures config == DefaultConfig
    {
      searchIndex := None;
      pending := None;
      isSearchMode := false;
      currentSearchQuery := "";
      config := DefaultConfig;
    }

    /** `buildIndex(tree)`. */
    method BuildIndex(tree: Node)
      modifies this`searchIndex
      ensures searchIndex == Some(EngineIndexOf(tree))
    {
      var index := IndexNode(tree, [], []);
      assert [] + EngineIndexOf(tree) == EngineIndexOf(tree);
      searchIndex := Some(index);
    }

    /** `rebuildIndex(tree)`: only with `rebuildIndexOnChange` set. */
    method RebuildIndex(tree: Node)
      modifies this`searchIndex
      ensures searchIndex == if config.rebuildIndexOnChange then Some(EngineIndexOf(tree)) else old(searchIndex)
    {
      if config.rebuildIndexOnChange {
        BuildIndex(tree);
      }
    }

    /** `initialize(data)`: builds only for a tree that is there. */
    method Initialize(data: Option<Node>)
      modifies this`searchIndex
      ensures searchIndex == if data.Some? then Some(EngineIndexOf(data.value)) else old(searchIndex)
    {
      if data.Some? {
        BuildIndex(data.value);
      }
    }

    /** `search(query)` on the current index. */
    function Search(query: string): SearchOutcome
      reads this
    {
      SearchIn(searchIndex, config.minLength, query)
    }

    /** `clearSearch()`: search mode off, query emptied, timer cancelled. */
    method ClearSearch()
      modifies this`isSearchMode, this`currentSearchQuery, this`pending
      ensures !isSearchMode && currentSearchQuery == "" && pending == None
    {
      isSearchMode := false;
      currentSearchQuery := "";
      pending := None;
    }

    /** `performSearch(query, callback)`: the armed timer is cancelled; a
        blank query clears the search and calls back at once with no
        results (returned here), any other query arms one timer for the
        query as given. */
    method PerformSearch(query: string) returns (immediate: Option<seq<IndexEntry>>)
      modifies this`isSearchMode, this`currentSearchQuery, this`pending
      ensures Trim(query) == "" ==>
        immediate == Some([]) && !isSearchMode && currentSearchQuery == "" && pending == None
      ensures Trim(query) != "" ==>
        && immediate == None && pending == Some(query)
        && isSearchMode == old(isSearchMode) && currentSearchQuery == old(currentSearchQuery)
    {
      pending := None;
      if Trim(query) == "" {
        ClearSearch();
        return Some([]);
      }
      pending := Some(query);
      return None;
    }

    /** The armed timer fires: the query is searched, becomes the current
        query, and search mode is switched on, even when the search found
        nothing. A search that throws because there is no index yet ends
        the timer's callback there: the query and the mode stay as they
        were. */
    method FireTimer() returns (results: Option<SearchOutcome>)
      modifies this`isSearchMode, this`currentSearchQuery, this`pending
      ensures old(pending).None? ==> results == None && unchanged(this)
      ensures old(pending).Some? ==>
        results == Some(SearchIn(searchIndex, config.minLength, old(pending).value)) && pending == None
      ensures old(pending).Some? && results.value.Answered? ==>
        isSearchMode && currentSearchQuery == old(pending).value
      ensures old(pending).Some? && results.value.NullIndexError? ==>
        isSearchMode == old(isSearchMode) && currentSearchQuery == old(currentSearchQuery)
    {
      if pending.None? {
        return None;
      }
      var query := pending.value;
      pending := None;
      var outcome := Search(query);
      results := Some(outcome);
      if outcome.NullIndexError? {
        return;
      }
      currentSearchQuery := query;
      isSearchMode := true;
    }

    /** `getSearchState()`. */
    function GetSearchState(): (s: SearchState)
      reads this
      ensures s.hasIndex <==> searchIndex.Some?
      ensures s.isSearchMode == isSearchMode && s.currentQuery == currentSearchQuery
    {
      SearchState(isSearchMode, currentSearchQuery, searchIndex.Some?)
    }
  }

  /** A one-letter query that reaches the timer switches search mode on with
      an empty result list: the blank test and the length guard disagree. */
  lemma ShortQueryStillEntersSearchMode(index: Option<seq<IndexEntry>>)
    ensures Trim("a") != "" && SearchIn(index, DefaultConfig.minLength, "a") == Answered([])
  {
    assert !IsSpace('a');
    assert TrimStart("a") == "a";
  }
}
