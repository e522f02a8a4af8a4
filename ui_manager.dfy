/** The state side of the refactored UIManager
    (refacto/managers/UIManager.js): its constructor defaults, the form
    fields the show-form methods record, the chat count of a folder, and
    the search-results view — a sorted copy cut into pages of eight with
    previous/next buttons. Rendering, templates and listeners' DOM work are
    not modelled; the view is returned as a value. */
module UIManager {
  import opened Text
  import opened Tree
  import opened TreeEdit
  import opened Ordering
  import SearchEngine

  type Result = SearchEngine.IndexEntry

  /** `this.RESULTS_PER_PAGE`. */
  const ResultsPerPage := 8

  // ---------------------------------------------------------------------
  // The sorted copy
  // ---------------------------------------------------------------------

  /** `a.name.localeCompare(b.name, 'fr', {sensitivity: 'base'}) <= 0`. */
  predicate ResultLe(a: Result, b: Result) {
    CollateLe(a.name, b.name)
  }

  lemma ResultLeTotal(a: Result, b: Result)
    ensures ResultLe(a, b) || ResultLe(b, a)
  {
    LexLeTotal(ToLower(a.name), ToLower(b.name));
  }

  lemma ResultLeTrans(a: Result, b: Result, c: Result)
    requires ResultLe(a, b) && ResultLe(b, c)
    ensures ResultLe(a, c)
  {
    LexLeTrans(ToLower(a.name), ToLower(b.name), ToLower(c.name));
  }

  predicate SortedResults(s: seq<Result>) {
    forall i, j :: 0 <= i < j < |s| ==> ResultLe(s[i], s[j])
  }

  /** Places x after every result that does not collate strictly after it. */
  function InsertResult(t: seq<Result>, x: Result): (r: seq<Result>)
    ensures multiset(r) == multiset(t) + multiset{x}
  {
    if t == [] then [x]
    else if ResultLe(x, t[0]) && !ResultLe(t[0], x) then [x] + t
    else
      assert t == [t[0]] + t[1..];
      [t[0]] + InsertResult(t[1..], x)
  }

  lemma {:induction false} InsertResultSorted(t: seq<Result>, x: Result)
    requires SortedResults(t)
    ensures SortedResults(InsertResult(t, x))
  {
    if t == [] {
    } else if ResultLe(x, t[0]) && !ResultLe(t[0], x) {
      forall j | 0 <= j < |t| ensures ResultLe(x, t[j]) {
        if j > 0 {
          ResultLeTrans(x, t[0], t[j]);
        }
      }
      ConsSorted(x, t);
    } else {
      ResultLeTotal(x, t[0]);
      InsertResultSorted(t[1..], x);
      InsertResultBelow(t[0], t[1..], x);
      ConsSorted(t[0], InsertResult(t[1..], x));
    }
  }

  lemma ConsSorted(h: Result, r: seq<Result>)
    requires SortedResults(r) && forall j :: 0 <= j < |r| ==> ResultLe(h, r[j])
    ensures SortedResults([h] + r)
  {
    var s := [h] + r;
    forall i, j | 0 <= i < j < |s| ensures ResultLe(s[i], s[j]) {
      assert s[j] == r[j - 1];
      if i > 0 {
        assert s[i] == r[i - 1];
      }
    }
  }

  /** A result that collates before x and before all of t collates before
      everything in InsertResult(t, x). */
  lemma InsertResultBelow(h: Result, t: seq<Result>, x: Result)
    requires ResultLe(h, x) && forall j :: 0 <= j < |t| ==> ResultLe(h, t[j])
    ensures forall j :: 0 <= j < |InsertResult(t, x)| ==> ResultLe(h, InsertResult(t, x)[j])
  {
    var r := InsertResult(t, x);
    forall j | 0 <= j < |r| ensures ResultLe(h, r[j]) {
      assert r[j] in multiset(r);
      if r[j] != x {
        assert r[j] in multiset(t);
      }
    }
  }

  /** `[...results].sort(byName)`: a stable sort of a copy. */
  function SortResults(s: seq<Result>): seq<Result> {
    if s == [] then []
    else InsertResult(SortResults(s[..|s| - 1]), s[|s| - 1])
  }

  /** The copy is a sorted permutation of the results. */
  lemma {:induction false} SortResultsSorted(s: seq<Result>)
    ensures SortedResults(SortResults(s)) && multiset(SortResults(s)) == multiset(s)
  {
    if s != [] {
      SortResultsSorted(s[..|s| - 1]);
      InsertResultSorted(SortResults(s[..|s| - 1]), s[|s| - 1]);
      assert s == s[..|s| - 1] + [s[|s| - 1]];
    }
  }

  // ---------------------------------------------------------------------
  // Pagination
  // ---------------------------------------------------------------------

  /** `Math.max(1, Math.ceil(n / RESULTS_PER_PAGE))`. */
  function TotalPages(n: nat): int {
    if n == 0 then 1 else (n + ResultsPerPage - 1) / ResultsPerPage
  }

  /** The page count is the least positive number of full-or-partial pages
      that hold every result. */
  lemma TotalPagesBounds(n: nat)
    ensures TotalPages(n) >= 1
    ensures n <= TotalPages(n) * ResultsPerPage
    ensures n > 0 ==> (TotalPages(n) - 1) * ResultsPerPage < n
  {
  }

  /** JavaScript's index normalisation in `slice`: a negative index counts
      from the end, and the result is clamped to the sequence. */
  function SliceIndex(i: int, len: nat): (r: nat)
    ensures r <= len
  {
    if i < 0 then (if len + i < 0 then 0 else len + i) else if i > len then len else i
  }

  /** `s.slice(start, end)`. */
  function Slice<T>(s: seq<T>, start: int, end: int): seq<T> {
    var a, b := SliceIndex(start, |s|), SliceIndex(end, |s|);
    if a < b then s[a..b] else []
  }

  /** The results shown on a page: `sorted.slice((page - 1) * 8, (page - 1) * 8 + 8)`. */
  function PageOf(sorted: seq<Result>, page: int): seq<Result> {
    Slice(sorted, (page - 1) * ResultsPerPage, (page - 1) * ResultsPerPage + ResultsPerPage)
  }

  /** A page within range shows the next eight results, or what is left of
      them on the last page, and never nothing while there are results. */
  lemma PageContents(sorted: seq<Result>, page: int)
    requires 1 <= page <= TotalPages(|sorted|)
    ensures var start := (page - 1) * ResultsPerPage;
      && start <= |sorted|
      && PageOf(sorted, page) == sorted[start..if start + ResultsPerPage <= |sorted| then start + ResultsPerPage else |sorted|]
      && (|sorted| > 0 ==> |PageOf(sorted, page)| > 0)
  {
    TotalPagesBounds(|sorted|);
  }

  /** The pages from p to the last, put together. */
  function PagesFrom(sorted: seq<Result>, p: int): seq<Result>
    requires p >= 1
    decreases TotalPages(|sorted|) - p
  {
    if p > TotalPages(|sorted|) then [] else PageOf(sorted, p) + PagesFrom(sorted, p + 1)
  }

  /** Paging neither loses nor repeats a result: the pages from p on are the
      sorted results from page p's first index on. */
  lemma {:induction false} PagesFromTail(sorted: seq<Result>, p: int)
    requires 1 <= p <= TotalPages(|sorted|) + 1
    ensures (p - 1) * ResultsPerPage <= |sorted| || p == TotalPages(|sorted|) + 1
    ensures PagesFrom(sorted, p) == sorted[if (p - 1) * ResultsPerPage <= |sorted| then (p - 1) * ResultsPerPage else |sorted|..]
    decreases TotalPages(|sorted|) - p
  {
    TotalPagesBounds(|sorted|);
    if p <= TotalPages(|sorted|) {
      PagesFromTail(sorted, p + 1);
      PageContents(sorted, p);
      var start := (p - 1) * ResultsPerPage;
      var stop := if start + ResultsPerPage <= |sorted| then start + ResultsPerPage else |sorted|;
      assert sorted[start..] == sorted[start..stop] + sorted[stop..];
    }
  }

  /** Every result appears on exactly the pages that cover it: the pages in
      order are the sorted copy. */
  lemma PagesCoverResults(sorted: seq<Result>)
    ensures PagesFrom(sorted, 1) == sorted
  {
    TotalPagesBounds(|sorted|);
    PagesFromTail(sorted, 1);
  }

  /** What the results view shows. */
  datatype SearchView = SearchView(
    total: nat, totalPages: int, shown: seq<Result>, prevDisabled: bool, nextDisabled: bool)

  /** The view of `showSearchResults(results, query, page)`. */
  function ViewOf(results: seq<Result>, page: int): SearchView {
    var sorted := SortResults(results);
    var totalPages := TotalPages(|sorted|);
    SearchView(|sorted|, totalPages, PageOf(sorted, page), page <= 1, page >= totalPages)
  }

  /** Example, mirroring the pagination tests: 25 results make four pages with
      eight on the third; 15 make two, and the second page is the last. */
  lemma PaginationExamples(results: seq<Result>)
    ensures |results| == 25 ==>
      var v := ViewOf(results, 3);
      v.totalPages == 4 && |v.shown| == 8 && !v.prevDisabled && !v.nextDisabled
    ensures |results| == 15 ==>
      ViewOf(results, 1).prevDisabled && ViewOf(results, 2).nextDisabled && |ViewOf(results, 2).shown| == 7
  {
    SortResultsSorted(results);
    assert |SortResults(results)| == |results| by {
      assert |multiset(SortResults(results))| == |multiset(results)|;
    }
  }

  /** The previous/next handlers: a step is taken only while it stays in
      `[1, totalPages]`. */
  function PrevTarget(current: int): Option<int> {
    if current > 1 then Some(current - 1) else None
  }

  function NextTarget(current: int, totalPages: int): Option<int> {
    if current < totalPages then Some(current + 1) else None
  }

  /** From a page in range, a click either does nothing or moves one page
      and stays in range, and it does nothing exactly when its button is
      disabled. */
  lemma ButtonsStayInRange(results: seq<Result>, page: int)
    requires 1 <= page <= TotalPages(|SortResults(results)|)
    ensures var v := ViewOf(results, page);
      && (PrevTarget(page).None? <==> v.prevDisabled)
      && (NextTarget(page, v.totalPages).None? <==> v.nextDisabled)
      && (PrevTarget(page).Some? ==> 1 <= PrevTarget(page).value <= v.totalPages)
      && (NextTarget(page, v.totalPages).Some? ==> 1 <= NextTarget(page, v.totalPages).value <= v.totalPages)
  {
  }

  // ---------------------------------------------------------------------
  // The manager's state
  // ---------------------------------------------------------------------

  /** `this.mode`. */
  datatype Mode = Full | PopupMode

  class UIManager {
    var currentEditNode: Option<Node>
    var currentAddParentId: string
    var isSearchMode: bool
    var searchResults: seq<Result>
    var currentSearchPage: int
    var currentSearchQuery: string
    var mode: Mode

    constructor (mode: Mode)
      ensures currentEditNode == None && currentAddParentId == "root"
      ensures !isSearchMode && searchResults == [] && currentSearchPage == 1 && currentSearchQuery == ""
      ensures this.mode == mode
    {
      currentEditNode := None;
      currentAddParentId := "root";
      isSearchMode := false;
      searchResults := [];
      currentSearchPage := 1;
      currentSearchQuery := "";
      this.mode := mode;
    }

    /** `showAddFolderForm(parentId)` and `showAddChatForm(parentId)`: the
        form's parent is recorded. */
    method ShowAddForm(parentId: string)
      modifies this`currentAddParentId
      ensures currentAddParentId == parentId
    {
      currentAddParentId := parentId;
    }

    /** `showEditForm(node)`: the node being edited is recorded. */
    method ShowEditForm(node: Node)
      modifies this`currentEditNode
      ensures currentEditNode == Some(node)
    {
      currentEditNode := Some(node);
    }

    /** `showSearchResults(results, query, page)`: the state is written
        first; with no container on the page nothing is shown. */
    method ShowSearchResults(results: seq<Result>, query: string, page: int, hasContainer: bool) returns (view: Option<SearchView>)
      modifies this`isSearchMode, this`currentSearchQuery, this`currentSearchPage, this`searchResults
      ensures isSearchMode && currentSearchQuery == query && currentSearchPage == page && searchResults == results
      ensures view == if hasContainer then Some(ViewOf(results, page)) else None
    {
      isSearchMode := true;
      currentSearchQuery := query;
      currentSearchPage := page;
      searchResults := results;
      if !hasContainer {
        return None;
      }
      var sorted := SortResults(results);
      var totalPages := TotalPages(|sorted|);
      var startIdx := (page - 1) * ResultsPerPage;
      var paged := Slice(sorted, startIdx, startIdx + ResultsPerPage);
      view := Some(SearchView(|sorted|, totalPages, paged, page <= 1, page >= totalPages));
    }

    /** The previous-page listener of a view built for `results`/`query`. */
    method ClickPrev(results: seq<Result>, query: string, hasContainer: bool) returns (view: Option<SearchView>)
      modifies this`isSearchMode, this`currentSearchQuery, this`currentSearchPage, this`searchResults
      ensures PrevTarget(old(currentSearchPage)).None? ==> view == None && unchanged(this)
      ensures PrevTarget(old(currentSearchPage)).Some? ==>
        && isSearchMode && currentSearchQuery == query && searchResults == results
        && currentSearchPage == old(currentSearchPage) - 1
        && view == if hasContainer then Some(ViewOf(results, currentSearchPage)) else None
    {
      view := None;
      if currentSearchPage > 1 {
        view := ShowSearchResults(results, query, currentSearchPage - 1, hasContainer);
      }
    }

    /** The next-page listener; `totalPages` is the count of the view it was
        attached to. */
    method ClickNext(results: seq<Result>, query: string, totalPages: int, hasContainer: bool) returns (view: Option<SearchView>)
      modifies this`isSearchMode, this`currentSearchQuery, this`currentSearchPage, this`searchResults
      ensures NextTarget(old(currentSearchPage), totalPages).None? ==> view == None && unchanged(this)
      ensures NextTarget(old(currentSearchPage), totalPages).Some? ==>
        && isSearchMode && currentSearchQuery == query && searchResults == results
        && currentSearchPage == old(currentSearchPage) + 1
        && view == if hasContainer then Some(ViewOf(results, currentSearchPage)) else None
    {
      view := None;
      if currentSearchPage < totalPages {
        view := ShowSearchResults(results, query, currentSearchPage + 1, hasContainer);
      }
    }

    /** `clearSearchResults()`: the search state returns to its defaults. */
    method ClearSearchResults()
      modifies this`isSearchMode, this`searchResults, this`currentSearchQuery, this`currentSearchPage
      ensures !isSearchMode && searchResults == [] && currentSearchQuery == "" && currentSearchPage == 1
    {
      isSearchMode := false;
      searchResults := [];
      currentSearchQuery := "";
      currentSearchPage := 1;
    }
  }

  /** `_countChatsInFolder(folder)`: the `for … of` over the children, a
      chat adding one and a folder its own count. */
  method CountChatsInFolderLoop(folder: Node) returns (count: nat)
    ensures count == CountChatsInFolder(folder)
    decreases folder
  {
    count := 0;
    if !folder.hasChildren {
      return;
    }
    var cs := folder.children;
    var i := 0;
    while i < |cs|
      invariant 0 <= i <= |cs|
      invariant count == CountChatsInList(cs[..i])
    {
      var child := cs[i];
      var add: nat := 0;
      if child.kind == Chat {
        add := 1;
      } else if child.kind == Folder {
        add := CountChatsInFolderLoop(child);
      }
      ChildContribution(cs, i, add);
      count := count + add;
      i := i + 1;
    }
    assert cs[..|cs|] == cs;
  }

  lemma ChildContribution(cs: seq<Node>, i: int, add: nat)
    requires 0 <= i < |cs|
    requires add == match cs[i].kind case Chat => 1 case Folder => CountChatsInFolder(cs[i]) case OtherKind(_) => 0
    ensures CountChatsInList(cs[..i + 1]) == CountChatsInList(cs[..i]) + add
  {
    assert cs[..i + 1] == cs[..i] + [cs[i]];
    CountChatsInListAppend(cs[..i], [cs[i]]);
  }

  /** Example, mirroring the chat-count tests: an empty folder has none, and
      a folder holding a chat and a sub-folder with two chats has three. */
  lemma CountExamples(a: Node, b: Node, c: Node, sub: Node, top: Node, empty: Node)
    requires a.kind == Chat && b.kind == Chat && c.kind == Chat
    requires sub.kind == Folder && sub.hasChildren && sub.children == [b, c]
    requires top.hasChildren && top.children == [a, sub]
    requires empty.hasChildren && empty.children == []
    ensures CountChatsInFolder(top) == 3 && CountChatsInFolder(empty) == 0
  {
    assert [a, sub][1..] == [sub] && [b, c][1..] == [c];
    assert CountChatsInList([c]) == 1;
    assert CountChatsInList([b, c]) == 2;
    assert CountChatsInList([sub]) == 2;
  }
}
