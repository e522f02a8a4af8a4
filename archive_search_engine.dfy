/** The archived `SearchEngine` object
    (refacto-archive/code-extraits/SearchEngine.js): the recursive walks that
    push into a results array or into the word map, the deduplicating loop
    of `searchWithIndex`, the debounce timer and `configure`. Each walk is
    proved against the specification functions of ArchiveSearch and
    ArchiveWordIndex. */
module ArchiveSearchEngine {
  import opened Text
  import opened Tree
  import opened ArchiveSearch
  import opened ArchiveWordIndex
  import SearchEngine

  type Config = SearchEngine.Config

  /** `this.config` as the constructor sets it. */
  const ArchiveDefault: Config := SearchEngine.Config(2, 300, true, true)

  /** The keys an object passed to `configure` may carry; None stands for
      an absent key. */
  datatype ConfigPatch = ConfigPatch(
    minLength: Option<int>, debounceDelay: Option<int>, useIndex: Option<bool>, rebuildIndexOnChange: Option<bool>)

  function Pick<T>(given: Option<T>, current: T): T {
    if given.Some? then given.value else current
  }

  /** `{ ...this.config, ...config }`: the given keys win, the others stay. */
  function Overlay(c: Config, p: ConfigPatch): (r: Config)
    ensures p.minLength.Some? ==> r.minLength == p.minLength.value
    ensures p.minLength.None? ==> r.minLength == c.minLength
    ensures p.debounceDelay.Some? ==> r.debounceDelay == p.debounceDelay.value
    ensures p.debounceDelay.None? ==> r.debounceDelay == c.debounceDelay
    ensures p.useIndex.Some? ==> r.useIndex == p.useIndex.value
    ensures p.useIndex.None? ==> r.useIndex == c.useIndex
    ensures p.rebuildIndexOnChange.Some? ==> r.rebuildIndexOnChange == p.rebuildIndexOnChange.value
    ensures p.rebuildIndexOnChange.None? ==> r.rebuildIndexOnChange == c.rebuildIndexOnChange
  {
    SearchEngine.Config(
      Pick(p.minLength, c.minLength), Pick(p.debounceDelay, c.debounceDelay),
      Pick(p.useIndex, c.useIndex), Pick(p.rebuildIndexOnChange, c.rebuildIndexOnChange))
  }

  /** Two successive overlays are one overlay of the later keys over the
      earlier ones. */
  function Merge(p: ConfigPatch, q: ConfigPatch): ConfigPatch {
    ConfigPatch(
      if q.minLength.Some? then q.minLength else p.minLength,
      if q.debounceDelay.Some? then q.debounceDelay else p.debounceDelay,
      if q.useIndex.Some? then q.useIndex else p.useIndex,
      if q.rebuildIndexOnChange.Some? then q.rebuildIndexOnChange else p.rebuildIndexOnChange)
  }

  lemma OverlayTwice(c: Config, p: ConfigPatch, q: ConfigPatch)
    ensures Overlay(Overlay(c, p), q) == Overlay(c, Merge(p, q))
    ensures Overlay(c, ConfigPatch(None, None, None, None)) == c
  {
  }

  /** The walk `searchRecursive(node, path)` pushing into `results`. */
  method SearchRecursive(n: Node, path: seq<string>, q: string, acc: seq<Hit>) returns (r: seq<Hit>)
    ensures r == acc + SearchNode(n, path, q)
    decreases n
  {
    var joined := Join(path, Separator);
    r := acc;
    if NameMatches(n, q) {
      r := r + [Hit(n, joined, ByName)];
    }
    assert r == acc + NameHit(n, path, q);
    var tagMatch := AnyTagMatches(n, q);
    if tagMatch {
      r := r + [Hit(n, joined, ByTag)];
    }
    assert r == acc + NameHit(n, path, q) + TagHit(n, path, q);
    if PathMatches(path, q) {
      r := r + [Hit(n, joined, ByPath)];
    }
    assert r == acc + NameHit(n, path, q) + TagHit(n, path, q) + PathHit(n, path, q);
    OwnHits(acc, NameHit(n, path, q), TagHit(n, path, q), PathHit(n, path, q));
    ghost var start := r;
    if n.hasChildren {
      var newPath := path + [n.name];
      var cs := n.children;
      var i := 0;
      while i < |cs|
        invariant 0 <= i <= |cs|
        invariant r == start + SearchNodes(cs[..i], newPath, q)
      {
        r := SearchRecursive(cs[i], newPath, q, r);
        SearchNodesSnoc(cs, i, newPath, q);
        Seqs.Assoc(start, SearchNodes(cs[..i], newPath, q), SearchNode(cs[i], newPath, q));
        i := i + 1;
      }
      assert cs[..|cs|] == cs;
      Seqs.Assoc(acc, HitsAt(n, path, q), SearchNodes(cs, newPath, q));
    } else {
      assert SearchNode(n, path, q) == HitsAt(n, path, q) + [];
    }
  }

  lemma OwnHits(acc: seq<Hit>, a: seq<Hit>, b: seq<Hit>, c: seq<Hit>)
    ensures acc + a + b + c == acc + (a + b + c)
  {
  }

  /** `node.tags.some(tag => tag.toLowerCase().includes(searchText))`. */
  method AnyTagMatches(n: Node, q: string) returns (b: bool)
    ensures b <==> TagMatches(n, q)
  {
    var tags := n.tags;
    var i := 0;
    while i < |tags|
      invariant 0 <= i <= |tags|
      invariant forall k :: 0 <= k < i ==> !Contains(ToLower(tags[k]), q)
    {
      if Contains(ToLower(tags[i]), q) {
        return true;
      }
      i := i + 1;
    }
    return false;
  }

  /** `searchInData(data, searchText)`. */
  method SearchInData(data: Data, q: string) returns (results: seq<Hit>)
    ensures results == SearchData(data, q)
  {
    results := [];
    match data {
      case Items(items) =>
        var i := 0;
        while i < |items|
          invariant 0 <= i <= |items|
          invariant results == SearchNodes(items[..i], [], q)
        {
          results := SearchRecursive(items[i], [], q, results);
          SearchNodesSnoc(items, i, [], q);
          i := i + 1;
        }
        assert items[..|items|] == items;
      case Single(n) =>
        results := SearchRecursive(n, [], q, []);
      case NoData =>
    }
  }

  /** `indexNode(node, path)`: the name's words, then the tags, then the
      children, each push appending to the word's list. */
  method IndexNode(n: Node, path: seq<string>, m: Index) returns (r: Index)
    ensures r == Insert(m, PostingsOf(n, path))
    decreases n
  {
    var nodePath := Join(path, Separator);
    r := m;
    if n.name != "" {
      r := IndexWords(r, SplitWords(ToLower(n.name)), Entry(n, nodePath, ByName));
    }
    ghost var afterNames := r;
    r := IndexTags(r, n.tags, Entry(n, nodePath, ByTag));
    ghost var afterTags := r;
    if n.hasChildren {
      var newPath := path + [n.name];
      var cs := n.children;
      var i := 0;
      while i < |cs|
        invariant 0 <= i <= |cs|
        invariant r == Insert(afterTags, PostingsIn(cs[..i], newPath))
      {
        r := IndexNode(cs[i], newPath, r);
        PostingsInSnoc(cs, i, newPath);
        InsertAppend(afterTags, PostingsIn(cs[..i], newPath), PostingsOf(cs[i], newPath));
        i := i + 1;
      }
      assert cs[..|cs|] == cs;
    } else {
      assert r == Insert(afterTags, []);
    }
    InsertAppend(m, NamePart(n, path), TagPart(n, path));
    InsertAppend(m, NamePart(n, path) + TagPart(n, path), if n.hasChildren then PostingsIn(n.children, path + [n.name]) else []);
  }

  /** `words.forEach(word => …push(entry))`. */
  method IndexWords(m: Index, words: seq<string>, e: Entry) returns (r: Index)
    ensures r == Insert(m, WordPostings(words, e))
  {
    r := m;
    var i := 0;
    while i < |words|
      invariant 0 <= i <= |words|
      invariant r == Insert(m, WordPostings(words[..i], e))
    {
      var word := words[i];
      var list := if word in r then r[word] else [];
      r := r[word := list + [e]];
      WordPostingsSnoc(words, i, e);
      InsertSnoc(m, WordPostings(words[..i], e), Posting(word, e));
      i := i + 1;
    }
    assert words[..|words|] == words;
  }

  /** `node.tags.forEach(tag => …push(entry))` under the lower-cased tag. */
  method IndexTags(m: Index, tags: seq<string>, e: Entry) returns (r: Index)
    ensures r == Insert(m, TagPostings(tags, e))
  {
    r := m;
    var i := 0;
    while i < |tags|
      invariant 0 <= i <= |tags|
      invariant r == Insert(m, TagPostings(tags[..i], e))
    {
      var key := ToLower(tags[i]);
      var list := if key in r then r[key] else [];
      r := r[key := list + [e]];
      TagPostingsSnoc(tags, i, e);
      InsertSnoc(m, TagPostings(tags[..i], e), Posting(key, e));
      i := i + 1;
    }
    assert tags[..|tags|] == tags;
  }

  lemma WordPostingsSnoc(words: seq<string>, i: int, e: Entry)
    requires 0 <= i < |words|
    ensures WordPostings(words[..i + 1], e) == WordPostings(words[..i], e) + [Posting(words[i], e)]
  {
  }

  lemma TagPostingsSnoc(tags: seq<string>, i: int, e: Entry)
    requires 0 <= i < |tags|
    ensures TagPostings(tags[..i + 1], e) == TagPostings(tags[..i], e) + [Posting(ToLower(tags[i]), e)]
  {
  }

  /** One turn of the inner loop of `searchWithIndex`: the key test against
      the map's keys is the deduplication step. */
  lemma DedupStep(start: seq<Entry>, results: seq<Entry>, keys: set<string>, done: seq<Entry>, e: Entry, key: string)
    requires results == Dedup(start, done) && keys == KeySet(results) && key == Key(e)
    ensures Dedup(start, done + [e]) == if key in keys then results else results + [e]
    ensures key !in keys ==> KeySet(results + [e]) == keys + {key}
  {
    DedupSnoc(start, done, e);
    KeySetSnoc(results, e);
  }

  /** `this.searchIndex.get(word).forEach(result => …)`: each hit whose key
      the results map lacks is entered under that key. */
  method EnterHits(results: seq<Entry>, keys: set<string>, list: seq<Entry>) returns (r: seq<Entry>, ks: set<string>)
    requires keys == KeySet(results)
    ensures r == Dedup(results, list) && ks == KeySet(r)
  {
    r, ks := results, keys;
    var j := 0;
    while j < |list|
      invariant 0 <= j <= |list|
      invariant r == Dedup(results, list[..j]) && ks == KeySet(r)
    {
      var e := list[j];
      var key := if e.node.id != "" then e.node.id else e.node.name;
      DedupStep(results, r, ks, list[..j], e, key);
      if key !in ks {
        r := r + [e];
        ks := ks + {key};
      }
      assert list[..j + 1] == list[..j] + [e];
      j := j + 1;
    }
    assert list[..|list|] == list;
  }

  /** The timer `searchWithDebounce` arms: the query and the data it will
      search. */
  datatype Pending = Pending(query: string, data: Data)

  class ArchiveSearchEngine {
    var searchIndex: Option<Index>
    /** The armed debounce timer, if any. */
    var pending: Option<Pending>
    var config: Config

    constructor ()
      ensures searchIndex == None && pending == None && config == ArchiveDefault
    {
      searchIndex := None;
      pending := None;
      config := ArchiveDefault;
    }

    /** `performSearch(query, data)`. */
    method PerformSearch(query: string, data: Data) returns (results: seq<Hit>)
      ensures results == ArchiveSearch.PerformSearch(query, data, config.minLength)
    {
      if query == "" || |Trim(query)| < config.minLength {
        return [];
      }
      var searchText := Trim(ToLower(query));
      results := SearchInData(data, searchText);
    }

    /** `searchWithDebounce(query, data, callback)`: the armed timer is
        cancelled; a blank query calls back with `[]` at once (returned
        here), any other arms one timer for the query and the data. */
    method SearchWithDebounce(query: string, data: Data) returns (immediate: Option<seq<Hit>>)
      modifies this`pending
      ensures query == "" || Trim(query) == "" ==> immediate == Some([]) && pending == None
      ensures !(query == "" || Trim(query) == "") ==> immediate == None && pending == Some(Pending(query, data))
    {
      pending := None;
      if query == "" || |Trim(query)| == 0 {
        return Some([]);
      }
      pending := Some(Pending(query, data));
      return None;
    }

    /** The armed timer fires: the callback receives `performSearch` of the
        query and data it was armed with. */
    method FireTimer() returns (results: Option<seq<Hit>>)
      modifies this`pending
      ensures old(pending).None? ==> results == None && pending == None
      ensures old(pending).Some? ==>
        results == Some(ArchiveSearch.PerformSearch(old(pending).value.query, old(pending).value.data, config.minLength))
        && pending == None
    {
      if pending.None? {
        return None;
      }
      var armed := pending.value;
      pending := None;
      var found := PerformSearch(armed.query, armed.data);
      results := Some(found);
    }

    /** `buildSearchIndex(data)`: a fresh map, filled by the walk. */
    method BuildSearchIndex(data: Data)
      modifies this`searchIndex
      ensures searchIndex == Some(BuiltIndex(data))
    {
      var m: Index := map[];
      match data {
        case Items(items) =>
          var i := 0;
          while i < |items|
            invariant 0 <= i <= |items|
            invariant m == Insert(map[], PostingsIn(items[..i], []))
          {
            m := IndexNode(items[i], [], m);
            PostingsInSnoc(items, i, []);
            InsertAppend(map[], PostingsIn(items[..i], []), PostingsOf(items[i], []));
            i := i + 1;
          }
          assert items[..|items|] == items;
        case Single(n) =>
          m := IndexNode(n, [], m);
        case NoData =>
      }
      searchIndex := Some(m);
    }

    /** `searchWithIndex(query)`: the hits of each query word are entered
        into a results map keyed by node id (or name), first come first
        kept; the map's values come back in insertion order. */
    method SearchWithIndex(query: string) returns (results: seq<Entry>)
      ensures results == ArchiveWordIndex.SearchWithIndex(searchIndex, query)
    {
      if searchIndex.None? || query == "" {
        return [];
      }
      var index := searchIndex.value;
      var words := SplitWords(Trim(ToLower(query)));
      var keys: set<string> := {};
      results := [];
      var i := 0;
      while i < |words|
        invariant 0 <= i <= |words|
        invariant results == Dedup([], Candidates(index, words[..i]))
        invariant keys == KeySet(results)
      {
        var word := words[i];
        var list := if word in index then index[word] else [];
        ghost var before := results;
        results, keys := EnterHits(results, keys, list);
        DedupNextWord(index, words, i, before, results);
        i := i + 1;
      }
      assert words[..|words|] == words;
    }

    /** `configure(config)`. */
    method Configure(p: ConfigPatch)
      modifies this`config
      ensures config == Overlay(old(config), p)
    {
      config := Overlay(config, p);
    }
  }
}
