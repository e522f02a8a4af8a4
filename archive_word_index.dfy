/** The word index of the archived search engine
    (refacto-archive/code-extraits/SearchEngine.js): the word-to-entries map
    `buildSearchIndex` fills, and the first-seen deduplication of
    `searchWithIndex`. The map is specified as the in-order insertion of a
    flat list of (word, entry) postings. */
module ArchiveWordIndex {
  import opened Text
  import opened Tree
  import opened Seqs
  import opened ArchiveSearch

  /** One `{node, path, matchType}` object pushed into a word's list. */
  datatype Entry = Entry(node: Node, path: string, matchType: MatchType)

  /** One push: the word (map key) and the entry appended under it. */
  datatype Posting = Posting(key: string, entry: Entry)

  /** The postings of a name: one per whitespace-separated word of the
      lower-cased name. */
  function WordPostings(words: seq<string>, e: Entry): (r: seq<Posting>)
    ensures |r| == |words|
    ensures forall k :: 0 <= k < |words| ==> r[k] == Posting(words[k], e)
  {
    if words == [] then [] else [Posting(words[0], e)] + WordPostings(words[1..], e)
  }

  /** The postings of the tags: one per tag, under the lower-cased tag. */
  function TagPostings(tags: seq<string>, e: Entry): (r: seq<Posting>)
    ensures |r| == |tags|
    ensures forall k :: 0 <= k < |tags| ==> r[k] == Posting(ToLower(tags[k]), e)
  {
    if tags == [] then [] else [Posting(ToLower(tags[0]), e)] + TagPostings(tags[1..], e)
  }

  function NamePart(n: Node, path: seq<string>): seq<Posting> {
    if n.name != "" then WordPostings(SplitWords(ToLower(n.name)), Entry(n, Join(path, Separator), ByName)) else []
  }

  function TagPart(n: Node, path: seq<string>): seq<Posting> {
    TagPostings(n.tags, Entry(n, Join(path, Separator), ByTag))
  }

  /** Everything `indexNode(node, path)` pushes for a subtree, in push
      order. */
  function PostingsOf(n: Node, path: seq<string>): seq<Posting>
    decreases n, 1
  {
    NamePart(n, path) + TagPart(n, path) + (if n.hasChildren then PostingsIn(n.children, path + [n.name]) else [])
  }

  function PostingsIn(cs: seq<Node>, path: seq<string>): seq<Posting>
    decreases cs, 0
  {
    if cs == [] then [] else PostingsOf(cs[0], path) + PostingsIn(cs[1..], path)
  }

  lemma {:induction false} PostingsInAppend(a: seq<Node>, b: seq<Node>, path: seq<string>)
    ensures PostingsIn(a + b, path) == PostingsIn(a, path) + PostingsIn(b, path)
  {
    if a == [] {
      assert a + b == b;
    } else {
      assert (a + b)[0] == a[0] && (a + b)[1..] == a[1..] + b;
      PostingsInAppend(a[1..], b, path);
      Assoc(PostingsOf(a[0], path), PostingsIn(a[1..], path), PostingsIn(b, path));
    }
  }

  lemma PostingsInSnoc(cs: seq<Node>, i: int, path: seq<string>)
    requires 0 <= i < |cs|
    ensures PostingsIn(cs[..i + 1], path) == PostingsIn(cs[..i], path) + PostingsOf(cs[i], path)
  {
    assert cs[..i + 1] == cs[..i] + [cs[i]];
    PostingsInAppend(cs[..i], [cs[i]], path);
    assert PostingsIn([cs[i]], path) == PostingsOf(cs[i], path) + PostingsIn([], path);
  }

  function DataPostings(data: Data): seq<Posting> {
    match data
    case Items(items) => PostingsIn(items, [])
    case Single(n) => PostingsOf(n, [])
    case NoData => []
  }

  // ---------------------------------------------------------------------
  // The map
  // ---------------------------------------------------------------------

  type Index = map<string, seq<Entry>>

  /** The list under a word, empty when the word is absent. */
  function Get(m: Index, k: string): seq<Entry> {
    if k in m then m[k] else []
  }

  /** One push: create the word's list if needed, then append. */
  function Add(m: Index, p: Posting): Index {
    m[p.key := Get(m, p.key) + [p.entry]]
  }

  /** The pushes, in order. */
  function Insert(m: Index, ps: seq<Posting>): Index
    decreases ps
  {
    if ps == [] then m else Insert(Add(m, ps[0]), ps[1..])
  }

  lemma {:induction false} InsertAppend(m: Index, a: seq<Posting>, b: seq<Posting>)
    ensures Insert(m, a + b) == Insert(Insert(m, a), b)
    decreases a
  {
    if a != [] {
      assert (a + b)[0] == a[0] && (a + b)[1..] == a[1..] + b;
      InsertAppend(Add(m, a[0]), a[1..], b);
    } else {
      assert a + b == b;
    }
  }

  lemma InsertSnoc(m: Index, ps: seq<Posting>, p: Posting)
    ensures Insert(m, ps + [p]) == Add(Insert(m, ps), p)
  {
    InsertAppend(m, ps, [p]);
    assert Insert(Insert(m, ps), [p]) == Insert(Add(Insert(m, ps), p), []);
  }

  /** The entries posted under one word, in posting order. */
  function EntriesFor(ps: seq<Posting>, k: string): seq<Entry> {
    if ps == [] then [] else (if ps[0].key == k then [ps[0].entry] else []) + EntriesFor(ps[1..], k)
  }

  predicate HasKey(ps: seq<Posting>, k: string) {
    exists i :: 0 <= i < |ps| && ps[i].key == k
  }

  /** After the pushes, a word is a key exactly when it was a key before or
      some push used it, and its list is the old list followed by the
      entries pushed under it, in order. */
  lemma {:induction false} InsertLookup(m: Index, ps: seq<Posting>, k: string)
    ensures k in Insert(m, ps) <==> k in m || HasKey(ps, k)
    ensures Get(Insert(m, ps), k) == Get(m, k) + EntriesFor(ps, k)
    decreases ps
  {
    if ps != [] {
      var m' := Add(m, ps[0]);
      InsertLookup(m', ps[1..], k);
      assert Get(m', k) == Get(m, k) + (if ps[0].key == k then [ps[0].entry] else []);
      Assoc(Get(m, k), if ps[0].key == k then [ps[0].entry] else [], EntriesFor(ps[1..], k));
      if HasKey(ps[1..], k) {
        var i :| 0 <= i < |ps[1..]| && ps[1..][i].key == k;
        assert ps[i + 1].key == k;
      }
      if HasKey(ps, k) && ps[0].key != k {
        var i :| 0 <= i < |ps| && ps[i].key == k;
        assert ps[1..][i - 1].key == k;
      }
    } else {
      assert !HasKey(ps, k);
    }
  }

  /** The index `buildSearchIndex(data)` leaves behind. */
  function BuiltIndex(data: Data): Index {
    Insert(map[], DataPostings(data))
  }

  /** The built index maps exactly the posted words, each to the entries
      posted under it in traversal order. */
  lemma BuiltIndexLookup(data: Data, k: string)
    ensures k in BuiltIndex(data) <==> HasKey(DataPostings(data), k)
    ensures Get(BuiltIndex(data), k) == EntriesFor(DataPostings(data), k)
  {
    InsertLookup(map[], DataPostings(data), k);
  }

  // ---------------------------------------------------------------------
  // Every visited node is indexed
  // ---------------------------------------------------------------------

  /** A pushed entry is listed under its word. */
  lemma {:induction false} EntriesForHas(ps: seq<Posting>, p: Posting)
    requires p in ps
    ensures p.entry in EntriesFor(ps, p.key)
  {
    if ps[0] != p {
      EntriesForHas(ps[1..], p);
    }
  }

  /** Every push of one child's subtree is among those of its list. */
  lemma {:induction false} PostingsInContains(cs: seq<Node>, i: int, path: seq<string>)
    requires 0 <= i < |cs|
    ensures forall p :: p in PostingsOf(cs[i], path) ==> p in PostingsIn(cs, path)
    decreases i
  {
    if i > 0 {
      PostingsInContains(cs[1..], i - 1, path);
      assert cs[1..][i - 1] == cs[i];
    }
  }

  /** A node reached from `n` through nodes named `anc` has its own name
      and tag pushes, with the path `path + anc`, among the pushes of `n`'s
      subtree. */
  lemma {:induction false} PostingsOfReaches(n: Node, path: seq<string>, anc: seq<string>, m: Node)
    requires Chain(n, anc + [m.name], m)
    ensures forall p :: p in NamePart(m, path + anc) + TagPart(m, path + anc) ==> p in PostingsOf(n, path)
    decreases n
  {
    var names := anc + [m.name];
    if anc == [] {
      assert names == [m.name] && m == n;
      assert path + anc == path;
    } else {
      var i :| 0 <= i < |n.children| && Chain(n.children[i], names[1..], m);
      assert names[1..] == anc[1..] + [m.name];
      assert anc[0] == names[0] == n.name;
      var pth := path + [n.name];
      assert pth + anc[1..] == path + anc;
      PostingsOfReaches(n.children[i], pth, anc[1..], m);
      PostingsInContains(n.children, i, pth);
    }
  }

  /** The index is complete: every node the walk visits (reached through
      nodes named `anc`) is listed under each word of its lower-cased,
      non-empty name as a name entry, and under each of its tags
      lower-cased as a tag entry, both with the path `anc` joined by
      `' / '`. */
  lemma BuiltIndexFinds(data: Data, anc: seq<string>, m: Node)
    requires Reaches(data, anc, m)
    ensures m.name != "" ==> forall w :: w in SplitWords(ToLower(m.name)) ==>
      Entry(m, Join(anc, Separator), ByName) in Get(BuiltIndex(data), w)
    ensures forall t :: t in m.tags ==>
      Entry(m, Join(anc, Separator), ByTag) in Get(BuiltIndex(data), ToLower(t))
  {
    assert [] + anc == anc;
    match data {
      case Items(items) =>
        var i :| 0 <= i < |items| && Chain(items[i], anc + [m.name], m);
        PostingsOfReaches(items[i], [], anc, m);
        PostingsInContains(items, i, []);
        OwnPostingsListed(data, anc, m);
      case Single(n) =>
        PostingsOfReaches(n, [], anc, m);
        OwnPostingsListed(data, anc, m);
      case NoData =>
    }
  }

  /** A node whose own pushes are among the data's pushes is listed under
      each of their words. */
  lemma OwnPostingsListed(data: Data, anc: seq<string>, m: Node)
    requires forall p :: p in NamePart(m, anc) + TagPart(m, anc) ==> p in DataPostings(data)
    ensures m.name != "" ==> forall w :: w in SplitWords(ToLower(m.name)) ==>
      Entry(m, Join(anc, Separator), ByName) in Get(BuiltIndex(data), w)
    ensures forall t :: t in m.tags ==>
      Entry(m, Join(anc, Separator), ByTag) in Get(BuiltIndex(data), ToLower(t))
  {
    var own := NamePart(m, anc) + TagPart(m, anc);
    var e := Join(anc, Separator);
    if m.name != "" {
      var words := SplitWords(ToLower(m.name));
      forall w | w in words
        ensures Entry(m, e, ByName) in Get(BuiltIndex(data), w)
      {
        var k :| 0 <= k < |words| && words[k] == w;
        var p := Posting(w, Entry(m, e, ByName));
        assert NamePart(m, anc)[k] == p;
        assert p in own;
        EntriesForHas(DataPostings(data), p);
        BuiltIndexLookup(data, w);
      }
    }
    forall t | t in m.tags
      ensures Entry(m, e, ByTag) in Get(BuiltIndex(data), ToLower(t))
    {
      var k :| 0 <= k < |m.tags| && m.tags[k] == t;
      var p := Posting(ToLower(t), Entry(m, e, ByTag));
      assert TagPart(m, anc)[k] == p;
      assert own[|NamePart(m, anc)| + k] == p;
      EntriesForHas(DataPostings(data), p);
      BuiltIndexLookup(data, ToLower(t));
    }
  }

  /** What a posting promises: a name word is one of the lower-cased name's
      whitespace-separated words, a tag word is one of the node's tags
      lower-cased. */
  predicate PostingSound(p: Posting) {
    match p.entry.matchType
    case ByName => p.entry.node.name != "" && p.key in SplitWords(ToLower(p.entry.node.name))
    case ByTag => exists t :: t in p.entry.node.tags && ToLower(t) == p.key
    case ByPath => false
  }

  predicate AllPostingsSound(ps: seq<Posting>) {
    forall i :: 0 <= i < |ps| ==> PostingSound(ps[i])
  }

  lemma PostingsSoundAppend(a: seq<Posting>, b: seq<Posting>)
    requires AllPostingsSound(a) && AllPostingsSound(b)
    ensures AllPostingsSound(a + b)
  {
    forall i | 0 <= i < |a + b| ensures PostingSound((a + b)[i]) {
      if i >= |a| {
        assert (a + b)[i] == b[i - |a|];
      }
    }
  }

  lemma OwnPostingsSound(n: Node, path: seq<string>)
    ensures AllPostingsSound(NamePart(n, path) + TagPart(n, path))
  {
    var np, tp := NamePart(n, path), TagPart(n, path);
    forall i | 0 <= i < |tp| ensures PostingSound(tp[i]) {
      assert n.tags[i] in n.tags;
    }
    PostingsSoundAppend(np, tp);
  }

  /** Every posting of a walk is justified by its node: the index never
      files a node under a word its name or tags do not carry. */
  lemma {:induction false} PostingsOfSound(n: Node, path: seq<string>)
    ensures AllPostingsSound(PostingsOf(n, path))
    decreases n, 1
  {
    var below := if n.hasChildren then PostingsIn(n.children, path + [n.name]) else [];
    if n.hasChildren {
      PostingsInSound(n.children, path + [n.name]);
    }
    OwnPostingsSound(n, path);
    PostingsSoundAppend(NamePart(n, path) + TagPart(n, path), below);
  }

  lemma {:induction false} PostingsInSound(cs: seq<Node>, path: seq<string>)
    ensures AllPostingsSound(PostingsIn(cs, path))
    decreases cs, 0
  {
    if cs != [] {
      PostingsOfSound(cs[0], path);
      PostingsInSound(cs[1..], path);
      PostingsSoundAppend(PostingsOf(cs[0], path), PostingsIn(cs[1..], path));
    }
  }

  // ---------------------------------------------------------------------
  // searchWithIndex(query)
  // ---------------------------------------------------------------------

  /** The deduplication key `result.node.id || result.node.name`. */
  function Key(e: Entry): string {
    if e.node.id != "" then e.node.id else e.node.name
  }

  function KeySet(es: seq<Entry>): set<string> {
    set e | e in es :: Key(e)
  }

  /** The entries listed under each query word, word after word. */
  function Candidates(m: Index, words: seq<string>): seq<Entry> {
    if words == [] then [] else Get(m, words[0]) + Candidates(m, words[1..])
  }

  lemma {:induction false} CandidatesAppend(m: Index, a: seq<string>, b: seq<string>)
    ensures Candidates(m, a + b) == Candidates(m, a) + Candidates(m, b)
  {
    if a == [] {
      assert a + b == b;
    } else {
      assert (a + b)[0] == a[0] && (a + b)[1..] == a[1..] + b;
      CandidatesAppend(m, a[1..], b);
      Assoc(Get(m, a[0]), Candidates(m, a[1..]), Candidates(m, b));
    }
  }

  lemma CandidatesSnoc(m: Index, words: seq<string>, i: int)
    requires 0 <= i < |words|
    ensures Candidates(m, words[..i + 1]) == Candidates(m, words[..i]) + Get(m, words[i])
  {
    assert words[..i + 1] == words[..i] + [words[i]];
    CandidatesAppend(m, words[..i], [words[i]]);
    assert Candidates(m, [words[i]]) == Get(m, words[i]) + Candidates(m, []);
  }

  /** One `if (!results.has(key)) results.set(key, result)`. */
  function Step(acc: seq<Entry>, e: Entry): seq<Entry> {
    if Key(e) in KeySet(acc) then acc else acc + [e]
  }

  /** The insertion-ordered values of the results map after the entries. */
  function Dedup(acc: seq<Entry>, es: seq<Entry>): seq<Entry>
    decreases es
  {
    if es == [] then acc else Dedup(Step(acc, es[0]), es[1..])
  }

  lemma {:induction false} DedupAppend(acc: seq<Entry>, a: seq<Entry>, b: seq<Entry>)
    ensures Dedup(acc, a + b) == Dedup(Dedup(acc, a), b)
    decreases a
  {
    if a != [] {
      assert (a + b)[0] == a[0] && (a + b)[1..] == a[1..] + b;
      DedupAppend(Step(acc, a[0]), a[1..], b);
    } else {
      assert a + b == b;
    }
  }

  lemma DedupSnoc(acc: seq<Entry>, es: seq<Entry>, e: Entry)
    ensures Dedup(acc, es + [e]) == Step(Dedup(acc, es), e)
  {
    DedupAppend(acc, es, [e]);
    assert Dedup(Dedup(acc, es), [e]) == Dedup(Step(Dedup(acc, es), e), []);
  }

  lemma KeySetSnoc(acc: seq<Entry>, e: Entry)
    ensures KeySet(acc + [e]) == KeySet(acc) + {Key(e)}
  {
    assert forall x :: x in acc + [e] <==> x in acc || x == e;
  }

  predicate DistinctKeys(es: seq<Entry>) {
    forall i, j :: 0 <= i < j < |es| ==> Key(es[i]) != Key(es[j])
  }

  lemma StepDistinct(acc: seq<Entry>, e: Entry)
    requires DistinctKeys(acc)
    ensures DistinctKeys(Step(acc, e))
  {
    if Key(e) !in KeySet(acc) {
      var r := acc + [e];
      forall i, j | 0 <= i < j < |r| ensures Key(r[i]) != Key(r[j]) {
        if j == |acc| {
          assert r[i] in acc;
        }
      }
    }
  }

  /** The deduplicated results start with what was there. */
  lemma {:induction false} DedupPrefix(acc: seq<Entry>, es: seq<Entry>)
    ensures |acc| <= |Dedup(acc, es)| && Dedup(acc, es)[..|acc|] == acc
    decreases es
  {
    if es != [] {
      var s := Step(acc, es[0]);
      DedupPrefix(s, es[1..]);
      assert s[..|acc|] == acc;
      PrefixOfPrefix(Dedup(s, es[1..]), s, acc);
    }
  }

  lemma PrefixOfPrefix(r: seq<Entry>, s: seq<Entry>, acc: seq<Entry>)
    requires |s| <= |r| && r[..|s|] == s
    requires |acc| <= |s| && s[..|acc|] == acc
    ensures |acc| <= |r| && r[..|acc|] == acc
  {
    assert r[..|acc|] == r[..|s|][..|acc|];
  }

  /** No two results share a key. */
  lemma {:induction false} DedupDistinct(acc: seq<Entry>, es: seq<Entry>)
    requires DistinctKeys(acc)
    ensures DistinctKeys(Dedup(acc, es))
    decreases es
  {
    if es != [] {
      StepDistinct(acc, es[0]);
      DedupDistinct(Step(acc, es[0]), es[1..]);
    }
  }

  /** The results hold only entries that were there or came in. */
  lemma {:induction false} DedupFrom(acc: seq<Entry>, es: seq<Entry>)
    ensures forall x :: x in Dedup(acc, es) ==> x in acc || x in es
    decreases es
  {
    if es != [] {
      var s := Step(acc, es[0]);
      DedupFrom(s, es[1..]);
      assert forall x :: x in s ==> x in acc || x == es[0];
      assert forall x :: x in es[1..] ==> x in es;
    }
  }

  /** The results carry exactly the keys that were there or came in. */
  lemma {:induction false} DedupKeys(acc: seq<Entry>, es: seq<Entry>)
    ensures KeySet(acc) + KeySet(es) == KeySet(Dedup(acc, es))
    decreases es
  {
    if es != [] {
      var s := Step(acc, es[0]);
      DedupKeys(s, es[1..]);
      KeySetSnoc(acc, es[0]);
      assert KeySet(s) == KeySet(acc) + {Key(es[0])};
      KeySetCons(es);
    }
  }

  lemma KeySetCons(es: seq<Entry>)
    requires es != []
    ensures KeySet(es) == {Key(es[0])} + KeySet(es[1..])
  {
    assert forall x :: x in es <==> x == es[0] || x in es[1..];
  }

  /** The first entry with a given key is the one kept: an entry whose key
      is not among those seen before it is in the results. */
  lemma {:induction false} DedupKeepsFirst(acc: seq<Entry>, es: seq<Entry>, i: int)
    requires 0 <= i < |es| && Key(es[i]) !in KeySet(acc) + KeySet(es[..i])
    ensures es[i] in Dedup(acc, es)
    decreases es
  {
    var s := Step(acc, es[0]);
    if i == 0 {
      DedupPrefix(s, es[1..]);
      assert s == acc + [es[0]] && s[|acc|] == es[0];
      assert Dedup(s, es[1..])[..|s|] == s;
      assert Dedup(s, es[1..])[|acc|] == es[0];
    } else {
      KeySetSnoc(acc, es[0]);
      assert es[0] in es[..i];
      assert es[1..][..i - 1] == es[1..i];
      assert forall x :: x in es[1..i] ==> x in es[..i];
      assert KeySet(s) <= KeySet(acc) + {Key(es[0])};
      DedupKeepsFirst(s, es[1..], i - 1);
    }
  }

  /** `r` is `cands` taken at the increasing positions `idx`, and those
      positions are exactly the first candidate of each key. */
  predicate FirstSeenAt(r: seq<Entry>, cands: seq<Entry>, idx: seq<int>) {
    && |idx| == |r|
    && (forall j :: 0 <= j < |idx| ==> 0 <= idx[j] < |cands| && r[j] == cands[idx[j]])
    && (forall j, k :: 0 <= j < k < |idx| ==> idx[j] < idx[k])
    && (forall i :: 0 <= i < |cands| ==> (i in idx <==> Key(cands[i]) !in KeySet(cands[..i])))
  }

  /** One more candidate whose key was seen: nothing changes. */
  lemma FirstSeenSnocSeen(r: seq<Entry>, cands: seq<Entry>, idx: seq<int>, e: Entry)
    requires FirstSeenAt(r, cands, idx) && Key(e) in KeySet(cands)
    ensures FirstSeenAt(r, cands + [e], idx)
  {
    var cs := cands + [e];
    var n := |cands|;
    assert cs[..n] == cands;
    forall j | 0 <= j < |idx|
      ensures 0 <= idx[j] < |cs| && r[j] == cs[idx[j]]
    {
    }
    forall i | 0 <= i < |cs|
      ensures i in idx <==> Key(cs[i]) !in KeySet(cs[..i])
    {
      if i < n {
        assert cs[..i] == cands[..i] && cs[i] == cands[i];
      } else {
        assert n !in idx;
      }
    }
  }

  /** One more candidate with a new key: it is kept, at the next
      position. */
  lemma FirstSeenSnocNew(r: seq<Entry>, cands: seq<Entry>, idx: seq<int>, e: Entry)
    requires FirstSeenAt(r, cands, idx) && Key(e) !in KeySet(cands)
    ensures FirstSeenAt(r + [e], cands + [e], idx + [|cands|])
  {
    var cs, r', idx' := cands + [e], r + [e], idx + [|cands|];
    var n := |cands|;
    assert cs[..n] == cands;
    forall j | 0 <= j < |idx'|
      ensures 0 <= idx'[j] < |cs| && r'[j] == cs[idx'[j]]
    {
      if j < |idx| {
        assert idx'[j] == idx[j] && r'[j] == r[j];
      }
    }
    forall j, k | 0 <= j < k < |idx'|
      ensures idx'[j] < idx'[k]
    {
      assert idx'[j] == idx[j];
    }
    forall i | 0 <= i < |cs|
      ensures i in idx' <==> Key(cs[i]) !in KeySet(cs[..i])
    {
      if i < n {
        assert cs[..i] == cands[..i] && cs[i] == cands[i];
        assert i in idx' <==> i in idx;
      }
    }
  }

  /** Deduplicating from scratch keeps the first candidate of each key, in
      the order the candidates came. */
  lemma {:induction false} DedupFirstSeen(cands: seq<Entry>) returns (idx: seq<int>)
    ensures FirstSeenAt(Dedup([], cands), cands, idx)
    decreases |cands|
  {
    if cands == [] {
      idx := [];
    } else {
      var n := |cands| - 1;
      var front, e := cands[..n], cands[n];
      assert cands == front + [e];
      var idx0 := DedupFirstSeen(front);
      DedupSnoc([], front, e);
      assert KeySet([]) == {};
      DedupKeys([], front);
      if Key(e) in KeySet(front) {
        FirstSeenSnocSeen(Dedup([], front), front, idx0, e);
        idx := idx0;
      } else {
        FirstSeenSnocNew(Dedup([], front), front, idx0, e);
        idx := idx0 + [n];
      }
    }
  }

  /** The words of the query, lower-cased and trimmed, split on
      whitespace. */
  function QueryWords(query: string): seq<string> {
    SplitWords(Trim(ToLower(query)))
  }

  /** Entering the hits of one more query word continues the
      deduplication of all the candidates so far. */
  lemma DedupNextWord(index: Index, words: seq<string>, i: int, before: seq<Entry>, after: seq<Entry>)
    requires 0 <= i < |words|
    requires before == Dedup([], Candidates(index, words[..i]))
    requires after == Dedup(before, Get(index, words[i]))
    ensures after == Dedup([], Candidates(index, words[..i + 1]))
  {
    CandidatesSnoc(index, words, i);
    DedupAppend([], Candidates(index, words[..i]), Get(index, words[i]));
  }

  /** `searchWithIndex(query)`: nothing without an index or a query;
      otherwise the deduplicated entries of the query's words. */
  function SearchWithIndex(index: Option<Index>, query: string): seq<Entry> {
    if index.None? || query == "" then [] else Dedup([], Candidates(index.value, QueryWords(query)))
  }

  /** What deduplicating a candidate list from scratch gives: one entry per
      key, every candidate key represented, the first candidate of each key
      the one kept, and nothing that is not a candidate. */
  lemma DedupFromScratch(cands: seq<Entry>)
    ensures var r := Dedup([], cands);
      && DistinctKeys(r)
      && (forall x :: x in r ==> x in cands)
      && KeySet(r) == KeySet(cands)
      && (forall i :: 0 <= i < |cands| && Key(cands[i]) !in KeySet(cands[..i]) ==> cands[i] in r)
  {
    assert KeySet([]) == {};
    DedupDistinct([], cands);
    DedupFrom([], cands);
    DedupKeys([], cands);
    forall i | 0 <= i < |cands| && Key(cands[i]) !in KeySet(cands[..i])
      ensures cands[i] in Dedup([], cands)
    {
      DedupKeepsFirst([], cands, i);
    }
  }

  /** The results of an indexed search are the candidates of the query's
      words, deduplicated as above and in first-seen order; no index or no
      query gives nothing. */
  lemma SearchWithIndexResults(index: Option<Index>, query: string)
    ensures index.None? || query == "" ==> SearchWithIndex(index, query) == []
    ensures index.Some? && query != "" ==>
      var cands, r := Candidates(index.value, QueryWords(query)), SearchWithIndex(index, query);
      && DistinctKeys(r)
      && (forall x :: x in r ==> x in cands)
      && KeySet(r) == KeySet(cands)
      && (forall i :: 0 <= i < |cands| && Key(cands[i]) !in KeySet(cands[..i]) ==> cands[i] in r)
      && (exists idx :: FirstSeenAt(r, cands, idx))
  {
    if index.Some? && query != "" {
      var cands := Candidates(index.value, QueryWords(query));
      DedupFromScratch(cands);
      var idx := DedupFirstSeen(cands);
    }
  }
}
