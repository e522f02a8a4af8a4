/** The pure side of the archived search engine
    (refacto-archive/code-extraits/SearchEngine.js): what `searchInData`
    collects from a tree, the guard of `performSearch`, `escapeRegex` and
    `highlightMatch`. The engine object that runs these walks is in
    ArchiveSearchEngine. */
module ArchiveSearch {
  import opened Text
  import opened Tree
  import opened Seqs
  import SearchEngine

  /** Which test produced a result (`matchType`). */
  datatype MatchType = ByName | ByTag | ByPath

  /** One result of `searchInData`: the node's own fields (spread into the
      result), the ancestors' names joined by `' / '`, and the test that
      matched. */
  datatype Hit = Hit(node: Node, path: string, matchType: MatchType)

  const Separator := " / "

  /** `node.name && node.name.toLowerCase().includes(searchText)`. */
  predicate NameMatches(n: Node, q: string) {
    n.name != "" && Contains(ToLower(n.name), q)
  }

  /** `node.tags.some(tag => tag.toLowerCase().includes(searchText))`; a
      node without tags has an empty list. */
  predicate TagMatches(n: Node, q: string) {
    exists i :: 0 <= i < |n.tags| && Contains(ToLower(n.tags[i]), q)
  }

  /** `path.join(' / ').toLowerCase().includes(searchText)`. */
  predicate PathMatches(path: seq<string>, q: string) {
    Contains(ToLower(Join(path, Separator)), q)
  }

  function NameHit(n: Node, path: seq<string>, q: string): seq<Hit> {
    if NameMatches(n, q) then [Hit(n, Join(path, Separator), ByName)] else []
  }

  function TagHit(n: Node, path: seq<string>, q: string): seq<Hit> {
    if TagMatches(n, q) then [Hit(n, Join(path, Separator), ByTag)] else []
  }

  function PathHit(n: Node, path: seq<string>, q: string): seq<Hit> {
    if PathMatches(path, q) then [Hit(n, Join(path, Separator), ByPath)] else []
  }

  /** The results one visit of `searchRecursive(node, path)` pushes, in the
      order of the three tests. */
  function HitsAt(n: Node, path: seq<string>, q: string): seq<Hit> {
    NameHit(n, path, q) + TagHit(n, path, q) + PathHit(n, path, q)
  }

  /** What `searchRecursive(node, path)` pushes for a whole subtree: the
      node's own results, then its children's with the node's name added to
      the path. */
  function SearchNode(n: Node, path: seq<string>, q: string): seq<Hit>
    decreases n, 1
  {
    HitsAt(n, path, q) + (if n.hasChildren then SearchNodes(n.children, path + [n.name], q) else [])
  }

  function SearchNodes(cs: seq<Node>, path: seq<string>, q: string): seq<Hit>
    decreases cs, 0
  {
    if cs == [] then [] else SearchNode(cs[0], path, q) + SearchNodes(cs[1..], path, q)
  }

  lemma {:induction false} SearchNodesAppend(a: seq<Node>, b: seq<Node>, path: seq<string>, q: string)
    ensures SearchNodes(a + b, path, q) == SearchNodes(a, path, q) + SearchNodes(b, path, q)
  {
    if a == [] {
      assert a + b == b;
    } else {
      assert (a + b)[0] == a[0] && (a + b)[1..] == a[1..] + b;
      SearchNodesAppend(a[1..], b, path, q);
      Assoc(SearchNode(a[0], path, q), SearchNodes(a[1..], path, q), SearchNodes(b, path, q));
    }
  }

  lemma SearchNodesSnoc(cs: seq<Node>, i: int, path: seq<string>, q: string)
    requires 0 <= i < |cs|
    ensures SearchNodes(cs[..i + 1], path, q) == SearchNodes(cs[..i], path, q) + SearchNode(cs[i], path, q)
  {
    assert cs[..i + 1] == cs[..i] + [cs[i]];
    SearchNodesAppend(cs[..i], [cs[i]], path, q);
    assert SearchNodes([cs[i]], path, q) == SearchNode(cs[i], path, q) + SearchNodes([], path, q);
  }

  /** The `data` argument: an array of top-level nodes, one node object, or
      anything else. */
  datatype Data = Items(items: seq<Node>) | Single(node: Node) | NoData

  /** `searchInData(data, searchText)`: every top-level item is walked from
      an empty path. */
  function SearchData(data: Data, q: string): seq<Hit> {
    match data
    case Items(items) => SearchNodes(items, [], q)
    case Single(n) => SearchNode(n, [], q)
    case NoData => []
  }

  /** `m` is a node the walk over `data` visits, reached through nodes
      named `anc` (top-level item first, `m`'s parent last). */
  predicate Reaches(data: Data, anc: seq<string>, m: Node) {
    match data
    case Items(items) => exists i :: 0 <= i < |items| && Chain(items[i], anc + [m.name], m)
    case Single(n) => Chain(n, anc + [m.name], m)
    case NoData => false
  }

  // ---------------------------------------------------------------------
  // What the walk finds
  // ---------------------------------------------------------------------

  /** The node test a name or tag result stands for (a path result depends
      on where the node sits, not on the node). */
  predicate NodeMatches(n: Node, q: string, t: MatchType) {
    match t
    case ByName => NameMatches(n, q)
    case ByTag => TagMatches(n, q)
    case ByPath => false
  }

  /** The nodes of the results of one kind, in result order. */
  function HitNodes(hs: seq<Hit>, t: MatchType): (r: seq<Node>)
    ensures |r| <= |hs|
  {
    if hs == [] then [] else (if hs[0].matchType == t then [hs[0].node] else []) + HitNodes(hs[1..], t)
  }

  lemma {:induction false} HitNodesAppend(a: seq<Hit>, b: seq<Hit>, t: MatchType)
    ensures HitNodes(a + b, t) == HitNodes(a, t) + HitNodes(b, t)
  {
    if a == [] {
      assert a + b == b;
    } else {
      assert (a + b)[0] == a[0] && (a + b)[1..] == a[1..] + b;
      HitNodesAppend(a[1..], b, t);
      Assoc(if a[0].matchType == t then [a[0].node] else [], HitNodes(a[1..], t), HitNodes(b, t));
    }
  }

  lemma HitNodesSingle(h: Hit, t: MatchType)
    ensures HitNodes([h], t) == if h.matchType == t then [h.node] else []
    ensures HitNodes([], t) == []
  {
    assert [h][1..] == [];
  }

  /** The nodes of a list that pass one node test, in list order. */
  function Matching(ns: seq<Node>, q: string, t: MatchType): seq<Node> {
    if ns == [] then [] else (if NodeMatches(ns[0], q, t) then [ns[0]] else []) + Matching(ns[1..], q, t)
  }

  lemma {:induction false} MatchingAppend(a: seq<Node>, b: seq<Node>, q: string, t: MatchType)
    ensures Matching(a + b, q, t) == Matching(a, q, t) + Matching(b, q, t)
  {
    if a == [] {
      assert a + b == b;
    } else {
      assert (a + b)[0] == a[0] && (a + b)[1..] == a[1..] + b;
      MatchingAppend(a[1..], b, q, t);
      Assoc(if NodeMatches(a[0], q, t) then [a[0]] else [], Matching(a[1..], q, t), Matching(b, q, t));
    }
  }

  /** One visit yields a name result exactly for a matching name and a tag
      result exactly for a matching tag. */
  lemma HitsAtNodes(n: Node, path: seq<string>, q: string, t: MatchType)
    requires t != ByPath
    ensures HitNodes(HitsAt(n, path, q), t) == Matching([n], q, t)
  {
    var a, b, c := NameHit(n, path, q), TagHit(n, path, q), PathHit(n, path, q);
    HitNodesAppend(a, b, t);
    HitNodesAppend(a + b, c, t);
    var p := Join(path, Separator);
    HitNodesSingle(Hit(n, p, ByName), t);
    HitNodesSingle(Hit(n, p, ByTag), t);
    HitNodesSingle(Hit(n, p, ByPath), t);
    MatchingSingle(n, q, t);
    ThreeParts(HitNodes(a, t), HitNodes(b, t), HitNodes(c, t), Matching([n], q, t), t == ByName);
  }

  lemma MatchingSingle(n: Node, q: string, t: MatchType)
    ensures Matching([n], q, t) == if NodeMatches(n, q, t) then [n] else []
  {
    assert [n][1..] == [];
  }

  /** Exactly one of the name and tag parts can hold the node. */
  lemma ThreeParts(x: seq<Node>, y: seq<Node>, z: seq<Node>, m: seq<Node>, byName: bool)
    requires z == []
    requires byName ==> y == [] && x == m
    requires !byName ==> x == [] && y == m
    ensures x + y + z == m
  {
  }

  /** The walk is complete and sound for names and tags: its name (tag)
      results are exactly the nodes of the subtree whose name (some tag)
      contains the text, each once, in depth-first pre-order, folders and
      the start node included. */
  lemma {:induction false} SearchNodeFinds(n: Node, path: seq<string>, q: string, t: MatchType)
    requires t != ByPath
    ensures HitNodes(SearchNode(n, path, q), t) == Matching(Preorder(n), q, t)
    decreases n, 1
  {
    var cs := if n.hasChildren then n.children else [];
    if n.hasChildren {
      SearchNodesFind(n.children, path + [n.name], q, t);
    }
    HitsAtNodes(n, path, q, t);
    HitNodesAppend(HitsAt(n, path, q), SearchNodes(cs, path + [n.name], q), t);
    assert Preorder(n) == [n] + PreorderIn(cs);
    MatchingAppend([n], PreorderIn(cs), q, t);
  }

  lemma {:induction false} SearchNodesFind(cs: seq<Node>, path: seq<string>, q: string, t: MatchType)
    requires t != ByPath
    ensures HitNodes(SearchNodes(cs, path, q), t) == Matching(PreorderIn(cs), q, t)
    decreases cs, 0
  {
    if cs != [] {
      SearchNodeFinds(cs[0], path, q, t);
      SearchNodesFind(cs[1..], path, q, t);
      HitNodesAppend(SearchNode(cs[0], path, q), SearchNodes(cs[1..], path, q), t);
      MatchingAppend(Preorder(cs[0]), PreorderIn(cs[1..]), q, t);
    }
  }

  /** Every result of one child's walk is among the results of the walk
      over its child list. */
  lemma {:induction false} SearchNodesContains(cs: seq<Node>, i: int, path: seq<string>, q: string)
    requires 0 <= i < |cs|
    ensures forall h :: h in SearchNode(cs[i], path, q) ==> h in SearchNodes(cs, path, q)
    decreases i
  {
    if i > 0 {
      SearchNodesContains(cs[1..], i - 1, path, q);
      assert cs[1..][i - 1] == cs[i];
    }
  }

  /** The walk is complete for path results: a node m of the subtree whose
      ancestors' names (the path the walk started from, then the names from
      the start node down to m's parent), joined by `' / '`, contain the
      text is reported as a path result carrying that joined path. */
  lemma {:induction false} SearchNodeFindsPaths(n: Node, path: seq<string>, q: string, anc: seq<string>, m: Node)
    requires Chain(n, anc + [m.name], m) && PathMatches(path + anc, q)
    ensures Hit(m, Join(path + anc, Separator), ByPath) in SearchNode(n, path, q)
    decreases n
  {
    var names := anc + [m.name];
    var h := Hit(m, Join(path + anc, Separator), ByPath);
    if anc == [] {
      assert names == [m.name] && m == n;
      assert path + anc == path;
      assert h in PathHit(n, path, q);
      assert h in HitsAt(n, path, q);
    } else {
      var i :| 0 <= i < |n.children| && Chain(n.children[i], names[1..], m);
      assert names[1..] == anc[1..] + [m.name];
      assert anc[0] == names[0] == n.name;
      var p := path + [n.name];
      assert p + anc[1..] == path + anc;
      SearchNodeFindsPaths(n.children[i], p, q, anc[1..], m);
      SearchNodesContains(n.children, i, p, q);
    }
  }

  /** Over the whole data: every visited node whose ancestors' names,
      joined by `' / '`, contain the text is reported as a path result. */
  lemma SearchDataFindsPaths(data: Data, q: string, anc: seq<string>, m: Node)
    requires Reaches(data, anc, m) && PathMatches(anc, q)
    ensures Hit(m, Join(anc, Separator), ByPath) in SearchData(data, q)
  {
    assert [] + anc == anc;
    match data
    case Items(items) =>
      var i :| 0 <= i < |items| && Chain(items[i], anc + [m.name], m);
      SearchNodeFindsPaths(items[i], [], q, anc, m);
      SearchNodesContains(items, i, [], q);
    case Single(n) =>
      SearchNodeFindsPaths(n, [], q, anc, m);
  }

  /** What a result promises about its node: the name, a tag or the
      recorded path contains the text, as its type says. */
  predicate HitSound(h: Hit, q: string) {
    match h.matchType
    case ByName => NameMatches(h.node, q)
    case ByTag => TagMatches(h.node, q)
    case ByPath => Contains(ToLower(h.path), q)
  }

  predicate AllSound(hs: seq<Hit>, q: string) {
    forall i :: 0 <= i < |hs| ==> HitSound(hs[i], q)
  }

  lemma SoundAppend(a: seq<Hit>, b: seq<Hit>, q: string)
    requires AllSound(a, q) && AllSound(b, q)
    ensures AllSound(a + b, q)
  {
    forall i | 0 <= i < |a + b| ensures HitSound((a + b)[i], q) {
      if i >= |a| {
        assert (a + b)[i] == b[i - |a|];
      }
    }
  }

  /** Every result of the walk is justified by its own match type. */
  lemma {:induction false} SearchNodeSound(n: Node, path: seq<string>, q: string)
    ensures AllSound(SearchNode(n, path, q), q)
    decreases n, 1
  {
    var below := if n.hasChildren then SearchNodes(n.children, path + [n.name], q) else [];
    if n.hasChildren {
      SearchNodesSound(n.children, path + [n.name], q);
    }
    HitsAtSound(n, path, q);
    SoundAppend(HitsAt(n, path, q), below, q);
  }

  lemma {:induction false} SearchNodesSound(cs: seq<Node>, path: seq<string>, q: string)
    ensures AllSound(SearchNodes(cs, path, q), q)
    decreases cs, 0
  {
    if cs != [] {
      SearchNodeSound(cs[0], path, q);
      SearchNodesSound(cs[1..], path, q);
      SoundAppend(SearchNode(cs[0], path, q), SearchNodes(cs[1..], path, q), q);
    }
  }

  lemma HitsAtSound(n: Node, path: seq<string>, q: string)
    ensures AllSound(HitsAt(n, path, q), q)
  {
    SoundAppend(NameHit(n, path, q), TagHit(n, path, q), q);
    SoundAppend(NameHit(n, path, q) + TagHit(n, path, q), PathHit(n, path, q), q);
  }

  /** A subtree of k nodes yields at most 3k results. */
  lemma {:induction false} SearchNodeBound(n: Node, path: seq<string>, q: string)
    ensures |SearchNode(n, path, q)| <= 3 * |Preorder(n)|
    decreases n, 1
  {
    if n.hasChildren {
      SearchNodesBound(n.children, path + [n.name], q);
    }
  }

  lemma {:induction false} SearchNodesBound(cs: seq<Node>, path: seq<string>, q: string)
    ensures |SearchNodes(cs, path, q)| <= 3 * |PreorderIn(cs)|
    decreases cs, 0
  {
    if cs != [] {
      SearchNodeBound(cs[0], path, q);
      SearchNodesBound(cs[1..], path, q);
    }
  }

  /** A node whose name, a tag and the path above it all contain the text
      is reported three times, once per test, all with the same path; the
      results of a start node carry the empty path. */
  lemma TripleHit(n: Node, path: seq<string>, q: string)
    ensures NameMatches(n, q) && TagMatches(n, q) && PathMatches(path, q) ==>
      HitsAt(n, path, q) == [Hit(n, Join(path, Separator), ByName), Hit(n, Join(path, Separator), ByTag), Hit(n, Join(path, Separator), ByPath)]
    ensures forall i :: 0 <= i < |HitsAt(n, [], q)| ==> HitsAt(n, [], q)[i].path == ""
  {
  }

  // ---------------------------------------------------------------------
  // performSearch(query, data)
  // ---------------------------------------------------------------------

  /** The guard of `performSearch`: a falsy query, or one whose trimmed
      length is below the minimum, is not searched. */
  predicate Refused(query: string, minLength: int) {
    query == "" || |Trim(query)| < minLength
  }

  /** `performSearch(query, data)` with the engine's `minLength`. */
  function PerformSearch(query: string, data: Data, minLength: int): seq<Hit> {
    if Refused(query, minLength) then [] else SearchData(data, Trim(ToLower(query)))
  }

  /** A refused query gives nothing; any other is searched as its
      lower-cased, trimmed text. */
  lemma PerformSearchCases(query: string, data: Data, minLength: int)
    ensures Refused(query, minLength) ==> PerformSearch(query, data, minLength) == []
    ensures !Refused(query, minLength) && data.Single? ==>
      forall t :: t != ByPath ==>
        HitNodes(PerformSearch(query, data, minLength), t) == Matching(Preorder(data.node), Trim(ToLower(query)), t)
  {
    if !Refused(query, minLength) && data.Single? {
      forall t | t != ByPath
        ensures HitNodes(PerformSearch(query, data, minLength), t) == Matching(Preorder(data.node), Trim(ToLower(query)), t)
      {
        SearchNodeFinds(data.node, [], Trim(ToLower(query)), t);
      }
    }
  }

  /** The two engines disagree on a padded one-letter query: the archived
      one trims before measuring and refuses it, the refactored one measures
      first and searches it. */
  lemma GuardsDisagree()
    ensures Refused(" a", 2) && !SearchEngine.Refused(" a", SearchEngine.DefaultConfig.minLength)
  {
    SearchEngine.GuardBeforeTrim();
  }

  // ---------------------------------------------------------------------
  // escapeRegex(string)
  // ---------------------------------------------------------------------

  /** The characters of the class `[.*+?^${}()|[\]\\]`. */
  predicate IsRegexSpecial(c: char) {
    || c == '.' || c == '*' || c == '+' || c == '?' || c == '^' || c == '$'
    || c == '{' || c == '}' || c == '(' || c == ')' || c == '|' || c == '[' || c == ']'
    || c == '\\'
  }

  /** `string.replace(/[.*+?^${}()|[\]\\]/g, '\\$&')`. */
  function EscapeRegex(s: string): (r: string)
    ensures |r| >= |s|
  {
    if s == [] then []
    else (if IsRegexSpecial(s[0]) then ['\\', s[0]] else [s[0]]) + EscapeRegex(s[1..])
  }

  /** The shape of an escaped string: every special character is preceded
      by a backslash, and every backslash introduces a special character. */
  predicate WellEscaped(r: string)
    decreases |r|
  {
    if r == [] then true
    else if r[0] == '\\' then |r| >= 2 && IsRegexSpecial(r[1]) && WellEscaped(r[2..])
    else !IsRegexSpecial(r[0]) && WellEscaped(r[1..])
  }

  /** Reading an escaped pattern back as the literal text it matches. */
  function Unescape(r: string): string
    decreases |r|
  {
    if r == [] then []
    else if r[0] == '\\' && |r| >= 2 then [r[1]] + Unescape(r[2..])
    else [r[0]] + Unescape(r[1..])
  }

  /** The escaped string is well formed and reads back as the original
      text, so the pattern built from it matches that text literally. */
  lemma {:induction false} EscapeRoundTrip(s: string)
    ensures WellEscaped(EscapeRegex(s))
    ensures Unescape(EscapeRegex(s)) == s
  {
    if s != [] {
      EscapeRoundTrip(s[1..]);
      var r := EscapeRegex(s);
      if IsRegexSpecial(s[0]) {
        assert r[0] == '\\' && r[1] == s[0] && r[2..] == EscapeRegex(s[1..]);
      } else {
        assert s[0] != '\\';
        assert r[0] == s[0] && r[1..] == EscapeRegex(s[1..]);
      }
    }
  }

  /** Conversely, every well-formed escaped string is the escape of the text
      it reads back as. */
  lemma {:induction false} EscapeOnto(r: string)
    requires WellEscaped(r)
    ensures EscapeRegex(Unescape(r)) == r
    decreases |r|
  {
    if r != [] {
      if r[0] == '\\' {
        EscapeOnto(r[2..]);
        var u := Unescape(r);
        assert u == [r[1]] + Unescape(r[2..]);
        assert u[0] == r[1] && u[1..] == Unescape(r[2..]);
        assert r == [r[0], r[1]] + r[2..];
      } else {
        EscapeOnto(r[1..]);
        var u := Unescape(r);
        assert u[0] == r[0] && u[1..] == Unescape(r[1..]);
        assert r == [r[0]] + r[1..];
      }
    }
  }

  // ---------------------------------------------------------------------
  // highlightMatch(text, query)
  // ---------------------------------------------------------------------

  /** A piece of the highlighted text: one character kept as it is, or one
      occurrence of the query wrapped in `<strong>`. */
  datatype Piece = Plain(c: char) | Marked(s: string)

  /** The text begins with the query, letter case aside. */
  predicate MatchesAtStart(text: string, q: string) {
    |q| <= |text| && ToLower(text[..|q|]) == ToLower(q)
  }

  /** Where the global, case-insensitive literal pattern matches: scanning
      left to right, each match is taken and the scan resumes after it. */
  function MarkPieces(text: string, q: string): seq<Piece>
    requires q != []
    decreases |text|
  {
    if text == [] then []
    else if MatchesAtStart(text, q) then [Marked(text[..|q|])] + MarkPieces(text[|q|..], q)
    else [Plain(text[0])] + MarkPieces(text[1..], q)
  }

  /** The text the pieces were cut from. */
  function Original(ps: seq<Piece>): string {
    if ps == [] then [] else PieceText(ps[0]) + Original(ps[1..])
  }

  function PieceText(p: Piece): string {
    match p
    case Plain(c) => [c]
    case Marked(s) => s
  }

  /** The pieces written out, each match as `<strong>$1</strong>`. */
  function Render(ps: seq<Piece>): string {
    if ps == [] then []
    else (match ps[0] case Plain(c) => [c] case Marked(s) => "<strong>" + s + "</strong>") + Render(ps[1..])
  }

  /** `highlightMatch(text, query)`: the text itself when either is empty. */
  function HighlightMatch(text: string, query: string): string {
    if query == "" || text == "" then text else Render(MarkPieces(text, query))
  }

  predicate MarksMatch(ps: seq<Piece>, q: string) {
    forall i :: 0 <= i < |ps| && ps[i].Marked? ==> ToLower(ps[i].s) == ToLower(q)
  }

  /** Highlighting only wraps: the pieces put together give back the
      text. */
  lemma {:induction false} MarkPiecesKeepText(text: string, q: string)
    requires q != []
    ensures Original(MarkPieces(text, q)) == text
    decreases |text|
  {
    if text != [] {
      var k := if MatchesAtStart(text, q) then |q| else 1;
      var first := if MatchesAtStart(text, q) then Marked(text[..k]) else Plain(text[0]);
      var rest := MarkPieces(text[k..], q);
      MarkPiecesKeepText(text[k..], q);
      assert MarkPieces(text, q) == [first] + rest;
      assert PieceText(first) == text[..k];
      JoinPieces(text, k, first, rest);
    }
  }

  lemma JoinPieces(text: string, k: int, first: Piece, rest: seq<Piece>)
    requires 0 <= k <= |text|
    requires PieceText(first) == text[..k] && Original(rest) == text[k..]
    ensures Original([first] + rest) == text
  {
    assert ([first] + rest)[0] == first && ([first] + rest)[1..] == rest;
    assert text == text[..k] + text[k..];
  }

  /** Every wrapped piece is the query up to letter case. */
  lemma {:induction false} MarkPiecesMatch(text: string, q: string)
    requires q != []
    ensures MarksMatch(MarkPieces(text, q), q)
    decreases |text|
  {
    if text != [] {
      var ps := MarkPieces(text, q);
      var first, rest;
      if MatchesAtStart(text, q) {
        first, rest := Marked(text[..|q|]), text[|q|..];
      } else {
        first, rest := Plain(text[0]), text[1..];
      }
      MarkPiecesMatch(rest, q);
      ConsMarks(first, MarkPieces(rest, q), q);
    }
  }

  lemma ConsMarks(p: Piece, ps: seq<Piece>, q: string)
    requires p.Marked? ==> ToLower(p.s) == ToLower(q)
    requires MarksMatch(ps, q)
    ensures MarksMatch([p] + ps, q)
  {
    forall i | 0 < i < |[p] + ps| ensures ([p] + ps)[i] == ps[i - 1] {
    }
  }

  /** The guard: an empty query or an empty text comes back unchanged. */
  lemma HighlightGuard(text: string, query: string)
    ensures query == "" || text == "" ==> HighlightMatch(text, query) == text
    ensures query != "" && text != "" ==>
      HighlightMatch(text, query) == Render(MarkPieces(text, query)) && Original(MarkPieces(text, query)) == text
  {
    if query != "" && text != "" {
      MarkPiecesKeepText(text, query);
    }
  }
}
