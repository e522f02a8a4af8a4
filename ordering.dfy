/** The ordering policy of `sortChildren` / `_sortChildren`: folders first,
    chats second, each group sorted by name with a stable sort; nodes of any
    other type are dropped.

    The source compares names with `localeCompare(…, 'fr', {sensitivity:
    'base'})`. That comparison is modelled by `CollateLe`: names are compared
    character by character after ASCII lower-casing, which makes it a total
    preorder in which names differing only in case are equivalent. The sort
    lemmas use only totality and transitivity of `CollateLe`. */
module Ordering {
  import opened Text
  import opened Tree
  import opened Seqs

  // ---------------------------------------------------------------------
  // Collation
  // ---------------------------------------------------------------------

  /** Lexicographic order on character codes; a prefix comes first. */
  predicate LexLe(a: string, b: string)
    decreases |a|
  {
    a == [] || (b != [] && (a[0] < b[0] || (a[0] == b[0] && LexLe(a[1..], b[1..]))))
  }

  lemma {:induction false} LexLeTotal(a: string, b: string)
    ensures LexLe(a, b) || LexLe(b, a)
    decreases |a|
  {
    if a != [] && b != [] && a[0] == b[0] {
      LexLeTotal(a[1..], b[1..]);
    }
  }

  lemma {:induction false} LexLeTrans(a: string, b: string, c: string)
    requires LexLe(a, b) && LexLe(b, c)
    ensures LexLe(a, c)
    decreases |a|
  {
    if a != [] && b != [] && c != [] && a[0] == b[0] && b[0] == c[0] {
      LexLeTrans(a[1..], b[1..], c[1..]);
    }
  }

  /** `a.localeCompare(b, …) <= 0` as modelled here. */
  predicate CollateLe(a: string, b: string) {
    LexLe(ToLower(a), ToLower(b))
  }

  /** Name order on nodes. */
  predicate NameLe(x: Node, y: Node) {
    CollateLe(x.name, y.name)
  }

  lemma NameLeTotal(x: Node, y: Node)
    ensures NameLe(x, y) || NameLe(y, x)
  {
    LexLeTotal(ToLower(x.name), ToLower(y.name));
  }

  lemma NameLeTrans(x: Node, y: Node, z: Node)
    requires NameLe(x, y) && NameLe(y, z)
    ensures NameLe(x, z)
  {
    LexLeTrans(ToLower(x.name), ToLower(y.name), ToLower(z.name));
  }

  /** Names that differ only in letter case collate as equal. */
  lemma {:induction false} CaseBlind(a: string)
    ensures CollateLe(a, ToLower(a)) && CollateLe(ToLower(a), a)
  {
    ToLowerIdempotent(a);
    LexLeRefl(ToLower(a));
  }

  lemma {:induction false} LexLeRefl(a: string)
    ensures LexLe(a, a)
    decreases |a|
  {
    if a != [] {
      LexLeRefl(a[1..]);
    }
  }

  // ---------------------------------------------------------------------
  // Stable sort by name
  // ---------------------------------------------------------------------

  predicate SortedByName(s: seq<Node>) {
    forall i, j :: 0 <= i < j < |s| ==> NameLe(s[i], s[j])
  }

  /** Places x after every element that does not collate strictly after it:
      equal names keep their arrival order. */
  function Insert(t: seq<Node>, x: Node): (r: seq<Node>)
    ensures multiset(r) == multiset(t) + multiset{x}
  {
    if t == [] then [x]
    else if NameLe(x, t[0]) && !NameLe(t[0], x) then [x] + t
    else
      assert t == [t[0]] + t[1..];
      [t[0]] + Insert(t[1..], x)
  }

  lemma {:induction false} InsertSorted(t: seq<Node>, x: Node)
    requires SortedByName(t)
    ensures SortedByName(Insert(t, x))
  {
    if t == [] {
    } else if NameLe(x, t[0]) && !NameLe(t[0], x) {
      forall j | 0 < j < |t| ensures NameLe(x, t[j]) {
        NameLeTrans(x, t[0], t[j]);
      }
    } else {
      NameLeTotal(x, t[0]);
      InsertSorted(t[1..], x);
      var r := Insert(t[1..], x);
      forall j | 0 <= j < |r| ensures NameLe(t[0], r[j]) {
        assert r[j] in multiset(t[1..]) + multiset{x};
        if r[j] != x {
          assert r[j] in t[1..];
        }
      }
    }
  }

  /** Inserting an element that collates after everything appends it. */
  lemma {:induction false} InsertLast(t: seq<Node>, x: Node)
    requires forall i :: 0 <= i < |t| ==> NameLe(t[i], x)
    ensures Insert(t, x) == t + [x]
  {
    if t != [] {
      InsertLast(t[1..], x);
    }
  }

  /** `Array.prototype.sort` with the name comparator: a stable insertion
      sort taking the elements in order. */
  function SortByName(s: seq<Node>): (r: seq<Node>)
    ensures multiset(r) == multiset(s)
  {
    if s == [] then []
    else
      assert s == s[..|s| - 1] + [s[|s| - 1]];
      Insert(SortByName(s[..|s| - 1]), s[|s| - 1])
  }

  /** The sort yields a sorted permutation of its input. */
  lemma {:induction false} SortByNameSorted(s: seq<Node>)
    ensures SortedByName(SortByName(s)) && multiset(SortByName(s)) == multiset(s)
  {
    if s != [] {
      SortByNameSorted(s[..|s| - 1]);
      InsertSorted(SortByName(s[..|s| - 1]), s[|s| - 1]);
    }
  }

  /** x and y collate as equal: neither comes strictly before the other. */
  predicate SameName(x: Node, y: Node) {
    NameLe(x, y) && NameLe(y, x)
  }

  /** The elements of s whose name collates equal to k's, in their order in s. */
  function NamedLike(s: seq<Node>, k: Node): (r: seq<Node>)
    ensures forall i :: 0 <= i < |r| ==> SameName(r[i], k)
  {
    if s == [] then []
    else (if SameName(s[0], k) then [s[0]] else []) + NamedLike(s[1..], k)
  }

  lemma {:induction false} NamedLikeAppend(a: seq<Node>, b: seq<Node>, k: Node)
    ensures NamedLike(a + b, k) == NamedLike(a, k) + NamedLike(b, k)
  {
    if a != [] {
      assert (a + b)[0] == a[0];
      assert (a + b)[1..] == a[1..] + b;
      NamedLikeAppend(a[1..], b, k);
    } else {
      assert a + b == b;
    }
  }

  lemma {:induction false} NamedLikeNone(s: seq<Node>, k: Node)
    requires forall j :: 0 <= j < |s| ==> !SameName(s[j], k)
    ensures NamedLike(s, k) == []
  {
    if s != [] {
      NamedLikeNone(s[1..], k);
    }
  }

  lemma NamedLikeCons(h: Node, t: seq<Node>, k: Node)
    ensures NamedLike([h] + t, k) == (if SameName(h, k) then [h] else []) + NamedLike(t, k)
  {
    assert ([h] + t)[1..] == t;
  }

  /** x going in front of a sorted t comes strictly before all of t, so
      no element of t collates equal to it. */
  lemma InsertFrontStable(t: seq<Node>, x: Node, k: Node)
    requires SortedByName(t) && t != [] && NameLe(x, t[0]) && !NameLe(t[0], x)
    ensures NamedLike([x] + t, k) == NamedLike(t, k) + NamedLike([x], k)
  {
    NamedLikeCons(x, t, k);
    NamedLikeCons(x, [], k);
    assert [x] + [] == [x];
    if SameName(x, k) {
      forall j | 0 <= j < |t| ensures !SameName(t[j], k) {
        if SameName(t[j], k) {
          NameLeTrans(t[j], k, x);
          assert NameLe(t[0], t[j]);
          NameLeTrans(t[0], t[j], x);
        }
      }
      NamedLikeNone(t, k);
      assert NamedLike([x] + t, k) == [x] + [];
    } else {
      assert NamedLike([x] + t, k) == [] + NamedLike(t, k);
    }
  }

  /** Inserting x into a sorted sequence puts it after every element that
      collates equal to it. */
  lemma {:induction false} InsertStable(t: seq<Node>, x: Node, k: Node)
    requires SortedByName(t)
    ensures NamedLike(Insert(t, x), k) == NamedLike(t, k) + NamedLike([x], k)
  {
    if t == [] {
      assert Insert(t, x) == [x];
      assert NamedLike(t, k) == [];
    } else if NameLe(x, t[0]) && !NameLe(t[0], x) {
      assert Insert(t, x) == [x] + t;
      InsertFrontStable(t, x, k);
    } else {
      var rest := t[1..];
      var h := if SameName(t[0], k) then [t[0]] else [];
      InsertStable(rest, x, k);
      assert Insert(t, x) == [t[0]] + Insert(rest, x);
      NamedLikeCons(t[0], Insert(rest, x), k);
      assert t == [t[0]] + rest;
      NamedLikeCons(t[0], rest, k);
      Assoc(h, NamedLike(rest, k), NamedLike([x], k));
    }
  }

  /** The sort is stable: the elements whose names collate equal keep their
      input order. */
  lemma {:induction false} SortByNameStable(s: seq<Node>, k: Node)
    ensures NamedLike(SortByName(s), k) == NamedLike(s, k)
  {
    if s != [] {
      var p, x := s[..|s| - 1], s[|s| - 1];
      SortByNameStable(p, k);
      SortByNameSorted(p);
      InsertStable(SortByName(p), x, k);
      NamedLikeAppend(p, [x], k);
      assert p + [x] == s;
    }
  }

  /** A sorted input is returned as it is, so sorting twice is sorting
      once. */
  lemma {:induction false} SortByNameOfSorted(s: seq<Node>)
    requires SortedByName(s)
    ensures SortByName(s) == s
  {
    if s != [] {
      var p := s[..|s| - 1];
      assert SortedByName(p);
      SortByNameOfSorted(p);
      InsertLast(p, s[|s| - 1]);
      assert p + [s[|s| - 1]] == s;
    }
  }

  // ---------------------------------------------------------------------
  // Folders first, then chats
  // ---------------------------------------------------------------------

  /** `children.filter(child => child.type === k)`. */
  function OfKind(cs: seq<Node>, k: Kind): (r: seq<Node>)
    ensures |r| <= |cs|
    ensures forall i :: 0 <= i < |r| ==> r[i].kind == k
  {
    if cs == [] then []
    else (if cs[0].kind == k then [cs[0]] else []) + OfKind(cs[1..], k)
  }

  /** The filter keeps every node of kind k as often as it occurs, and
      nothing else. */
  lemma {:induction false} OfKindCounts(cs: seq<Node>, k: Kind)
    ensures forall x :: multiset(OfKind(cs, k))[x] == if x.kind == k then multiset(cs)[x] else 0
  {
    if cs != [] {
      OfKindCounts(cs[1..], k);
      assert cs == [cs[0]] + cs[1..];
    }
  }

  /** Filtering a sequence that holds only nodes of kind k keeps it whole. */
  lemma {:induction false} OfKindAll(cs: seq<Node>, k: Kind)
    requires forall i :: 0 <= i < |cs| ==> cs[i].kind == k
    ensures OfKind(cs, k) == cs
  {
    if cs != [] {
      OfKindAll(cs[1..], k);
    }
  }

  /** Filtering a sequence that holds no node of kind k leaves nothing. */
  lemma {:induction false} OfKindNone(cs: seq<Node>, k: Kind)
    requires forall i :: 0 <= i < |cs| ==> cs[i].kind != k
    ensures OfKind(cs, k) == []
  {
    if cs != [] {
      OfKindNone(cs[1..], k);
    }
  }

  lemma {:induction false} OfKindAppend(a: seq<Node>, b: seq<Node>, k: Kind)
    ensures OfKind(a + b, k) == OfKind(a, k) + OfKind(b, k)
  {
    if a != [] {
      var h := if a[0].kind == k then [a[0]] else [];
      assert (a + b)[0] == a[0];
      assert (a + b)[1..] == a[1..] + b;
      assert OfKind(a + b, k) == h + OfKind(a[1..] + b, k);
      assert OfKind(a, k) == h + OfKind(a[1..], k);
      OfKindAppend(a[1..], b, k);
      Assoc(h, OfKind(a[1..], k), OfKind(b, k));
    } else {
      assert a + b == b;
    }
  }

  /** A sorted group holds only nodes of its kind. */
  lemma SortedGroupKind(cs: seq<Node>, k: Kind)
    ensures forall i :: 0 <= i < |SortByName(OfKind(cs, k))| ==> SortByName(OfKind(cs, k))[i].kind == k
  {
    var g := SortByName(OfKind(cs, k));
    forall i | 0 <= i < |g| ensures g[i].kind == k {
      assert g[i] in multiset(OfKind(cs, k));
    }
  }

  /** `sortChildren(children)`: an absent or empty list is returned as it is;
      otherwise the folders sorted by name, then the chats sorted by name. */
  function SortChildren(children: Option<seq<Node>>): (r: Option<seq<Node>>)
    ensures r.None? <==> children.None?
  {
    if children.None? || children.value == [] then children
    else Some(SortByName(OfKind(children.value, Folder)) + SortByName(OfKind(children.value, Chat)))
  }

  /** A run of folders sorted by name followed by a run of chats sorted by
      name. */
  predicate Grouped(r: seq<Node>) {
    exists f ::
      && 0 <= f <= |r|
      && (forall i :: 0 <= i < f ==> r[i].kind == Folder)
      && (forall i :: f <= i < |r| ==> r[i].kind == Chat)
      && SortedByName(r[..f]) && SortedByName(r[f..])
  }

  lemma GroupedConcat(folders: seq<Node>, chats: seq<Node>)
    requires forall i :: 0 <= i < |folders| ==> folders[i].kind == Folder
    requires forall i :: 0 <= i < |chats| ==> chats[i].kind == Chat
    requires SortedByName(folders) && SortedByName(chats)
    ensures Grouped(folders + chats)
  {
    var r := folders + chats;
    assert r[..|folders|] == folders && r[|folders|..] == chats;
  }

  /** sortChildren puts every folder before every chat and sorts each group
      by name. */
  lemma SortChildrenOrders(cs: seq<Node>)
    ensures Grouped(SortChildren(Some(cs)).value)
  {
    if cs != [] {
      SortByNameSorted(OfKind(cs, Folder));
      SortByNameSorted(OfKind(cs, Chat));
      SortedGroupKind(cs, Folder);
      SortedGroupKind(cs, Chat);
      GroupedConcat(SortByName(OfKind(cs, Folder)), SortByName(OfKind(cs, Chat)));
    } else {
      GroupedConcat([], []);
    }
  }

  /** sortChildren keeps exactly the folders and chats of its input, each as
      often as it occurs there, and drops nodes of any other type. */
  lemma SortChildrenKeeps(cs: seq<Node>)
    ensures forall x ::
      (multiset(SortChildren(Some(cs)).value)[x] == if x.kind == Folder || x.kind == Chat then multiset(cs)[x] else 0)
  {
    if cs != [] {
      SortByNameSorted(OfKind(cs, Folder));
      SortByNameSorted(OfKind(cs, Chat));
      OfKindCounts(cs, Folder);
      OfKindCounts(cs, Chat);
    }
  }

  /** Children already grouped and sorted are their own sorted order. */
  lemma SortGrouped(folders: seq<Node>, chats: seq<Node>)
    requires forall i :: 0 <= i < |folders| ==> folders[i].kind == Folder
    requires forall i :: 0 <= i < |chats| ==> chats[i].kind == Chat
    requires SortedByName(folders) && SortedByName(chats)
    ensures SortChildren(Some(folders + chats)) == Some(folders + chats)
  {
    OfKindAppend(folders, chats, Folder);
    OfKindAppend(folders, chats, Chat);
    OfKindAll(folders, Folder);
    OfKindAll(chats, Chat);
    OfKindNone(chats, Folder);
    OfKindNone(folders, Chat);
    assert folders + [] == folders && [] + chats == chats;
    SortByNameOfSorted(folders);
    SortByNameOfSorted(chats);
  }

  /** Sorting sorted children changes nothing. */
  lemma SortChildrenIdempotent(cs: seq<Node>)
    ensures SortChildren(SortChildren(Some(cs))) == SortChildren(Some(cs))
  {
    if cs != [] {
      SortByNameSorted(OfKind(cs, Folder));
      SortByNameSorted(OfKind(cs, Chat));
      SortedGroupKind(cs, Folder);
      SortedGroupKind(cs, Chat);
      SortGrouped(SortByName(OfKind(cs, Folder)), SortByName(OfKind(cs, Chat)));
    }
  }
}
