/** The walk shared by the chat search indexes of the popup and of the
    SearchEngine service: every chat of the tree, depth first and in child
    order, together with the names on the way from the start node down to
    the chat; and the order-keeping filter the queries run over it. */
module ChatIndex {
  import opened Tree
  import opened Seqs

  /** A chat met by the walk, with the names from the start node down to
      and including the chat. */
  datatype Located = Located(node: Node, path: seq<string>)

  /** The chats of a node sequence, in order. */
  function ChatsIn(s: seq<Node>): (r: seq<Node>)
    ensures |r| <= |s|
    ensures forall i :: 0 <= i < |r| ==> r[i].kind == Chat
  {
    if s == [] then []
    else (if s[0].kind == Chat then [s[0]] else []) + ChatsIn(s[1..])
  }

  lemma {:induction false} ChatsInAppend(a: seq<Node>, b: seq<Node>)
    ensures ChatsIn(a + b) == ChatsIn(a) + ChatsIn(b)
  {
    if a == [] {
      assert a + b == b;
    } else {
      assert (a + b)[0] == a[0] && (a + b)[1..] == a[1..] + b;
      ChatsInAppend(a[1..], b);
    }
  }

  /** Every chat of s, and nothing else, is in ChatsIn(s). */
  lemma {:induction false} ChatsInMembers(s: seq<Node>)
    ensures forall x :: x in ChatsIn(s) <==> x in s && x.kind == Chat
  {
    if s != [] {
      ChatsInMembers(s[1..]);
      assert s == [s[0]] + s[1..];
    }
  }

  /** The index walk from node n, reached along path (the names of the nodes
      above it): a chat yields one entry whose path ends with its own name,
      and the walk continues into any node's children. */
  function Locate(n: Node, path: seq<string>): seq<Located>
    decreases n, 1
  {
    (if n.kind == Chat then [Located(n, path + [n.name])] else [])
    + (if n.hasChildren then LocateIn(n.children, path + [n.name]) else [])
  }

  function LocateIn(cs: seq<Node>, path: seq<string>): seq<Located>
    decreases cs, 0
  {
    if cs == [] then [] else Locate(cs[0], path) + LocateIn(cs[1..], path)
  }

  lemma {:induction false} LocateInAppend(a: seq<Node>, b: seq<Node>, path: seq<string>)
    ensures LocateIn(a + b, path) == LocateIn(a, path) + LocateIn(b, path)
  {
    if a == [] {
      assert a + b == b;
    } else {
      assert (a + b)[0] == a[0] && (a + b)[1..] == a[1..] + b;
      LocateInAppend(a[1..], b, path);
    }
  }

  /** The walk over the first i + 1 children is the walk over the first i
      followed by the walk of child i. */
  lemma LocateInSnoc(cs: seq<Node>, i: int, path: seq<string>)
    requires 0 <= i < |cs|
    ensures LocateIn(cs[..i + 1], path) == LocateIn(cs[..i], path) + Locate(cs[i], path)
  {
    assert cs[..i + 1] == cs[..i] + [cs[i]];
    LocateInAppend(cs[..i], [cs[i]], path);
    assert [cs[i]][1..] == [];
  }

  /** The nodes of a walk, in order. */
  function NodesOf(ls: seq<Located>): (r: seq<Node>)
    ensures |r| == |ls|
    ensures forall i :: 0 <= i < |ls| ==> r[i] == ls[i].node
  {
    if ls == [] then [] else [ls[0].node] + NodesOf(ls[1..])
  }

  lemma {:induction false} NodesOfAppend(a: seq<Located>, b: seq<Located>)
    ensures NodesOf(a + b) == NodesOf(a) + NodesOf(b)
  {
    assert |NodesOf(a + b)| == |NodesOf(a) + NodesOf(b)|;
    forall i | 0 <= i < |a + b|
      ensures NodesOf(a + b)[i] == (NodesOf(a) + NodesOf(b))[i]
    {
      if i >= |a| {
        assert (a + b)[i] == b[i - |a|];
      }
    }
  }

  /** The walk meets exactly the chats of the tree, once each, in
      depth-first pre-order. */
  lemma {:induction false} LocateFindsChats(n: Node, path: seq<string>)
    ensures NodesOf(Locate(n, path)) == ChatsIn(Preorder(n))
    decreases n, 1
  {
    var own: seq<Located> := if n.kind == Chat then [Located(n, path + [n.name])] else [];
    var below := if n.hasChildren then n.children else [];
    assert Preorder(n) == [n] + PreorderIn(below);
    ChatsInAppend([n], PreorderIn(below));
    assert ChatsIn([n]) == NodesOf(own) by {
      assert [n][1..] == [];
    }
    if n.hasChildren {
      LocateInFindsChats(n.children, path + [n.name]);
      NodesOfAppend(own, LocateIn(n.children, path + [n.name]));
    } else {
      assert Locate(n, path) == own + [];
      assert PreorderIn(below) == [];
    }
  }

  lemma {:induction false} LocateInFindsChats(cs: seq<Node>, path: seq<string>)
    ensures NodesOf(LocateIn(cs, path)) == ChatsIn(PreorderIn(cs))
    decreases cs, 0
  {
    if cs != [] {
      LocateFindsChats(cs[0], path);
      LocateInFindsChats(cs[1..], path);
      NodesOfAppend(Locate(cs[0], path), LocateIn(cs[1..], path));
      ChatsInAppend(Preorder(cs[0]), PreorderIn(cs[1..]));
    }
  }

  /** Shape of every path the walk records: it extends the path it started
      from with the names met going down from the start node to the chat,
      both included. */
  predicate PathFrom(l: Located, path: seq<string>, top: Node) {
    && |l.path| > |path|
    && l.path[..|path|] == path
    && Chain(top, l.path[|path|..], l.node)
  }

  lemma {:induction false} LocatePaths(n: Node, path: seq<string>)
    ensures forall l :: l in Locate(n, path) ==> PathFrom(l, path, n)
    decreases n, 1
  {
    var p := path + [n.name];
    if n.kind == Chat {
      assert p[|path|..] == [n.name];
    }
    if n.hasChildren {
      LocateInPaths(n.children, p);
      forall l | l in LocateIn(n.children, p)
        ensures PathFrom(l, path, n)
      {
        var i :| 0 <= i < |n.children| && Chain(n.children[i], l.path[|p|..], l.node);
        assert l.path[..|p|] == p;
        assert l.path[..|path|] == p[..|path|];
        var names := l.path[|path|..];
        assert names[0] == n.name && names[1..] == l.path[|p|..];
      }
    }
  }

  lemma {:induction false} LocateInPaths(cs: seq<Node>, path: seq<string>)
    ensures forall l :: l in LocateIn(cs, path) ==>
      && |l.path| > |path| && l.path[..|path|] == path
      && exists i :: 0 <= i < |cs| && Chain(cs[i], l.path[|path|..], l.node)
    decreases cs, 0
  {
    if cs != [] {
      LocatePaths(cs[0], path);
      LocateInPaths(cs[1..], path);
      forall l | l in LocateIn(cs[1..], path)
        ensures exists i :: 0 <= i < |cs| && Chain(cs[i], l.path[|path|..], l.node)
      {
        var i :| 0 <= i < |cs[1..]| && Chain(cs[1..][i], l.path[|path|..], l.node);
        assert cs[1..][i] == cs[i + 1];
      }
    }
  }

  // ---------------------------------------------------------------------
  // The filter the queries run over an index
  // ---------------------------------------------------------------------

  /** `list.filter(keep)`. */
  function Keep<T>(s: seq<T>, keep: T -> bool): seq<T> {
    if s == [] then []
    else (if keep(s[0]) then [s[0]] else []) + Keep(s[1..], keep)
  }

  /** a is b with some entries deleted: same order, no entry invented. */
  predicate Subsequence<T(==)>(a: seq<T>, b: seq<T>)
    decreases |b|
  {
    a == [] || (b != [] && ((a[0] == b[0] && Subsequence(a[1..], b[1..])) || Subsequence(a, b[1..])))
  }

  /** The filter keeps exactly the entries that pass, in their order. */
  lemma {:induction false} KeepMembers<T>(s: seq<T>, keep: T -> bool)
    ensures forall x :: x in Keep(s, keep) <==> x in s && keep(x)
  {
    if s != [] {
      KeepMembers(s[1..], keep);
      assert s == [s[0]] + s[1..];
    }
  }

  lemma {:induction false} KeepIsSubsequence<T>(s: seq<T>, keep: T -> bool)
    ensures Subsequence(Keep(s, keep), s)
  {
    if s != [] {
      KeepIsSubsequence(s[1..], keep);
      var r := Keep(s, keep);
      if keep(s[0]) {
        assert r[0] == s[0] && r[1..] == Keep(s[1..], keep);
      } else {
        assert r == Keep(s[1..], keep);
      }
    }
  }

  lemma KeepSnoc<T>(s: seq<T>, i: int, keep: T -> bool)
    requires 0 <= i < |s|
    ensures Keep(s[..i + 1], keep) == Keep(s[..i], keep) + (if keep(s[i]) then [s[i]] else [])
  {
    assert s[..i + 1] == s[..i] + [s[i]];
    KeepAppend(s[..i], [s[i]], keep);
    assert [s[i]][1..] == [];
  }

  lemma {:induction false} KeepAppend<T>(a: seq<T>, b: seq<T>, keep: T -> bool)
    ensures Keep(a + b, keep) == Keep(a, keep) + Keep(b, keep)
  {
    if a == [] {
      assert a + b == b;
    } else {
      var h := if keep(a[0]) then [a[0]] else [];
      assert (a + b)[0] == a[0] && (a + b)[1..] == a[1..] + b;
      KeepAppend(a[1..], b, keep);
      Assoc(h, Keep(a[1..], keep), Keep(b, keep));
    }
  }
}
