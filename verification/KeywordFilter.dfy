/**
 The sensitive-word filter: a trie of heap nodes that is mutated in place.

 The trie is tied to a plain set of words. Adding, removing and clearing act on that
 set; matching and replacing are specified by the set alone.
 */
module KeywordFilter {

  class Node {
    var children: map<char, Node>
    var isEnd: bool
    ghost const path: string

    constructor (ghost path: string)
      ensures children == map[] && !isEnd && this.path == path
    {
      this.path := path;
      children := map[];
      isEnd := false;
    }
  }

  // ------------------------------------------------------------ paths and prefixes

  function Snoc(p: string, c: char): (r: string)
    ensures |r| == |p| + 1 && r[..|p|] == p && r[|p|] == c
  {
    p + [c]
  }

  /** Cutting one character later follows one more edge. */
  lemma NextPrefix(s: string, i: nat)
    requires i < |s|
    ensures s[..i + 1] == Snoc(s[..i], s[i])
  {
  }

  lemma EdgeInText(text: string, i: nat, j: nat)
    requires i <= j < |text|
    ensures text[i..j + 1] == Snoc(text[i..j], text[j])
  {
  }

  lemma SliceOfSlice(text: string, i: nat, j: nat, k: nat)
    requires i <= j <= k <= |text|
    ensures text[i..k][..j - i] == text[i..j]
  {
  }

  ghost predicate Closed(paths: set<string>)
  {
    "" in paths && forall p, c :: Snoc(p, c) in paths ==> p in paths
  }

  lemma {:induction false} PrefixClosed(paths: set<string>, p: string, k: nat)
    requires Closed(paths) && p in paths && k <= |p|
    ensures p[..k] in paths
    decreases |p|
  {
    if k < |p| {
      var init := p[..|p| - 1];
      assert p == Snoc(init, p[|p| - 1]);
      PrefixClosed(paths, init, k);
      assert init[..k] == p[..k];
    } else {
      assert p[..k] == p;
    }
  }

  /** Always true; names the path at which a node invariant is to be used. */
  ghost predicate At(p: string) { true }

  ghost predicate LeadsToWord(p: string, words: set<string>)
  {
    exists w :: w in words && p <= w
  }

  /** Every path below the root leads to a word. */
  ghost predicate Pruned(paths: set<string>, words: set<string>)
  {
    forall p {:trigger At(p)} :: At(p) && p in paths && p != "" ==> LeadsToWord(p, words)
  }

  /** Every path below the root leads to a word, except perhaps prefixes of one keyword. */
  ghost predicate PrunedBeside(paths: set<string>, words: set<string>, keyword: string)
  {
    forall p {:trigger At(p)} :: At(p) && p in paths && p != "" && !(p <= keyword) ==> LeadsToWord(p, words)
  }

  lemma PrefixTransitive(a: string, b: string, c: string)
    requires a <= b && b <= c
    ensures a <= c
  {
  }

  /** A new word leads every prefix it adds. */
  lemma InsertionKeepsPruned(before: set<string>, after: set<string>, words: set<string>, keyword: string)
    requires Pruned(before, words)
    requires forall p :: p in after && p !in before ==> p <= keyword
    ensures Pruned(after, words + {keyword})
  {
    forall p | At(p) && p in after && p != ""
      ensures LeadsToWord(p, words + {keyword})
    {
      if p in before {
        assert LeadsToWord(p, words);
        var w :| w in words && p <= w;
        assert w in words + {keyword};
      } else {
        assert keyword in words + {keyword};
      }
    }
  }

  /** Removing a word leaves only its own prefixes in doubt. */
  lemma RemovalLeavesPathInDoubt(paths: set<string>, words: set<string>, keyword: string)
    requires Pruned(paths, words)
    ensures PrunedBeside(paths, words - {keyword}, keyword)
  {
    forall p | At(p) && p in paths && p != "" && !(p <= keyword)
      ensures LeadsToWord(p, words - {keyword})
    {
      assert LeadsToWord(p, words);
      var w :| w in words && p <= w;
      assert w in words - {keyword};
    }
  }

  /** Once the deepest remaining prefix of the keyword leads to a word or branches off, everything is pruned. */
  lemma PathEndsAt(paths: set<string>, words: set<string>, keyword: string, i: nat, branch: string)
    requires Closed(paths) && PrunedBeside(paths, words, keyword)
    requires i <= |keyword| && (i < |keyword| ==> keyword[..i + 1] !in paths)
    requires i == 0 || (keyword[..i] <= branch && (branch in words || (branch in paths && !(branch <= keyword))))
    ensures Pruned(paths, words)
  {
    forall p | At(p) && p in paths && p != "" && p <= keyword
      ensures LeadsToWord(p, words)
    {
      NoDeeperPath(paths, keyword, i, p);
      PrefixTransitive(p, keyword[..i], branch);
      if branch !in words {
        assert At(branch) && branch != "";
        var w :| w in words && branch <= w;
        PrefixTransitive(p, branch, w);
      }
    }
  }

  lemma BranchOff(keyword: string, i: nat, c: char)
    requires i <= |keyword|
    ensures Snoc(keyword[..i], c) <= keyword ==> i < |keyword| && Snoc(keyword[..i], c) == keyword[..i + 1]
  {
  }

  lemma NoDeeperPath(paths: set<string>, keyword: string, i: nat, p: string)
    requires Closed(paths) && i <= |keyword| && (i < |keyword| ==> keyword[..i + 1] !in paths)
    requires p in paths && p <= keyword
    ensures p <= keyword[..i]
  {
    if i < |p| {
      PrefixClosed(paths, p, i + 1);
      PrefixOfPrefix(keyword, p, i + 1);
    }
  }

  lemma PrefixOfPrefix(s: string, p: string, k: nat)
    requires p <= s && k <= |p|
    ensures p[..k] == s[..k]
  {
  }

  /** The keywords worth adding: an empty one is ignored. */
  function NonEmpty(keywords: seq<string>): set<string> { set k | k in keywords && k != "" }

  lemma NonEmptyNext(words: set<string>, keywords: seq<string>, i: nat)
    requires i < |keywords|
    ensures keywords[i] == "" ==> words + NonEmpty(keywords[..i + 1]) == words + NonEmpty(keywords[..i])
    ensures keywords[i] != "" ==> words + NonEmpty(keywords[..i + 1]) == words + NonEmpty(keywords[..i]) + {keywords[i]}
  {
    assert keywords[..i + 1] == keywords[..i] + [keywords[i]];
  }

  // --------------------------------------------- what matching means, by the set alone

  /** kw is the longest word that starts at position i, or "" when none does. */
  ghost predicate LongestAt(words: set<string>, text: string, i: nat, kw: string)
    requires i <= |text|
  {
    && i + |kw| <= |text| && kw == text[i..i + |kw|]
    && (kw != "" ==> kw in words)
    && forall j :: i + |kw| < j <= |text| ==> text[i..j] !in words
  }

  lemma {:induction false} LongestExists(words: set<string>, text: string, i: nat, n: nat) returns (kw: string)
    requires i + n <= |text| && forall j :: i + n < j <= |text| ==> text[i..j] !in words
    ensures LongestAt(words, text, i, kw)
  {
    if n == 0 {
      kw := "";
    } else if text[i..i + n] in words {
      kw := text[i..i + n];
    } else {
      kw := LongestExists(words, text, i, n - 1);
    }
  }

  lemma LongestIsUnique(words: set<string>, text: string, i: nat, a: string, b: string)
    requires i <= |text| && LongestAt(words, text, i, a) && LongestAt(words, text, i, b)
    ensures a == b
  {
  }

  /** The longest word that starts at position i, or "". */
  ghost function KeywordAt(words: set<string>, text: string, i: nat): (kw: string)
    requires i <= |text|
    ensures LongestAt(words, text, i, kw)
  {
    assert exists kw :: LongestAt(words, text, i, kw) by { var kw := LongestExists(words, text, i, |text| - i); }
    var kw :| LongestAt(words, text, i, kw);
    kw
  }

  /** A word occurs in the text exactly when some position starts one. */
  lemma OccursIffSomePosition(words: set<string>, text: string)
    requires "" !in words
    ensures (exists i, j :: 0 <= i <= j <= |text| && text[i..j] in words) <==>
            (exists i :: 0 <= i < |text| && KeywordAt(words, text, i) != "")
  {
    if i, j :| 0 <= i <= j <= |text| && text[i..j] in words {
      assert text[i..i] == "";
      assert KeywordAt(words, text, i) != "";
    }
    if i :| 0 <= i < |text| && KeywordAt(words, text, i) != "" {
      assert text[i..i + |KeywordAt(words, text, i)|] in words;
    }
  }

  /** A text cut into kept characters and keyword hits. */
  datatype Piece = Keep(c: char) | Hit(keyword: string)

  function Source(p: Piece): string { match p case Keep(c) => [c] case Hit(k) => k }

  function Sources(pieces: seq<Piece>): string
  {
    if pieces == [] then "" else Source(pieces[0]) + Sources(pieces[1..])
  }

  function Render(pieces: seq<Piece>, replacement: string): string
  {
    if pieces == [] then ""
    else (if pieces[0].Hit? then replacement else [pieces[0].c]) + Render(pieces[1..], replacement)
  }

  /**
   The cut is leftmost-longest: it covers the text, every hit is the longest word at
   its position, and a character is kept only where no word starts.
   */
  ghost predicate LeftmostLongest(words: set<string>, text: string, pieces: seq<Piece>)
  {
    && Sources(pieces) == text
    && forall k :: 0 <= k < |pieces| ==> PieceFits(words, Sources(pieces[k..]), pieces[k])
  }

  /** A text may start with this piece. */
  ghost predicate PieceFits(words: set<string>, text: string, p: Piece)
  {
    if p.Hit? then p.keyword != "" && p.keyword == KeywordAt(words, text, 0) else KeywordAt(words, text, 0) == ""
  }

  /** A text has at most one such cut, so the property determines the rewrite. */
  lemma {:induction false} LeftmostLongestIsUnique(words: set<string>, text: string, a: seq<Piece>, b: seq<Piece>)
    requires LeftmostLongest(words, text, a) && LeftmostLongest(words, text, b)
    ensures a == b
    decreases |a|
  {
    assert a[0..] == a && b[0..] == b;
    if a != [] && b != [] {
      assert text == Source(a[0]) + Sources(a[1..]) == Source(b[0]) + Sources(b[1..]);
      assert a[0].Keep? ==> a[0].c == text[0];
      assert b[0].Keep? ==> b[0].c == text[0];
      var rest := text[|Source(a[0])|..];
      RestIsLeftmostLongest(words, text, a);
      RestIsLeftmostLongest(words, text, b);
      LeftmostLongestIsUnique(words, rest, a[1..], b[1..]);
      assert a == [a[0]] + a[1..] && b == [b[0]] + b[1..];
    }
  }

  lemma RestIsLeftmostLongest(words: set<string>, text: string, a: seq<Piece>)
    requires a != [] && LeftmostLongest(words, text, a)
    ensures LeftmostLongest(words, text[|Source(a[0])|..], a[1..])
  {
    var t := a[1..];
    assert text == Source(a[0]) + Sources(t);
    forall k | 0 <= k < |t|
      ensures t[k..] == a[k + 1..]
    {
    }
  }

  /** The cut that a scan from the left produces. */
  ghost function Cut(words: set<string>, text: string): (pieces: seq<Piece>)
    decreases |text|
  {
    if text == "" then []
    else
      var kw := KeywordAt(words, text, 0);
      if kw != "" then [Hit(kw)] + Cut(words, text[|kw|..])
      else [Keep(text[0])] + Cut(words, text[1..])
  }

  /** The scan gives the leftmost-longest cut. */
  lemma {:induction false} CutIsLeftmostLongest(words: set<string>, text: string)
    ensures LeftmostLongest(words, text, Cut(words, text))
    decreases |text|
  {
    if text != "" {
      var kw := KeywordAt(words, text, 0);
      var first := if kw != "" then Hit(kw) else Keep(text[0]);
      var rest := text[|Source(first)|..];
      CutIsLeftmostLongest(words, rest);
      FirstPieceExtends(words, text, first, Cut(words, rest));
    }
  }

  /** Where no word occurs, nothing changes. */
  lemma {:induction false} CleanTextUnchanged(words: set<string>, text: string, replacement: string)
    requires forall i, j :: 0 <= i <= j <= |text| ==> text[i..j] !in words
    ensures Render(Cut(words, text), replacement) == text
    decreases |text|
  {
    if text != "" {
      var rest := text[1..];
      forall i, j | 0 <= i <= j <= |rest| ensures rest[i..j] !in words {
        assert rest[i..j] == text[i + 1..j + 1];
      }
      CleanTextUnchanged(words, rest, replacement);
      var cut := Cut(words, text);
      assert cut[1..] == Cut(words, rest);
    }
  }

  /** The word found at i depends only on the text from i on. */
  lemma KeywordAtSuffix(words: set<string>, text: string, i: nat)
    requires i <= |text|
    ensures KeywordAt(words, text[i..], 0) == KeywordAt(words, text, i)
  {
    var kw := KeywordAt(words, text[i..], 0);
    assert text[i..][0..|kw|] == text[i..i + |kw|];
    forall j | i + |kw| < j <= |text| ensures text[i..j] !in words {
      assert text[i..][0..j - i] == text[i..j];
    }
    LongestIsUnique(words, text, i, KeywordAt(words, text, i), kw);
  }

  lemma {:induction false} RenderAppend(pieces: seq<Piece>, p: Piece, replacement: string)
    ensures Render(pieces + [p], replacement) == Render(pieces, replacement) + Render([p], replacement)
  {
    if pieces != [] {
      RenderAppend(pieces[1..], p, replacement);
      assert (pieces + [p])[1..] == pieces[1..] + [p];
    } else {
      assert pieces + [p] == [p];
    }
  }

  /** One step of the scan: the piece that starts at i joins the pieces before it. */
  lemma CutStep(words: set<string>, text: string, i: nat, pieces: seq<Piece>, replacement: string) returns (p: Piece)
    requires i < |text| && Cut(words, text) == pieces + Cut(words, text[i..])
    ensures var kw := KeywordAt(words, text, i);
            && p == (if kw != "" then Hit(kw) else Keep(text[i]))
            && Cut(words, text) == (pieces + [p]) + Cut(words, text[i + |Source(p)|..])
            && Render(pieces + [p], replacement) ==
                Render(pieces, replacement) + (if kw != "" then replacement else [text[i]])
  {
    var kw := KeywordAt(words, text, i);
    p := if kw != "" then Hit(kw) else Keep(text[i]);
    KeywordAtSuffix(words, text, i);
    var rest := text[i + |Source(p)|..];
    assert text[i..][|Source(p)|..] == rest;
    assert pieces + ([p] + Cut(words, rest)) == (pieces + [p]) + Cut(words, rest);
    RenderAppend(pieces, p, replacement);
    assert Render([p], replacement) == (if kw != "" then replacement else [text[i]]) + "";
  }

  lemma FirstPieceExtends(words: set<string>, text: string, first: Piece, rest: seq<Piece>)
    requires text != ""
    requires first == var kw := KeywordAt(words, text, 0); if kw != "" then Hit(kw) else Keep(text[0])
    requires LeftmostLongest(words, text[|Source(first)|..], rest)
    ensures LeftmostLongest(words, text, [first] + rest)
  {
    var a := [first] + rest;
    assert a[1..] == rest && a[0..] == a;
    assert Sources(a) == text;
    forall k | 0 <= k < |a|
      ensures PieceFits(words, Sources(a[k..]), a[k])
    {
      if k > 0 { assert a[k..] == rest[k - 1..]; }
    }
  }

  // ---------------------------------------------------------------- listing keywords

  /** Position p is the first where this keyword is the longest. */
  ghost predicate FirstAt(words: set<string>, text: string, p: int, kw: string)
  {
    && 0 <= p < |text| && kw != "" && KeywordAt(words, text, p) == kw
    && forall j :: 0 <= j < p ==> KeywordAt(words, text, j) != kw
  }

  /** These are the longest keywords found before position n, each once, in order of first appearance. */
  ghost predicate Listed(words: set<string>, text: string, n: nat, matched: seq<string>, firsts: seq<nat>)
  {
    && n <= |text| && |firsts| == |matched|
    && (forall a :: 0 <= a < |matched| ==> firsts[a] < n && FirstAt(words, text, firsts[a], matched[a]))
    && (forall a, b :: 0 <= a < b < |matched| ==> firsts[a] < firsts[b])
    && (forall j :: 0 <= j < n ==> KeywordAt(words, text, j) == "" || KeywordAt(words, text, j) in matched)
  }

  lemma ListedNext(words: set<string>, text: string, i: nat, matched: seq<string>, firsts: seq<nat>)
    requires Listed(words, text, i, matched, firsts) && i < |text|
    ensures var kw := KeywordAt(words, text, i);
            if kw != "" && kw !in matched then Listed(words, text, i + 1, matched + [kw], firsts + [i])
            else Listed(words, text, i + 1, matched, firsts)
  {
    var kw := KeywordAt(words, text, i);
    if kw != "" && kw !in matched {
      assert FirstAt(words, text, i, kw);
      var more := matched + [kw];
      assert forall j :: 0 <= j < i && KeywordAt(words, text, j) in matched ==> KeywordAt(words, text, j) in more;
      assert more[|matched|] == kw;
    }
  }

  /** No keyword is listed twice. */
  lemma ListedOnce(words: set<string>, text: string, n: nat, matched: seq<string>, firsts: seq<nat>, a: nat, b: nat)
    requires Listed(words, text, n, matched, firsts) && a < b < |matched|
    ensures matched[a] != matched[b]
  {
    assert FirstAt(words, text, firsts[b], matched[b]) && FirstAt(words, text, firsts[a], matched[a]);
  }

  // --------------------------------------------------------------------- the filter

  class Filter {
    var root: Node
    var size: nat

    /** Every node of the trie under the string that leads to it, and the words accepted. */
    ghost var nodes: map<string, Node>
    ghost var words: set<string>

    /** The node at p has exactly the edges that lead to longer paths. */
    ghost predicate LinkedAt(p: string)
      requires p in nodes
      reads `nodes, nodes.Values`children
    {
      && nodes[p].path == p
      && forall c :: (c in nodes[p].children <==> Snoc(p, c) in nodes) &&
                     (c in nodes[p].children ==> nodes[p].children[c] == nodes[Snoc(p, c)])
    }

    /** The nodes form a tree whose edges are exactly the children maps. */
    ghost predicate Linked()
      reads `root, `nodes, nodes.Values`children
    {
      && Closed(nodes.Keys) && nodes[""] == root
      && forall p {:trigger At(p)} :: At(p) && p in nodes ==> LinkedAt(p)
    }

    /** The end marks are exactly the words. */
    ghost predicate Marked()
      reads `nodes, `words, nodes.Values`isEnd
    {
      && words <= nodes.Keys
      && forall p {:trigger At(p)} :: At(p) && p in nodes ==> (nodes[p].isEnd <==> p in words)
    }

    ghost predicate Valid()
      reads this, nodes.Values
    {
      Linked() && Marked() && Pruned(nodes.Keys, words) && "" !in words && size == |words|
    }

    constructor (keywords: seq<string>)
      ensures Valid() && words == NonEmpty(keywords) && fresh(nodes.Values)
    {
      root := new Node("");
      size := 0;
      words := {};
      new;
      nodes := map["" := root];
      AddMany(keywords);
      assert {} + NonEmpty(keywords) == NonEmpty(keywords);
    }

    /** The child under c, created when missing. */
    method EnsureChild(ghost p: string, cur: Node, c: char) returns (child: Node)
      requires Linked() && Marked() && p in nodes && nodes[p] == cur
      modifies `nodes, cur`children
      ensures Linked() && Marked() && Snoc(p, c) in nodes && nodes[Snoc(p, c)] == child
      ensures nodes.Keys == old(nodes.Keys) + {Snoc(p, c)}
      ensures forall q :: q in old(nodes) ==> nodes[q] == old(nodes[q])
      ensures Snoc(p, c) !in old(nodes) ==> fresh(child)
    {
      assert At(p) && At(Snoc(p, c));
      if c in cur.children {
        child := cur.children[c];
      } else {
        child := new Node(Snoc(p, c));
        cur.children := cur.children[c := child];
        nodes := nodes[Snoc(p, c) := child];
      }
    }

    /** The node at the end of the keyword's path, with the missing part of the path created. */
    method EnsurePath(keyword: string) returns (cur: Node)
      requires Linked() && Marked()
      modifies `nodes, nodes.Values`children
      ensures Linked() && Marked() && keyword in nodes && nodes[keyword] == cur
      ensures forall q :: q in old(nodes) ==> q in nodes && nodes[q] == old(nodes[q])
      ensures forall q :: q in nodes && q !in old(nodes) ==> q <= keyword && fresh(nodes[q])
    {
      cur := root;
      assert keyword[..0] == "";
      for i := 0 to |keyword|
        invariant Linked() && Marked() && keyword[..i] in nodes && nodes[keyword[..i]] == cur
        invariant forall q :: q in old(nodes) ==> q in nodes && nodes[q] == old(nodes[q])
        invariant forall q :: q in nodes && q !in old(nodes) ==> q <= keyword && fresh(nodes[q])
      {
        NextPrefix(keyword, i);
        cur := EnsureChild(keyword[..i], cur, keyword[i]);
      }
      assert keyword[..|keyword|] == keyword;
    }

    method Insert(keyword: string) returns (added: bool)
      requires Linked() && Marked() && Pruned(nodes.Keys, words)
      modifies `nodes, `words, nodes.Values
      ensures Linked() && Marked() && Pruned(nodes.Keys, words)
      ensures words == old(words) + {keyword}
      ensures added <==> keyword !in old(words)
      ensures fresh(nodes.Values - old(nodes.Values))
    {
      var cur := EnsurePath(keyword);
      assert At(keyword);
      added := !cur.isEnd;
      if added {
        cur.isEnd := true;
        words := words + {keyword};
      }
      InsertionKeepsPruned(old(nodes.Keys), nodes.Keys, old(words), keyword);
    }

    method InsertCounted(keyword: string)
      requires Valid() && keyword != ""
      modifies this, nodes.Values
      ensures Valid() && fresh(nodes.Values - old(nodes.Values))
      ensures words == old(words) + {keyword}
    {
      var added := Insert(keyword);
      assert keyword in old(words) ==> words == old(words);
      if added {
        size := size + 1;
      }
    }

    method Add(keyword: string)
      requires Valid()
      modifies this, nodes.Values
      ensures Valid() && fresh(nodes.Values - old(nodes.Values))
      ensures words == old(words) + NonEmpty([keyword])
    {
      if keyword == "" {
        return;
      }
      InsertCounted(keyword);
    }

    method AddMany(keywords: seq<string>)
      requires Valid()
      modifies this, nodes.Values
      ensures Valid() && fresh(nodes.Values - old(nodes.Values))
      ensures words == old(words) + NonEmpty(keywords)
    {
      for i := 0 to |keywords|
        invariant Valid() && fresh(nodes.Values - old(nodes.Values))
        invariant words == old(words) + NonEmpty(keywords[..i])
      {
        NonEmptyNext(old(words), keywords, i);
        if keywords[i] == "" {
          continue;
        }
        InsertCounted(keywords[i]);
      }
      assert keywords[..|keywords|] == keywords;
    }

    method Clear()
      requires Valid()
      modifies this
      ensures Valid() && fresh(nodes.Values)
      ensures words == {}
    {
      root := new Node("");
      size := 0;
      nodes := map["" := root];
      words := {};
    }

    /** Unlink a childless unmarked node from its parent. */
    method DropLeaf(ghost p: string, parent: Node, c: char)
      requires Linked() && Marked() && p in nodes && nodes[p] == parent && Snoc(p, c) in nodes
      requires nodes[Snoc(p, c)].children == map[] && !nodes[Snoc(p, c)].isEnd
      modifies `nodes, parent`children
      ensures Linked() && Marked() && nodes == old(nodes) - {Snoc(p, c)}
    {
      assert At(p) && At(Snoc(p, c));
      parent.children := parent.children - {c};
      nodes := nodes - {Snoc(p, c)};
    }

    /** path lists the nodes along the first n characters of the keyword. */
    ghost predicate OnPath(keyword: string, path: seq<Node>, n: nat)
      reads `nodes
    {
      && n <= |keyword| && n < |path|
      && forall k :: 0 <= k <= n ==> keyword[..k] in nodes && nodes[keyword[..k]] == path[k]
    }

    /** Walk back up the path and drop nodes that lead to no word. */
    method Prune(keyword: string, path: seq<Node>)
      requires Linked() && Marked() && PrunedBeside(nodes.Keys, words, keyword)
      requires |path| == |keyword| + 1 && OnPath(keyword, path, |keyword|)
      modifies `nodes, nodes.Values`children
      ensures Linked() && Marked() && Pruned(nodes.Keys, words)
      ensures nodes.Values <= old(nodes.Values)
    {
      var i := |path| - 1;
      while i >= 1
        invariant Linked() && Marked() && PrunedBeside(nodes.Keys, words, keyword)
        invariant 0 <= i <= |keyword| && OnPath(keyword, path, i)
        invariant i < |keyword| ==> keyword[..i + 1] !in nodes
        invariant nodes.Values <= old(nodes.Values)
      {
        var n := path[i];
        assert At(keyword[..i]) && At(keyword[..i - 1]);
        if n.children == map[] && !n.isEnd {
          NextPrefix(keyword, i - 1);
          DropLeaf(keyword[..i - 1], path[i - 1], keyword[i - 1]);
        } else {
          break;
        }
        i := i - 1;
      }
      WalkEnds(keyword, i);
    }

    /** Where the walk stops, a word ends or another path branches off. */
    lemma WalkEnds(keyword: string, i: nat)
      requires Linked() && Marked() && PrunedBeside(nodes.Keys, words, keyword)
      requires i <= |keyword| && keyword[..i] in nodes && (i < |keyword| ==> keyword[..i + 1] !in nodes)
      requires i == 0 || nodes[keyword[..i]].isEnd || nodes[keyword[..i]].children != map[]
      ensures Pruned(nodes.Keys, words)
    {
      var branch := keyword[..i];
      assert At(keyword[..i]);
      if i > 0 && !nodes[keyword[..i]].isEnd {
        var c :| c in nodes[keyword[..i]].children;
        branch := Snoc(keyword[..i], c);
        BranchOff(keyword, i, c);
      }
      PathEndsAt(nodes.Keys, words, keyword, i, branch);
    }

    /** The nodes along the keyword's path, stopping early where an edge is missing. */
    method FindPath(keyword: string) returns (path: seq<Node>)
      requires Linked()
      ensures 1 <= |path| <= |keyword| + 1 && OnPath(keyword, path, |path| - 1)
      ensures |path| <= |keyword| ==> keyword !in nodes
    {
      var cur := root;
      path := [root];
      assert keyword[..0] == "";
      for i := 0 to |keyword|
        invariant |path| == i + 1 && OnPath(keyword, path, i) && cur == path[i]
      {
        NextPrefix(keyword, i);
        assert At(keyword[..i]);
        if keyword[i] !in cur.children {
          if keyword in nodes { PrefixClosed(nodes.Keys, keyword, i + 1); }
          return;
        }
        cur := cur.children[keyword[i]];
        path := path + [cur];
      }
    }

    method Remove(keyword: string)
      requires Valid()
      modifies this, nodes.Values
      ensures Valid() && nodes.Values <= old(nodes.Values)
      ensures words == old(words) - {keyword}
    {
      if keyword == "" {
        return;
      }
      var path := FindPath(keyword);
      if |path| <= |keyword| {
        return;
      }
      var cur := path[|keyword|];
      assert keyword[..|keyword|] == keyword && At(keyword);
      if !cur.isEnd {
        return;
      }
      RemovalLeavesPathInDoubt(nodes.Keys, words, keyword);
      cur.isEnd := false;
      words := words - {keyword};
      size := size - 1;
      Prune(keyword, path);
    }

    /** The longest keyword starting at position i, found by walking the trie. */
    method MatchFrom(text: string, i: nat) returns (kw: string)
      requires Valid() && i <= |text|
      ensures kw == KeywordAt(words, text, i)
    {
      var cur := root;
      kw := "";
      var j := i;
      assert text[i..i] == "";
      while j < |text|
        invariant i <= j <= |text| && text[i..j] in nodes && nodes[text[i..j]] == cur
        invariant i + |kw| <= j && kw == text[i..i + |kw|] && (kw != "" ==> kw in words)
        invariant forall k :: i + |kw| < k <= j ==> text[i..k] !in words
      {
        EdgeInText(text, i, j);
        assert At(text[i..j]) && At(text[i..j + 1]);
        if text[j] !in cur.children {
          NothingLonger(text, i, j);
          break;
        }
        cur := cur.children[text[j]];
        if cur.isEnd {
          kw := text[i..j + 1];
        }
        j := j + 1;
      }
      LongestIsUnique(words, text, i, kw, KeywordAt(words, text, i));
    }

    lemma NothingLonger(text: string, i: nat, j: nat)
      requires Linked() && Marked() && i <= j < |text| && text[i..j + 1] !in nodes
      ensures forall k :: j < k <= |text| ==> text[i..k] !in words
    {
      forall k | j < k <= |text|
        ensures text[i..k] !in words
      {
        SliceOfSlice(text, i, j + 1, k);
        if text[i..k] in words { PrefixClosed(nodes.Keys, text[i..k], j + 1 - i); }
      }
    }

    /** The distinct longest keywords, in order of first appearance. */
    method Match(text: string) returns (matched: seq<string>)
      requires Valid()
      ensures forall a, b :: 0 <= a < b < |matched| ==> matched[a] != matched[b]
      ensures forall j :: 0 <= j < |text| ==> KeywordAt(words, text, j) == "" || KeywordAt(words, text, j) in matched
      ensures exists firsts :: Listed(words, text, |text|, matched, firsts)
    {
      matched := [];
      ghost var firsts: seq<nat> := [];
      for i := 0 to |text|
        invariant Listed(words, text, i, matched, firsts)
      {
        var kw := MatchFrom(text, i);
        ListedNext(words, text, i, matched, firsts);
        if kw != "" && kw !in matched {
          matched := matched + [kw];
          firsts := firsts + [i];
        }
      }
      forall a, b | 0 <= a < b < |matched| ensures matched[a] != matched[b] {
        ListedOnce(words, text, |text|, matched, firsts, a, b);
      }
    }

    method Contains(text: string) returns (found: bool)
      requires Valid()
      ensures found <==> exists i, j :: 0 <= i <= j <= |text| && text[i..j] in words
    {
      OccursIffSomePosition(words, text);
      for i := 0 to |text|
        invariant forall k :: 0 <= k < i ==> KeywordAt(words, text, k) == ""
      {
        var kw := MatchFrom(text, i);
        if kw != "" {
          return true;
        }
      }
      return false;
    }

    /** The text with every hit of its leftmost-longest cut replaced. */
    method Replace(text: string, replacement: string) returns (out: string)
      requires Valid()
      ensures out == Render(Cut(words, text), replacement)
    {
      out := "";
      var i := 0;
      ghost var pieces := [];
      assert text[0..] == text;
      while i < |text|
        invariant i <= |text| && out == Render(pieces, replacement)
        invariant Cut(words, text) == pieces + Cut(words, text[i..])
      {
        var kw := MatchFrom(text, i);
        ghost var p := CutStep(words, text, i, pieces, replacement);
        pieces := pieces + [p];
        if kw != "" {
          out := out + replacement;
          i := i + |kw|;
        } else {
          out := out + [text[i]];
          i := i + 1;
        }
      }
      assert text[i..] == "" && pieces + [] == pieces;
    }
  }

  // ------------------------------------------------------------------------ whole runs

  datatype Op = Add(keyword: string) | AddMany(keywords: seq<string>) | Remove(keyword: string) | Clear

  /** The same operations on a plain set. */
  function Apply(words: set<string>, op: Op): set<string>
  {
    match op
    case Add(k) => words + NonEmpty([k])
    case AddMany(ks) => words + NonEmpty(ks)
    case Remove(k) => words - {k}
    case Clear => {}
  }

  function ApplyAll(words: set<string>, ops: seq<Op>): set<string>
  {
    if ops == [] then words else Apply(ApplyAll(words, ops[..|ops| - 1]), ops[|ops| - 1])
  }

  predicate Adds(op: Op, k: string)
  {
    k != "" && ((op.Add? && op.keyword == k) || (op.AddMany? && k in op.keywords))
  }

  predicate Drops(op: Op, k: string) { op.Clear? || (op.Remove? && op.keyword == k) }

  /** Nothing from operation i on drops the keyword. */
  ghost predicate Undropped(ops: seq<Op>, i: nat, k: string)
  {
    forall j :: i <= j < |ops| ==> !Drops(ops[j], k)
  }

  /** The last operation about a keyword decides; it stays if there is none. */
  ghost predicate Stands(words: set<string>, ops: seq<Op>, k: string)
  {
    (k in words && Undropped(ops, 0, k)) || exists i :: 0 <= i < |ops| && Adds(ops[i], k) && Undropped(ops, i, k)
  }

  lemma StandsNext(words: set<string>, ops: seq<Op>, op: Op, k: string)
    ensures Stands(words, ops + [op], k) <==> Adds(op, k) || (!Drops(op, k) && Stands(words, ops, k))
  {
    var all := ops + [op];
    assert all[|ops|] == op && forall j :: 0 <= j < |ops| ==> all[j] == ops[j];
    if Adds(op, k) { assert Undropped(all, |ops|, k); }
    if i :| 0 <= i < |ops| && Adds(ops[i], k) && Undropped(ops, i, k) && !Drops(op, k) {
      assert Adds(all[i], k) && Undropped(all, i, k);
    }
    if i :| 0 <= i < |all| && Adds(all[i], k) && Undropped(all, i, k) && i < |ops| {
      assert Adds(ops[i], k) && Undropped(ops, i, k);
    }
  }

  lemma ApplyOne(words: set<string>, op: Op, k: string)
    ensures k in Apply(words, op) <==> Adds(op, k) || (!Drops(op, k) && k in words)
  {
  }

  /** A keyword is in the set exactly when the last operation about it added it, or it was there and there is none. */
  lemma {:induction false} LastOperationDecides(words: set<string>, ops: seq<Op>, k: string)
    ensures k in ApplyAll(words, ops) <==> Stands(words, ops, k)
  {
    if ops != [] {
      var n := |ops| - 1;
      LastOperationDecides(words, ops[..n], k);
      ApplyOne(ApplyAll(words, ops[..n]), ops[n], k);
      StandsNext(words, ops[..n], ops[n], k);
      assert ops == ops[..n] + [ops[n]];
    }
  }

  method Perform(f: Filter, op: Op)
    requires f.Valid()
    modifies f, f.nodes.Values
    ensures f.Valid() && fresh(f.nodes.Values - old(f.nodes.Values))
    ensures f.words == Apply(old(f.words), op)
  {
    match op {
      case Add(k) => f.Add(k);
      case AddMany(ks) => f.AddMany(ks);
      case Remove(k) => f.Remove(k);
      case Clear => f.Clear();
    }
  }

  /** After any sequence of operations the trie is that set: same words, same count, fully pruned. */
  method RunScript(keywords: seq<string>, ops: seq<Op>) returns (f: Filter)
    ensures fresh(f) && f.Valid()
    ensures f.words == ApplyAll(NonEmpty(keywords), ops) && f.size == |ApplyAll(NonEmpty(keywords), ops)|
  {
    f := new Filter(keywords);
    for i := 0 to |ops|
      invariant fresh(f) && f.Valid() && fresh(f.nodes.Values)
      invariant f.words == ApplyAll(NonEmpty(keywords), ops[..i])
    {
      assert ops[..i + 1][..i] == ops[..i];
      Perform(f, ops[i]);
    }
    assert ops[..|ops|] == ops;
  }
}
