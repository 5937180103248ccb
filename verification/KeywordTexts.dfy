/** What listing and replacing keywords mean for whole texts. */
module KeywordTexts {
  import opened Common
  import opened KeywordFilter

  // -------------------------------------------------------- which keywords are listed

  /** The word stands in the text at position i. */
  predicate OccursAt(text: string, w: string, i: int)
  {
    0 <= i && i + |w| <= |text| && text[i..i + |w|] == w
  }

  ghost predicate Occurs(text: string, w: string) { exists i :: OccursAt(text, w, i) }

  /** The word is the longest one at some position. */
  ghost predicate Found(words: set<string>, text: string, w: string)
  {
    exists j :: 0 <= j < |text| && KeywordAt(words, text, j) == w
  }

  /** The listed keywords are the non-empty ones that are longest somewhere. */
  lemma ListedAreFound(words: set<string>, text: string, matched: seq<string>, firsts: seq<nat>, w: string)
    requires Listed(words, text, |text|, matched, firsts) && w != ""
    ensures w in matched <==> Found(words, text, w)
  {
    if w in matched {
      var a :| 0 <= a < |matched| && matched[a] == w;
      assert FirstAt(words, text, firsts[a], w);
    }
  }

  /** Whatever is listed for whatever text, no keyword of the text is missing. */
  ghost predicate NeverMisses(words: set<string>)
  {
    forall text, matched, firsts, w ::
      Listed(words, text, |text|, matched, firsts) && w in words && Occurs(text, w) ==> w in matched
  }

  /** A keyword that starts a longer one stands in it again further on. */
  ghost predicate Recur(words: set<string>)
  {
    forall w, v :: w in words && v in words && w < v ==> OccursAgain(v, w)
  }

  ghost predicate OccursAgain(v: string, w: string) { exists i :: i > 0 && OccursAt(v, w, i) }

  lemma OccursInside(text: string, v: string, i: nat, w: string, k: nat)
    requires OccursAt(text, v, i) && OccursAt(v, w, k)
    ensures OccursAt(text, w, i + k)
  {
    forall m | 0 <= m < |w| ensures text[i + k + m] == w[m] {
      assert v[k + m] == text[i..i + |v|][k + m] && w[m] == v[k..k + |w|][m];
    }
  }

  /** The longest word where w stands starts with w. */
  lemma LongestStartsWith(words: set<string>, text: string, w: string, i: nat)
    requires w in words && w != "" && OccursAt(text, w, i)
    ensures var v := KeywordAt(words, text, i); v in words && w <= v && OccursAt(text, v, i)
  {
    var v := KeywordAt(words, text, i);
    assert text[i..i + |w|] == w;
    assert |w| <= |v|;
    assert text[i..i + |v|][..|w|] == text[i..i + |w|];
  }

  /** When keywords recur, the last occurrence of one is where it is the longest. */
  lemma {:induction false} FoundLater(words: set<string>, text: string, w: string, i: nat)
    requires Recur(words) && w in words && w != "" && OccursAt(text, w, i)
    ensures Found(words, text, w)
    decreases |text| - i
  {
    var v := KeywordAt(words, text, i);
    LongestStartsWith(words, text, w, i);
    if v != w {
      assert OccursAgain(v, w);
      var k :| k > 0 && OccursAt(v, w, k);
      OccursInside(text, v, i, w, k);
      FoundLater(words, text, w, i + k);
    }
  }

  /** In a longer keyword as the text, one that does not recur is nowhere the longest. */
  lemma LongerHides(words: set<string>, w: string, v: string)
    requires w in words && v in words && w < v && !OccursAgain(v, w)
    ensures Occurs(v, w) && !Found(words, v, w)
  {
    assert OccursAt(v, w, 0);
    assert v[0..|v|] == v && LongestAt(words, v, 0, v);
    LongestIsUnique(words, v, 0, v, KeywordAt(words, v, 0));
    if j :| 0 <= j < |v| && KeywordAt(words, v, j) == w {
      assert OccursAt(v, w, j);
    }
  }

  /** Some listing of a text exists. */
  lemma {:induction false} ListingExists(words: set<string>, text: string, n: nat)
    returns (matched: seq<string>, firsts: seq<nat>)
    requires n <= |text|
    ensures Listed(words, text, n, matched, firsts)
  {
    if n == 0 {
      matched, firsts := [], [];
    } else {
      matched, firsts := ListingExists(words, text, n - 1);
      ListedNext(words, text, n - 1, matched, firsts);
      var kw := KeywordAt(words, text, n - 1);
      if kw != "" && kw !in matched { matched, firsts := matched + [kw], firsts + [n - 1]; }
    }
  }

  /**
   Every keyword that occurs is listed, for every text, exactly when each keyword that starts
   a longer one occurs in it again.
   */
  lemma NeverMissesExactly(words: set<string>)
    requires "" !in words
    ensures NeverMisses(words) <==> Recur(words)
  {
    if Recur(words) {
      forall text, matched, firsts, w |
        Listed(words, text, |text|, matched, firsts) && w in words && Occurs(text, w)
        ensures w in matched
      {
        var i :| OccursAt(text, w, i);
        FoundLater(words, text, w, i);
        ListedAreFound(words, text, matched, firsts, w);
      }
    } else {
      var w, v :| w in words && v in words && w < v && !OccursAgain(v, w);
      LongerHides(words, w, v);
      var matched, firsts := ListingExists(words, v, |v|);
      ListedAreFound(words, v, matched, firsts, w);
    }
  }

  /** With the keywords ab and abc, the text abc is reported without ab. */
  lemma ShorterKeywordMissed(matched: seq<string>, firsts: seq<nat>)
    requires Listed({"ab", "abc"}, "abc", 3, matched, firsts)
    ensures Occurs("abc", "ab") && "ab" !in matched
  {
    var w, v := "ab", "abc";
    assert w < v;
    assert !OccursAgain(v, w) by {
      if i :| i > 0 && OccursAt(v, w, i) { assert v[i..i + 2][0] == v[i] == w[0]; }
    }
    LongerHides({w, v}, w, v);
    ListedAreFound({w, v}, v, matched, firsts, w);
  }

  // ------------------------------------------------------------- what is left of them

  ghost predicate Clean(words: set<string>, text: string)
  {
    forall i, j :: 0 <= i <= j <= |text| ==> text[i..j] !in words
  }

  /** The replacement is not empty and has no character of any keyword. */
  ghost predicate Foreign(words: set<string>, replacement: string)
  {
    replacement != "" && forall w, c :: w in words && c in replacement ==> c !in w
  }

  /** Each piece fits what is left of the text. */
  ghost predicate AllFit(words: set<string>, pieces: seq<Piece>)
  {
    pieces == [] || (PieceFits(words, Sources(pieces), pieces[0]) && AllFit(words, pieces[1..]))
  }

  lemma {:induction false} CutFits(words: set<string>, text: string, pieces: seq<Piece>)
    requires LeftmostLongest(words, text, pieces)
    ensures AllFit(words, pieces)
    decreases |pieces|
  {
    if pieces != [] {
      assert pieces[0..] == pieces;
      RestIsLeftmostLongest(words, text, pieces);
      CutFits(words, text[|Source(pieces[0])|..], pieces[1..]);
    }
  }

  /** Where nothing of the replacement shows, the text is the original. */
  lemma {:induction false} KeptRun(pieces: seq<Piece>, replacement: string, n: nat)
    requires replacement != "" && n <= |Render(pieces, replacement)|
    requires forall k :: 0 <= k < n ==> Render(pieces, replacement)[k] !in replacement
    ensures n <= |Sources(pieces)| && Sources(pieces)[..n] == Render(pieces, replacement)[..n]
  {
    if n > 0 {
      var out, rest := Render(pieces, replacement), Render(pieces[1..], replacement);
      assert out[0] !in replacement;
      assert pieces[0].Keep? && out == [pieces[0].c] + rest;
      assert forall k :: 0 <= k < n - 1 ==> rest[k] == out[k + 1];
      KeptRun(pieces[1..], replacement, n - 1);
      assert Sources(pieces) == [pieces[0].c] + Sources(pieces[1..]);
      assert out[..n] == [pieces[0].c] + rest[..n - 1];
    }
  }

  /** No keyword starts where the longest keyword is none. */
  lemma NoneStarts(words: set<string>, text: string, j: nat)
    requires KeywordAt(words, text, 0) == "" && 0 < j <= |text|
    ensures text[..j] !in words
  {
    assert text[0..j] == text[..j];
  }

  /** Nothing that shows a character of the replacement is a keyword. */
  lemma ForeignIsNone(words: set<string>, out: string, replacement: string, i: nat, k: nat, j: nat)
    requires Foreign(words, replacement) && i <= k < j <= |out| && out[k] in replacement
    ensures out[i..j] !in words
  {
    assert out[i..j][k - i] == out[k];
  }

  /** A kept character does not start a keyword of what was rendered. */
  lemma KeptStartsNone(words: set<string>, pieces: seq<Piece>, replacement: string, j: nat)
    requires pieces != [] && KeywordAt(words, Sources(pieces), 0) == "" && Foreign(words, replacement)
    requires 0 < j <= |Render(pieces, replacement)|
    ensures Render(pieces, replacement)[0..j] !in words
  {
    var out := Render(pieces, replacement);
    assert out[0..j] == out[..j];
    if k :| 0 <= k < j && out[k] in replacement {
      ForeignIsNone(words, out, replacement, 0, k, j);
    } else {
      KeptRun(pieces, replacement, j);
      NoneStarts(words, Sources(pieces), j);
    }
  }

  lemma {:induction false} RenderedIsClean(words: set<string>, pieces: seq<Piece>, replacement: string, i: nat, j: nat)
    requires AllFit(words, pieces) && Foreign(words, replacement) && i < j <= |Render(pieces, replacement)|
    ensures Render(pieces, replacement)[i..j] !in words
    decreases |pieces|
  {
    var out, rest := Render(pieces, replacement), Render(pieces[1..], replacement);
    var head := if pieces[0].Hit? then replacement else [pieces[0].c];
    assert out == head + rest;
    if i >= |head| {
      RenderedIsClean(words, pieces[1..], replacement, i - |head|, j - |head|);
      SliceAfter(head, rest, i - |head|, j - |head|);
    } else if pieces[0].Hit? {
      assert out[i] == replacement[i];
      ForeignIsNone(words, out, replacement, i, i, j);
    } else {
      KeptStartsNone(words, pieces, replacement, j);
    }
  }

  /** A replacement that shares no character with the keywords leaves a text without keywords. */
  lemma ReplacedIsClean(words: set<string>, text: string, replacement: string)
    requires "" !in words && Foreign(words, replacement)
    ensures Clean(words, Render(Cut(words, text), replacement))
  {
    var pieces := Cut(words, text);
    var out := Render(pieces, replacement);
    CutIsLeftmostLongest(words, text);
    CutFits(words, text, pieces);
    forall i, j | 0 <= i <= j <= |out| ensures out[i..j] !in words {
      if i == j {
        assert out[i..j] == "";
      } else {
        RenderedIsClean(words, pieces, replacement, i, j);
      }
    }
  }

  lemma NextKept(words: set<string>, text: string)
    requires text != "" && LongestAt(words, text, 0, "")
    ensures Cut(words, text) == [Keep(text[0])] + Cut(words, text[1..])
  {
    LongestIsUnique(words, text, 0, "", KeywordAt(words, text, 0));
  }

  lemma NextHit(words: set<string>, text: string, kw: string)
    requires kw != "" && LongestAt(words, text, 0, kw)
    ensures Cut(words, text) == [Hit(kw)] + Cut(words, text[|kw|..])
  {
    LongestIsUnique(words, text, 0, kw, KeywordAt(words, text, 0));
  }

  /** An empty replacement can join what is left into a keyword: aabb without ab is ab. */
  lemma EmptyReplacementJoins()
    ensures Render(Cut({"ab"}, "aabb"), "") == "ab"
  {
    var words := {"ab"};
    assert "aabb"[0..2] == "aa";
    NextKept(words, "aabb");
    assert "aabb"[1..] == "abb" && "abb"[0..2] == "ab";
    NextHit(words, "abb", "ab");
    assert "abb"[2..] == "b";
    NextKept(words, "b");
    assert "b"[1..] == "";
    assert Cut(words, "aabb") == [Keep('a'), Hit("ab"), Keep('b')];
    RenderThree('a', "ab", 'b');
  }

  lemma RenderThree(a: char, kw: string, b: char)
    ensures Render([Keep(a), Hit(kw), Keep(b)], "") == [a, b]
  {
    var p := [Keep(a), Hit(kw), Keep(b)];
    assert p[1..] == [Hit(kw), Keep(b)] && p[1..][1..] == [Keep(b)] && p[1..][1..][1..] == [];
    assert Render([Keep(b)], "") == [b];
    assert Render(p[1..], "") == "" + [b];
  }
}
