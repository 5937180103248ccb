/** Trimming and splitting of strings. */
module Text {

  /** Go's unicode.IsSpace. */
  predicate IsSpace(c: char)
  {
    c == '\t' || c == '\n' || c == '\U{000B}' || c == '\U{000C}' || c == '\r' || c == ' ' ||
    c == '\U{0085}' || c == '\U{00A0}' || c == '\U{1680}' || '\U{2000}' <= c <= '\U{200A}' ||
    c == '\U{2028}' || c == '\U{2029}' || c == '\U{202F}' || c == '\U{205F}' || c == '\U{3000}'
  }

  /** The blanks that the SSE helpers trim. */
  predicate IsBlank(c: char) { c == ' ' || c == '\t' || c == '\r' }

  /** The string without the spaces at both ends. */
  function Trim(space: char -> bool, s: string): (t: string)
    decreases |s|
  {
    if s == "" then ""
    else if space(s[0]) then Trim(space, s[1..])
    else if space(s[|s| - 1]) then Trim(space, s[..|s| - 1])
    else s
  }

  /** The scan from both ends. */
  method TrimMethod(space: char -> bool, s: string) returns (t: string)
    ensures t == Trim(space, s)
  {
    var start, end := 0, |s|;
    assert s[0..|s|] == s;
    while start < end && space(s[start])
      invariant 0 <= start <= end == |s| && Trim(space, s[start..end]) == Trim(space, s)
    {
      assert s[start..end][1..] == s[start + 1..end];
      start := start + 1;
    }
    while end > start && space(s[end - 1])
      invariant 0 <= start <= end <= |s| && Trim(space, s[start..end]) == Trim(space, s)
      invariant start < end ==> !space(s[start])
    {
      assert s[start..end][..end - start - 1] == s[start..end - 1];
      end := end - 1;
    }
    t := s[start..end];
  }

  /** There are only spaces from lo to hi. */
  ghost predicate Spaces(space: char -> bool, s: string, lo: nat, hi: nat)
    requires hi <= |s|
  {
    forall k :: lo <= k < hi ==> space(s[k])
  }

  /** Outside of i to j there are only spaces, and neither end of the middle is one. */
  ghost predicate Middle(space: char -> bool, s: string, i: nat, j: nat)
  {
    && i <= j <= |s| && Spaces(space, s, 0, i) && Spaces(space, s, j, |s|)
    && (i < j ==> !space(s[i]) && !space(s[j - 1]))
  }

  lemma MiddleAfterSpace(space: char -> bool, s: string, i: nat, j: nat)
    requires s != "" && space(s[0]) && Middle(space, s[1..], i, j)
    ensures Middle(space, s, i + 1, j + 1) && s[i + 1..j + 1] == s[1..][i..j]
  {
    assert forall k :: 1 <= k < |s| ==> s[k] == s[1..][k - 1];
  }

  lemma MiddleBeforeSpace(space: char -> bool, s: string, i: nat, j: nat)
    requires s != "" && space(s[|s| - 1]) && Middle(space, s[..|s| - 1], i, j)
    ensures Middle(space, s, i, j) && s[i..j] == s[..|s| - 1][i..j]
  {
    assert forall k :: 0 <= k < |s| - 1 ==> s[k] == s[..|s| - 1][k];
  }

  /** Trimming gives the middle of the text. */
  lemma {:induction false} TrimSlice(space: char -> bool, s: string) returns (i: nat, j: nat)
    ensures Middle(space, s, i, j) && Trim(space, s) == s[i..j]
    decreases |s|
  {
    if s == "" {
      i, j := 0, 0;
    } else if space(s[0]) {
      i, j := TrimSlice(space, s[1..]);
      MiddleAfterSpace(space, s, i, j);
      i, j := i + 1, j + 1;
    } else if space(s[|s| - 1]) {
      i, j := TrimSlice(space, s[..|s| - 1]);
      MiddleBeforeSpace(space, s, i, j);
    } else {
      i, j := 0, |s|;
    }
  }

  /** There is only one middle, unless there is nothing but spaces. */
  lemma MiddleIsUnique(space: char -> bool, s: string, i: nat, j: nat, i': nat, j': nat)
    requires Middle(space, s, i, j) && Middle(space, s, i', j')
    ensures s[i..j] == s[i'..j']
  {
    if i < j {
      assert i' <= i && j <= j';
    }
    if i' < j' {
      assert i <= i' && j' <= j;
    }
  }

  lemma TrimIsMiddle(space: char -> bool, s: string, i: nat, j: nat)
    requires Middle(space, s, i, j)
    ensures Trim(space, s) == s[i..j]
  {
    var i', j' := TrimSlice(space, s);
    MiddleIsUnique(space, s, i, j, i', j');
  }

  lemma MiddleMeaning(space: char -> bool, s: string, i: nat, j: nat)
    requires Middle(space, s, i, j)
    ensures var t := s[i..j];
            && (t == s <==> s == "" || (!space(s[0]) && !space(s[|s| - 1])))
            && (t == "" <==> Spaces(space, s, 0, |s|))
  {
    assert |s[i..j]| == j - i;
    if i < j { assert !Spaces(space, s, 0, |s|); }
  }

  /** Trimming removes exactly the spaces at the two ends. */
  lemma TrimMeaning(space: char -> bool, s: string)
    ensures var t := Trim(space, s);
            && (exists i: nat, j: nat :: Middle(space, s, i, j) && t == s[i..j])
            && (t != "" ==> !space(t[0]) && !space(t[|t| - 1]))
            && (t == s <==> s == "" || (!space(s[0]) && !space(s[|s| - 1])))
            && (t == "" <==> Spaces(space, s, 0, |s|))
  {
    var i, j := TrimSlice(space, s);
    MiddleMeaning(space, s, i, j);
  }
}
