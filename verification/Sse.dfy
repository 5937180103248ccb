/**
 Cutting a server-sent-event stream into lines and data payloads. Text is a sequence of
 bytes written as characters; decoding a payload is an arbitrary function.
 */
module Sse {
  import opened Common
  import opened Text

  // --------------------------------------------------------------------------- lines

  /** Put a character in front of the first line. */
  function Extend(c: char, lines: seq<string>): seq<string>
  {
    if lines == [] then [[c]] else [[c] + lines[0]] + lines[1..]
  }

  /** The lines of a text; a final newline does not start another line. */
  function Lines(s: string): (lines: seq<string>)
    ensures s != "" ==> lines != []
  {
    if s == "" then []
    else if s[0] == '\n' then [""] + Lines(s[1..])
    else Extend(s[0], Lines(s[1..]))
  }

  method SplitLines(s: string) returns (result: seq<string>)
    ensures result == Lines(s)
  {
    result := [];
    var start, i := 0, 0;
    assert s[0..] == s;
    while i < |s|
      invariant 0 <= start <= i <= |s|
      invariant forall k :: start <= k < i ==> s[k] != '\n'
      invariant Lines(s) == result + Lines(s[start..])
    {
      if s[i] == '\n' {
        CutLine(s, start, i, result);
        result := result + [s[start..i]];
        start := i + 1;
      }
      i := i + 1;
    }
    if start < |s| {
      LastLine(s[start..]);
      result := result + [s[start..]];
    }
  }

  /** The first line of a text that has a newline. */
  lemma {:induction false} FirstLine(line: string, rest: string)
    requires forall k :: 0 <= k < |line| ==> line[k] != '\n'
    ensures Lines(line + "\n" + rest) == [line] + Lines(rest)
  {
    var s := line + "\n" + rest;
    if line == "" {
      assert s[1..] == rest;
    } else {
      FirstLine(line[1..], rest);
      assert s[1..] == line[1..] + "\n" + rest;
      assert line == [line[0]] + line[1..];
    }
  }

  lemma CutLine(s: string, start: nat, i: nat, before: seq<string>)
    requires start <= i < |s| && s[i] == '\n' && forall k :: start <= k < i ==> s[k] != '\n'
    ensures before + Lines(s[start..]) == (before + [s[start..i]]) + Lines(s[i + 1..])
  {
    assert s[start..] == s[start..i] + "\n" + s[i + 1..];
    FirstLine(s[start..i], s[i + 1..]);
  }

  lemma {:induction false} LastLine(s: string)
    requires s != "" && forall k :: 0 <= k < |s| ==> s[k] != '\n'
    ensures Lines(s) == [s]
  {
    var rest := s[1..];
    assert s == [s[0]] + rest;
    if rest == "" {
      assert s == [s[0]];
    } else {
      LastLine(rest);
      assert Extend(s[0], [rest]) == [s];
    }
  }

  /** The lines again, each with a newline. */
  function Terminated(lines: seq<string>): string
  {
    if lines == [] then "" else lines[0] + "\n" + Terminated(lines[1..])
  }

  predicate EndsLine(s: string) { s == "" || s[|s| - 1] == '\n' }

  lemma TerminatedExtend(c: char, lines: seq<string>)
    ensures Terminated(Extend(c, lines)) == [c] + (if lines == [] then "\n" else Terminated(lines))
  {
    var l := Extend(c, lines);
    assert l[1..] == if lines == [] then [] else lines[1..];
  }

  /** Rejoining the lines restores the text, with a final newline supplied if it was missing. */
  lemma {:induction false} RejoinRestores(s: string)
    ensures Terminated(Lines(s)) == if EndsLine(s) then s else s + "\n"
  {
    if s != "" {
      var rest := s[1..];
      RejoinRestores(rest);
      assert s == [s[0]] + rest;
      if s[0] == '\n' {
        assert Lines(s)[1..] == Lines(rest);
      } else {
        TerminatedExtend(s[0], Lines(rest));
      }
    }
  }

  /** No line contains a newline. */
  lemma {:induction false} LinesHoldNoNewline(s: string)
    ensures forall k :: 0 <= k < |Lines(s)| ==> '\n' !in Lines(s)[k]
  {
    if s != "" { LinesHoldNoNewline(s[1..]); }
  }

  /** Text that ends a line can be split off. */
  lemma {:induction false} LinesSplit(a: string, b: string)
    requires EndsLine(a)
    ensures Lines(a + b) == Lines(a) + Lines(b)
  {
    if a == "" {
      assert a + b == b;
    } else {
      LinesSplit(a[1..], b);
      assert (a + b)[1..] == a[1..] + b;
      ExtendConcat(a[0], Lines(a[1..]), Lines(b));
    }
  }

  lemma ExtendConcat(c: char, x: seq<string>, y: seq<string>)
    ensures x != [] ==> Extend(c, x + y) == Extend(c, x) + y
    ensures [""] + (x + y) == ([""] + x) + y
  {
    if x != [] { assert (x + y)[1..] == x[1..] + y; }
  }

  lemma {:induction false} TerminatedOfConcat(a: seq<string>, b: seq<string>)
    ensures Terminated(a + b) == Terminated(a) + Terminated(b)
  {
    if a == [] {
      assert a + b == b;
    } else {
      TerminatedOfConcat(a[1..], b);
      assert (a + b)[1..] == a[1..] + b;
      assert a[0] + "\n" + (Terminated(a[1..]) + Terminated(b)) == (a[0] + "\n" + Terminated(a[1..])) + Terminated(b);
    }
  }

  /** Cutting a text in two keeps its lines exactly when the cut is at an end or after a newline. */
  lemma CutKeepsLinesExactly(a: string, b: string)
    ensures Lines(a + b) == Lines(a) + Lines(b) <==> EndsLine(a) || b == ""
  {
    if EndsLine(a) {
      LinesSplit(a, b);
    } else if b == "" {
      assert a + b == a;
    } else {
      RejoinRestores(a);
      RejoinRestores(b);
      RejoinRestores(a + b);
      TerminatedOfConcat(Lines(a), Lines(b));
    }
  }

  // ------------------------------------------------------------------------ payloads

  const PREFIX := "data: "

  predicate HasPrefix(s: string, p: string) { |s| >= |p| && s[..|p|] == p }

  /** What a line carries, if it is a data line. */
  function Payload(line: string): Option<string>
  {
    var t := Trim(IsBlank, line);
    if HasPrefix(t, PREFIX) then Some(t[|PREFIX|..]) else None
  }

  /** The payload of a line as a list of at most one. */
  function PayloadOf(line: string): seq<string>
  {
    var p := Payload(line);
    if p.Some? then [p.value] else []
  }

  function Payloads(lines: seq<string>): (r: seq<string>)
  {
    if lines == [] then [] else PayloadOf(lines[0]) + Payloads(lines[1..])
  }

  function DataLines(text: string): seq<string> { Payloads(Lines(text)) }

  method SplitSseLines(text: string) returns (out: seq<string>)
    ensures out == DataLines(text)
  {
    var lines := SplitLines(text);
    out := KeepData(lines);
  }

  method KeepData(lines: seq<string>) returns (out: seq<string>)
    ensures out == Payloads(lines)
  {
    out := [];
    assert lines[0..] == lines;
    for i := 0 to |lines|
      invariant Payloads(lines) == out + Payloads(lines[i..])
    {
      PayloadsNext(lines, i, out);
      var line := TrimMethod(IsBlank, lines[i]);
      if HasPrefix(line, PREFIX) {
        out := out + [line[|PREFIX|..]];
      }
    }
    assert lines[|lines|..] == [];
  }

  lemma PayloadsNext(lines: seq<string>, i: nat, before: seq<string>)
    requires i < |lines|
    ensures before + Payloads(lines[i..]) == (before + PayloadOf(lines[i])) + Payloads(lines[i + 1..])
  {
    assert lines[i..][1..] == lines[i + 1..];
    ConcatAssociative(before, PayloadOf(lines[i]), Payloads(lines[i + 1..]));
  }

  lemma {:induction false} PayloadsOfConcat(a: seq<string>, b: seq<string>)
    ensures Payloads(a + b) == Payloads(a) + Payloads(b)
  {
    if a == [] {
      assert a + b == b;
    } else {
      PayloadsOfConcat(a[1..], b);
      assert (a + b)[1..] == a[1..] + b;
      ConcatAssociative(PayloadOf(a[0]), Payloads(a[1..]), Payloads(b));
    }
  }

  /** A data line without content is lost: its own trailing blank is trimmed and the prefix no longer matches. */
  lemma PayloadIsNeverEmpty(line: string)
    ensures Payload(line) != Some("")
  {
    TrimMeaning(IsBlank, line);
    var t := Trim(IsBlank, line);
    assert HasPrefix(t, PREFIX) ==> t[5] == t[..6][5] == PREFIX[5];
  }

  // -------------------------------------------------------------------- the writer

  /** The chunks that a list of payloads is decoded to; the end marker is skipped. */
  function Decode<C>(payloads: seq<string>, extract: string -> Option<C>): seq<C>
  {
    if payloads == [] then [] else DecodeOne(payloads[0], extract) + Decode(payloads[1..], extract)
  }

  function DecodeOne<C>(payload: string, extract: string -> Option<C>): seq<C>
  {
    if payload == "[DONE]" || extract(payload).None? then [] else [extract(payload).value]
  }

  lemma ConcatAssociative<C>(x: seq<C>, y: seq<C>, z: seq<C>)
    ensures x + (y + z) == (x + y) + z
  {
  }

  lemma DecodeNext<C>(payloads: seq<string>, i: nat, extract: string -> Option<C>, before: seq<C>)
    requires i < |payloads|
    ensures before + Decode(payloads[i..], extract) ==
        (before + DecodeOne(payloads[i], extract)) + Decode(payloads[i + 1..], extract)
  {
    assert payloads[i..][1..] == payloads[i + 1..];
    ConcatAssociative(before, DecodeOne(payloads[i], extract), Decode(payloads[i + 1..], extract));
  }

  lemma {:induction false} DecodeOfConcat<C>(a: seq<string>, b: seq<string>, extract: string -> Option<C>)
    ensures Decode(a + b, extract) == Decode(a, extract) + Decode(b, extract)
  {
    if a == [] {
      assert a + b == b;
    } else {
      DecodeOfConcat(a[1..], b, extract);
      assert (a + b)[1..] == a[1..] + b;
      ConcatAssociative(DecodeOne(a[0], extract), Decode(a[1..], extract), Decode(b, extract));
    }
  }

  /** What one Write puts on the channel. */
  function Emitted<C>(text: string, extract: string -> Option<C>): seq<C> { Decode(DataLines(text), extract) }

  method Write<C>(text: string, extract: string -> Option<C>) returns (ch: seq<C>)
    ensures ch == Emitted(text, extract)
  {
    var payloads := SplitSseLines(text);
    ch := [];
    for i := 0 to |payloads|
      invariant Emitted(text, extract) == ch + Decode(payloads[i..], extract)
    {
      DecodeNext(payloads, i, extract, ch);
      ch := ch + DecodeOne(payloads[i], extract);
    }
    assert payloads[|payloads|..] == [];
  }

  /** A payload that carries a chunk. */
  predicate Carries<C>(payload: string, extract: string -> Option<C>)
  {
    payload != "[DONE]" && extract(payload).Some?
  }

  /** The end marker, and any payload that cannot be decoded, leaves no trace. */
  lemma OthersLeaveNoTrace<C>(a: seq<string>, p: string, b: seq<string>, extract: string -> Option<C>)
    requires !Carries(p, extract)
    ensures Decode(a + [p] + b, extract) == Decode(a + b, extract)
  {
    DecodeOfConcat(a + [p], b, extract);
    DecodeOfConcat(a, [p], extract);
    DecodeOfConcat(a, b, extract);
    assert [p][1..] == [];
    assert Decode([p], extract) == [];
    assert Decode(a, extract) + [] == Decode(a, extract);
  }

  /** Payloads that carry chunks give them one each, in order. */
  lemma {:induction false} EachChunkOnce<C>(payloads: seq<string>, extract: string -> Option<C>, k: nat)
    requires k < |payloads| && forall j :: 0 <= j < |payloads| ==> Carries(payloads[j], extract)
    ensures |Decode(payloads, extract)| == |payloads|
    ensures extract(payloads[k]) == Some(Decode(payloads, extract)[k])
  {
    assert Carries(payloads[0], extract);
    if |payloads| == 1 {
      assert payloads[1..] == [];
    } else {
      EachChunkOnce(payloads[1..], extract, if k > 0 then k - 1 else 0);
      assert k > 0 ==> payloads[1..][k - 1] == payloads[k];
    }
  }

  function EmittedByAll<C>(writes: seq<string>, extract: string -> Option<C>): seq<C>
  {
    if writes == [] then [] else Emitted(writes[0], extract) + EmittedByAll(writes[1..], extract)
  }

  /** A stream cut after newlines into any number of writes yields what one write would. */
  lemma {:induction false} CutsAfterNewlinesAreInvisible<C>(writes: seq<string>, extract: string -> Option<C>)
    requires forall k :: 0 <= k < |writes| - 1 ==> EndsLine(writes[k])
    ensures EmittedByAll(writes, extract) == Emitted(Flatten(writes), extract)
  {
    if |writes| > 1 {
      var rest := Flatten(writes[1..]);
      CutsAfterNewlinesAreInvisible(writes[1..], extract);
      LinesSplit(writes[0], rest);
      PayloadsOfConcat(Lines(writes[0]), Lines(rest));
      DecodeOfConcat(DataLines(writes[0]), DataLines(rest), extract);
    } else if |writes| == 1 {
      assert writes[1..] == [] && Flatten(writes) == writes[0] + [];
      assert writes[0] + [] == writes[0];
    }
  }

  // --------------------------------------------------- cuts that keep the data

  /** The unterminated last line. */
  function LastPart(a: string): string
    requires !EndsLine(a)
  {
    Lines(a)[|Lines(a)| - 1]
  }

  function FirstPart(b: string): string
    requires b != ""
  {
    Lines(b)[0]
  }

  /** A text cut inside a line: the two halves of that line join. */
  lemma {:induction false} LinesJoin(a: string, b: string)
    requires !EndsLine(a) && b != ""
    ensures Lines(a + b) == Lines(a)[..|Lines(a)| - 1] + [LastPart(a) + FirstPart(b)] + Lines(b)[1..]
  {
    var c, rest := a[0], a[1..];
    assert (a + b)[1..] == rest + b;
    assert a == [c] + rest;
    if rest == "" {
      assert rest + b == b && a == [c];
      assert Lines(a) == [[c]];
    } else {
      LinesJoin(rest, b);
      var l, m := Lines(rest), LastPart(rest) + FirstPart(b);
      if c == '\n' {
        assert Lines(a)[..|Lines(a)| - 1] == [""] + l[..|l| - 1];
      } else {
        ExtendJoin(c, l, FirstPart(b), Lines(b)[1..]);
      }
    }
  }

  lemma ExtendJoin(c: char, l: seq<string>, q: string, after: seq<string>)
    requires l != []
    ensures var n, x := |l| - 1, Extend(c, l);
            Extend(c, l[..n] + [l[n] + q] + after) == x[..n] + [x[n] + q] + after
  {
    var n := |l| - 1;
    var joined, x := l[..n] + [l[n] + q] + after, Extend(c, l);
    if n == 0 {
      assert [c] + (l[0] + q) == ([c] + l[0]) + q;
      assert joined[0] == l[0] + q && joined[1..] == after;
      assert x[0] == [c] + l[0] && x[..0] == [];
    } else {
      assert joined[0] == l[0] && joined[1..] == l[1..n] + [l[n] + q] + after;
      assert x[..n] == [[c] + l[0]] + l[1..n] && x[n] == l[n];
    }
  }

  predicate Blank(s: string) { forall k :: 0 <= k < |s| ==> IsBlank(s[k]) }

  /** Cutting the line p + q between p and q neither loses, adds nor changes a payload. */
  predicate SafeCut(p: string, q: string)
  {
    Blank(p) || Blank(q) || (Payload(p + q).None? && Payload(q).None?)
  }

  lemma BlankTrims(s: string)
    ensures Blank(s) <==> Trim(IsBlank, s) == ""
  {
    TrimMeaning(IsBlank, s);
  }

  lemma BlankBefore(p: string, q: string)
    requires Blank(p)
    ensures Trim(IsBlank, p + q) == Trim(IsBlank, q)
  {
    var i, j := TrimSlice(IsBlank, q);
    assert forall k :: 0 <= k < |q| ==> (p + q)[|p| + k] == q[k];
    TrimIsMiddle(IsBlank, p + q, |p| + i, |p| + j);
    SliceAfter(p, q, i, j);
  }

  lemma BlankAfter(p: string, q: string)
    requires Blank(q)
    ensures Trim(IsBlank, p + q) == Trim(IsBlank, p)
  {
    var i, j := TrimSlice(IsBlank, p);
    TrimIsMiddle(IsBlank, p + q, i, j);
    assert (p + q)[i..j] == p[i..j];
  }

  /** Otherwise the trimmed line starts with the trimmed first half and is longer than either. */
  lemma SolidAround(p: string, q: string)
    requires !Blank(p) && !Blank(q)
    ensures var t, x, y := Trim(IsBlank, p + q), Trim(IsBlank, p), Trim(IsBlank, q);
            |x| < |t| && |y| < |t| && t[..|x|] == x
  {
    var i, j := TrimSlice(IsBlank, p);
    var k, l := TrimSlice(IsBlank, q);
    BlankTrims(p);
    BlankTrims(q);
    assert |p[i..j]| == j - i > 0 && |q[k..l]| == l - k > 0;
    JoinedMiddle(p, q, i, j, k, l);
    TrimIsMiddle(IsBlank, p + q, i, |p| + l);
    PrefixOfSlice(p, q, i, j, |p| + l);
  }

  lemma PrefixOfSlice(p: string, q: string, i: nat, j: nat, end: nat)
    requires i <= j <= |p| <= end <= |p| + |q|
    ensures (p + q)[i..end][..j - i] == p[i..j]
  {
  }

  lemma JoinedMiddle(p: string, q: string, i: nat, j: nat, k: nat, l: nat)
    requires Middle(IsBlank, p, i, j) && Middle(IsBlank, q, k, l) && i < j && k < l
    ensures Middle(IsBlank, p + q, i, |p| + l)
  {
    assert forall m :: 0 <= m < |q| ==> (p + q)[|p| + m] == q[m];
  }

  lemma PayloadSplits(p: string, q: string)
    ensures PayloadOf(p + q) == PayloadOf(p) + PayloadOf(q) <==> SafeCut(p, q)
  {
    BlankTrims(p);
    BlankTrims(q);
    if Blank(p) {
      BlankBefore(p, q);
    } else if Blank(q) {
      BlankAfter(p, q);
    } else {
      SolidAround(p, q);
      var t, x := Trim(IsBlank, p + q), Trim(IsBlank, p);
      assert HasPrefix(x, PREFIX) ==> t[..|PREFIX|] == x[..|PREFIX|];
    }
  }

  /** The payloads before and after the cut line do not matter. */
  lemma CancelAround(x: seq<string>, m: seq<string>, n: seq<string>, y: seq<string>)
    ensures x + m + y == x + n + y <==> m == n
  {
    if x + m + y == x + n + y {
      assert |m| == |n|;
      assert m == (x + m + y)[|x|..|x| + |m|] == (x + n + y)[|x|..|x| + |n|] == n;
    }
  }

  /**
   Cutting a stream into two writes keeps its data lines exactly when the cut is at an end
   or after a newline, or one half of the cut line is blank, or neither the whole line nor
   its second half is a data line.
   */
  lemma CutKeepsDataExactly(a: string, b: string)
    ensures DataLines(a + b) == DataLines(a) + DataLines(b) <==>
            EndsLine(a) || b == "" || SafeCut(LastPart(a), FirstPart(b))
  {
    if EndsLine(a) {
      LinesSplit(a, b);
      PayloadsOfConcat(Lines(a), Lines(b));
    } else if b == "" {
      assert a + b == a && DataLines(b) == [];
    } else {
      CutInsideLine(a, b);
    }
  }

  lemma CutInsideLine(a: string, b: string)
    requires !EndsLine(a) && b != ""
    ensures DataLines(a + b) == DataLines(a) + DataLines(b) <==> SafeCut(LastPart(a), FirstPart(b))
  {
    var before, after := AroundCut(a, b);
    CutInList(before, LastPart(a), FirstPart(b), after);
  }

  /** The lines before and after the one that is cut. */
  lemma AroundCut(a: string, b: string) returns (before: seq<string>, after: seq<string>)
    requires !EndsLine(a) && b != ""
    ensures Lines(a) == before + [LastPart(a)] && Lines(b) == [FirstPart(b)] + after
    ensures Lines(a + b) == before + [LastPart(a) + FirstPart(b)] + after
  {
    before, after := Lines(a)[..|Lines(a)| - 1], Lines(b)[1..];
    LinesJoin(a, b);
  }

  lemma CutInList(before: seq<string>, p: string, q: string, after: seq<string>)
    ensures Payloads(before + [p + q] + after) == Payloads(before + [p]) + Payloads([q] + after) <==> SafeCut(p, q)
  {
    PayloadsAround(before, p + q, after);
    HalvesAround(before, p, q, after);
    CancelAround(Payloads(before), PayloadOf(p + q), PayloadOf(p) + PayloadOf(q), Payloads(after));
    PayloadSplits(p, q);
  }

  lemma HalvesAround(before: seq<string>, p: string, q: string, after: seq<string>)
    ensures Payloads(before + [p]) + Payloads([q] + after)
         == Payloads(before) + (PayloadOf(p) + PayloadOf(q)) + Payloads(after)
  {
    PayloadsOfConcat(before, [p]);
    PayloadsOfConcat([q], after);
    SinglePayload(p);
    SinglePayload(q);
    RegroupInner(Payloads(before), PayloadOf(p), PayloadOf(q), Payloads(after));
  }

  lemma RegroupInner(x: seq<string>, m: seq<string>, n: seq<string>, y: seq<string>)
    ensures (x + m) + (n + y) == x + (m + n) + y
  {
  }

  lemma PayloadsAround(before: seq<string>, line: string, after: seq<string>)
    ensures Payloads(before + [line] + after) == Payloads(before) + PayloadOf(line) + Payloads(after)
  {
    PayloadsOfConcat(before + [line], after);
    PayloadsOfConcat(before, [line]);
    SinglePayload(line);
  }

  lemma SingleLine(line: string)
    requires line != "" && forall k :: 0 <= k < |line| ==> line[k] != '\n'
    ensures Lines(line + "\n") == [line]
  {
    FirstLine(line, "");
    assert line + "\n" + "" == line + "\n";
  }

  lemma SinglePayload(line: string)
    ensures Payloads([line]) == PayloadOf(line)
  {
    assert [line][1..] == [];
  }

  /** Non-empty, on one line, and without blanks at its ends. */
  ghost predicate Solid(x: string)
  {
    x != "" && !IsBlank(x[0]) && !IsBlank(x[|x| - 1]) && forall k :: 0 <= k < |x| ==> x[k] != '\n'
  }

  lemma SolidPayload(x: string)
    requires Solid(x)
    ensures Payload(PREFIX + x) == Some(x)
    ensures Payload(x) == if HasPrefix(x, PREFIX) then Some(x[|PREFIX|..]) else None
  {
    TrimMeaning(IsBlank, x);
    SolidPrefix(x);
    assert (PREFIX + x)[..|PREFIX|] == PREFIX && (PREFIX + x)[|PREFIX|..] == x;
  }

  lemma SolidPrefix(x: string)
    requires Solid(x)
    ensures Trim(IsBlank, PREFIX + x) == PREFIX + x
  {
    var s := PREFIX + x;
    assert s[0] == PREFIX[0] && s[|s| - 1] == x[|x| - 1];
    TrimIsMiddle(IsBlank, s, 0, |s|);
  }

  /** A cut inside a data line loses the second half. */
  lemma CutInsideLineLosesData(x: string, y: string)
    requires Solid(x) && Solid(y) && !HasPrefix(y, PREFIX)
    ensures DataLines(PREFIX + (x + y) + "\n") == [x + y]
    ensures DataLines(PREFIX + x) + DataLines(y + "\n") == [x]
  {
    SolidPayload(x + y);
    SolidPayload(x);
    SolidPayload(y);
    SingleLine(PREFIX + (x + y));
    LastLine(PREFIX + x);
    SingleLine(y);
    SinglePayload(PREFIX + (x + y));
    SinglePayload(PREFIX + x);
    SinglePayload(y);
  }

  // ----------------------------------------------------------------- whole events

  /** The events of a stream: each payload on a data line of its own, followed by an empty line. */
  function EventText(payloads: seq<string>): string
  {
    if payloads == [] then "" else PREFIX + payloads[0] + "\n" + ("\n" + EventText(payloads[1..]))
  }

  lemma EmptyLine(rest: string)
    ensures DataLines("\n" + rest) == DataLines(rest)
  {
    FirstLine("", rest);
    assert "" + "\n" + rest == "\n" + rest;
    PayloadsOfConcat([""], Lines(rest));
    SinglePayload("");
    assert [] + Payloads(Lines(rest)) == Payloads(Lines(rest));
  }

  lemma FirstEvent(x: string, rest: string)
    requires Solid(x)
    ensures DataLines(PREFIX + x + "\n" + ("\n" + rest)) == [x] + DataLines(rest)
  {
    var line := PREFIX + x;
    assert forall k :: 0 <= k < |PREFIX| ==> PREFIX[k] != '\n';
    FirstLine(line, "\n" + rest);
    SolidPayload(x);
    PayloadsOfConcat([line], Lines("\n" + rest));
    SinglePayload(line);
    EmptyLine(rest);
  }

  /** What was put on data lines is what is read from them. */
  lemma {:induction false} EventsReadBack(payloads: seq<string>)
    requires forall k :: 0 <= k < |payloads| ==> Solid(payloads[k])
    ensures DataLines(EventText(payloads)) == payloads
  {
    if payloads != [] {
      EventsReadBack(payloads[1..]);
      FirstEvent(payloads[0], EventText(payloads[1..]));
      assert payloads == [payloads[0]] + payloads[1..];
    }
  }

  /** Writing well-formed events puts each event's chunk on the channel, once and in order. */
  lemma EventsAreEmitted<C>(payloads: seq<string>, extract: string -> Option<C>, k: nat)
    requires k < |payloads|
    requires forall j :: 0 <= j < |payloads| ==> Solid(payloads[j]) && Carries(payloads[j], extract)
    ensures var ch := Emitted(EventText(payloads), extract);
            |ch| == |payloads| && extract(payloads[k]) == Some(ch[k])
  {
    EventsReadBack(payloads);
    EachChunkOnce(payloads, extract, k);
  }
}
