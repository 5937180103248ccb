/**
 Translating a stream of flat chat chunks into rich chunks, and assembling the final response.

 The specification reads the rich chunks the way a consumer of the channel does: it rebuilds
 the text, each tool call and the stop reason from the chunks alone.
 */
module Rich {
  import opened Common
  import opened Text

  datatype ToolCall = ToolCall(index: Option<int>, id: string, name: string, arguments: string)

  datatype Usage = Usage(input: int, output: int)

  datatype FlatChunk = FlatChunk(err: Option<string>, done: bool, usage: Option<Usage>, delta: string,
                                 reasoning: string, toolCalls: seq<ToolCall>, finish: string)

  datatype RichChunk =
    | TextDelta(text: string)
    | ThinkingDelta(thinking: string)
    | ToolUseDelta(index: int, id: string, name: string, fragment: string)
    | Finish(reason: string)
    | UsageChunk(usage: Usage)
    | ErrorChunk(error: string)

  /** A tool call being put together. */
  datatype Tool = Tool(id: string, name: string, args: string)

  datatype Block = TextBlock(text: string) | ToolUseBlock(id: string, name: string, input: string)

  datatype Response = Response(content: seq<Block>, stop: string, usage: Usage)

  const NO_CONTENT := "[Provider returned no content]"

  /** The stop reason for a finish reason. */
  function MapFinish(finish: string, hasTools: bool): string
  {
    if finish == "tool_calls" then "tool_use"
    else if finish == "length" then "max_tokens"
    else if finish == "stop" then "end_turn"
    else if hasTools then "tool_use" else "end_turn"
  }

  predicate Mapped(finish: string) { finish == "tool_calls" || finish == "length" || finish == "stop" }

  // -------------------------------------------------------- what the consumer sees

  /** The strings picked from the chunks, joined. */
  function Pick(f: RichChunk -> string, out: seq<RichChunk>): string
  {
    if out == [] then "" else Pick(f, out[..|out| - 1]) + f(out[|out| - 1])
  }

  function TextPart(d: RichChunk): string { if d.TextDelta? then d.text else "" }

  predicate IsCall(d: RichChunk, i: int) { d.ToolUseDelta? && d.index == i }

  function FragmentPart(i: int): RichChunk -> string
  {
    d => if IsCall(d, i) then d.fragment else ""
  }

  function Indices(out: seq<RichChunk>): set<int>
  {
    set d | d in out && d.ToolUseDelta? :: d.index
  }

  predicate HasTools(out: seq<RichChunk>) { exists k :: 0 <= k < |out| && out[k].ToolUseDelta? }

  /** The last non-empty id streamed for a call. */
  function LastId(out: seq<RichChunk>, i: int): string
  {
    if out == [] then ""
    else
      var d := out[|out| - 1];
      if IsCall(d, i) && d.id != "" then d.id else LastId(out[..|out| - 1], i)
  }

  /** The last non-empty name streamed for a call. */
  function LastName(out: seq<RichChunk>, i: int): string
  {
    if out == [] then ""
    else
      var d := out[|out| - 1];
      if IsCall(d, i) && d.name != "" then d.name else LastName(out[..|out| - 1], i)
  }

  function Collected(out: seq<RichChunk>, i: int): Tool
  {
    Tool(LastId(out, i), LastName(out, i), Pick(FragmentPart(i), out))
  }

  function ToolBlock(t: Tool): Block
  {
    var input := Trim(IsSpace, t.args);
    ToolUseBlock(t.id, t.name, if input == "" then "{}" else input)
  }

  /** One block for each streamed call below the bound, in order. */
  function ToolBlocks(out: seq<RichChunk>, bound: nat): seq<Block>
  {
    if bound == 0 then []
    else ToolBlocks(out, bound - 1) + (if bound - 1 in Indices(out) then [ToolBlock(Collected(out, bound - 1))] else [])
  }

  /** Text and tool blocks, or a placeholder when there is neither. */
  function Composed(text: string, blocks: seq<Block>): seq<Block>
  {
    var content := (if text == "" then [] else [TextBlock(text)]) + blocks;
    if content == [] then [TextBlock(NO_CONTENT)] else content
  }

  /** The content a consumer would build from the chunks. */
  function Content(out: seq<RichChunk>): seq<Block>
  {
    Composed(Pick(TextPart, out), ToolBlocks(out, |Indices(out)|))
  }

  // ------------------------------------------------------------- what is sent

  function DeltaOf(tc: ToolCall): RichChunk
  {
    ToolUseDelta(if tc.index.Some? then tc.index.value else 0, tc.id, tc.name, tc.arguments)
  }

  function Deltas(calls: seq<ToolCall>): seq<RichChunk>
  {
    if calls == [] then [] else Deltas(calls[..|calls| - 1]) + [DeltaOf(calls[|calls| - 1])]
  }

  function TextOf(c: FlatChunk): seq<RichChunk>
  {
    (if c.delta == "" then [] else [TextDelta(c.delta)])
    + (if c.reasoning == "" then [] else [ThinkingDelta(c.reasoning)])
  }

  function FinishOf(c: FlatChunk, hasTools: bool): seq<RichChunk>
  {
    if c.finish == "" then [] else [Finish(MapFinish(c.finish, hasTools))]
  }

  /** What one chunk sends after the chunks sent so far. */
  function Sent(before: seq<RichChunk>, c: FlatChunk): seq<RichChunk>
  {
    if c.done then before + (if c.usage.Some? then [UsageChunk(c.usage.value)] else [])
    else
      var called := before + TextOf(c) + Deltas(c.toolCalls);
      called + FinishOf(c, HasTools(called))
  }

  /** What a stream without errors sends. */
  function Emitted(chunks: seq<FlatChunk>): seq<RichChunk>
  {
    if chunks == [] then [] else Sent(Emitted(chunks[..|chunks| - 1]), chunks[|chunks| - 1])
  }

  function FirstError(chunks: seq<FlatChunk>): (k: nat)
    ensures k <= |chunks| && (k < |chunks| ==> chunks[k].err.Some?)
    ensures forall j :: 0 <= j < k ==> chunks[j].err.None?
  {
    if chunks == [] || chunks[0].err.Some? then 0 else 1 + FirstError(chunks[1..])
  }

  /** The last finish reason the provider gave. */
  function LastFinish(chunks: seq<FlatChunk>): string
  {
    if chunks == [] then ""
    else
      var c := chunks[|chunks| - 1];
      if !c.done && c.finish != "" then c.finish else LastFinish(chunks[..|chunks| - 1])
  }

  // ------------------------------------------------------------- conservation

  lemma {:induction false} PickConcat(f: RichChunk -> string, a: seq<RichChunk>, b: seq<RichChunk>)
    ensures Pick(f, a + b) == Pick(f, a) + Pick(f, b)
  {
    if b == [] {
      assert a + b == a;
    } else {
      var n := |b| - 1;
      PickConcat(f, a, b[..n]);
      assert (a + b)[..|a| + n] == a + b[..n];
      JoinTexts(Pick(f, a), Pick(f, b[..n]), f(b[n]));
    }
  }

  lemma JoinTexts(x: string, y: string, z: string)
    ensures (x + y) + z == x + (y + z)
  {
  }

  /** Chunks from which nothing is picked. */
  lemma {:induction false} PickNothing(f: RichChunk -> string, out: seq<RichChunk>)
    requires forall k :: 0 <= k < |out| ==> f(out[k]) == ""
    ensures Pick(f, out) == ""
  {
    if out != [] { PickNothing(f, out[..|out| - 1]); }
  }

  /** A call without an index counts as call 0. */
  predicate For(tc: ToolCall, i: int) { tc.index == Some(i) || (tc.index == None && i == 0) }

  /** The arguments the calls give for one index, joined. */
  function Arguments(calls: seq<ToolCall>, i: int): string
  {
    if calls == [] then ""
    else
      var tc := calls[|calls| - 1];
      Arguments(calls[..|calls| - 1], i) + (if For(tc, i) then tc.arguments else "")
  }

  lemma {:induction false} DeltasCarryArguments(calls: seq<ToolCall>, i: int)
    ensures Pick(FragmentPart(i), Deltas(calls)) == Arguments(calls, i)
  {
    if calls != [] {
      var n := |calls| - 1;
      DeltasCarryArguments(calls[..n], i);
      assert Deltas(calls)[..|Deltas(calls)| - 1] == Deltas(calls[..n]);
    }
  }

  lemma {:induction false} DeltasCarryNoText(calls: seq<ToolCall>)
    ensures Pick(TextPart, Deltas(calls)) == ""
  {
    if calls != [] {
      DeltasCarryNoText(calls[..|calls| - 1]);
      assert Deltas(calls)[..|Deltas(calls)| - 1] == Deltas(calls[..|calls| - 1]);
    }
  }

  lemma PickSent(f: RichChunk -> string, before: seq<RichChunk>, c: FlatChunk)
    requires !c.done && forall r :: f(Finish(r)) == ""
    ensures Pick(f, Sent(before, c)) == Pick(f, before) + Pick(f, TextOf(c)) + Pick(f, Deltas(c.toolCalls))
  {
    var said := before + TextOf(c);
    var called := said + Deltas(c.toolCalls);
    var finish := FinishOf(c, HasTools(called));
    PickNothing(f, finish);
    PickConcat(f, called, finish);
    PickConcat(f, said, Deltas(c.toolCalls));
    PickConcat(f, before, TextOf(c));
    assert Sent(before, c) == called + finish;
  }

  lemma PickText(f: RichChunk -> string, c: FlatChunk)
    ensures Pick(f, TextOf(c))
         == (if c.delta == "" then "" else f(TextDelta(c.delta)))
          + (if c.reasoning == "" then "" else f(ThinkingDelta(c.reasoning)))
  {
    var a := if c.delta == "" then [] else [TextDelta(c.delta)];
    var b := if c.reasoning == "" then [] else [ThinkingDelta(c.reasoning)];
    PickConcat(f, a, b);
  }

  lemma PickUsage(f: RichChunk -> string, before: seq<RichChunk>, c: FlatChunk)
    requires c.done && forall u :: f(UsageChunk(u)) == ""
    ensures Pick(f, Sent(before, c)) == Pick(f, before)
  {
    var more := if c.usage.Some? then [UsageChunk(c.usage.value)] else [];
    PickConcat(f, before, more);
    PickNothing(f, more);
  }

  lemma TextSent(before: seq<RichChunk>, c: FlatChunk)
    ensures Pick(TextPart, Sent(before, c)) == Pick(TextPart, before) + (if c.done then "" else c.delta)
  {
    if c.done {
      PickUsage(TextPart, before, c);
    } else {
      PickSent(TextPart, before, c);
      PickText(TextPart, c);
      DeltasCarryNoText(c.toolCalls);
    }
  }

  lemma FragmentsSent(before: seq<RichChunk>, c: FlatChunk, i: int)
    ensures Pick(FragmentPart(i), Sent(before, c))
         == Pick(FragmentPart(i), before) + (if c.done then "" else Arguments(c.toolCalls, i))
  {
    if c.done {
      PickUsage(FragmentPart(i), before, c);
    } else {
      PickSent(FragmentPart(i), before, c);
      PickText(FragmentPart(i), c);
      DeltasCarryArguments(c.toolCalls, i);
    }
  }

  function InputText(chunks: seq<FlatChunk>): string
  {
    if chunks == [] then ""
    else
      var c := chunks[|chunks| - 1];
      InputText(chunks[..|chunks| - 1]) + (if c.done then "" else c.delta)
  }

  function InputArguments(chunks: seq<FlatChunk>, i: int): string
  {
    if chunks == [] then ""
    else
      var c := chunks[|chunks| - 1];
      InputArguments(chunks[..|chunks| - 1], i) + (if c.done then "" else Arguments(c.toolCalls, i))
  }

  /** No text and no argument fragment is lost, repeated or reordered on the way to the consumer. */
  lemma {:induction false} NothingLostInTranslation(chunks: seq<FlatChunk>, i: int)
    ensures Pick(TextPart, Emitted(chunks)) == InputText(chunks)
    ensures Pick(FragmentPart(i), Emitted(chunks)) == InputArguments(chunks, i)
  {
    if chunks != [] {
      var n := |chunks| - 1;
      NothingLostInTranslation(chunks[..n], i);
      TextSent(Emitted(chunks[..n]), chunks[n]);
      FragmentsSent(Emitted(chunks[..n]), chunks[n], i);
    }
  }

  // ------------------------------------------------------------- the translator

  /** The accumulated calls are the streamed ones. */
  ghost predicate Agrees(tools: map<int, Tool>, out: seq<RichChunk>)
  {
    tools.Keys == Indices(out) && forall i :: i in tools ==> tools[i] == Collected(out, i)
  }

  lemma IndicesAppend(out: seq<RichChunk>, d: RichChunk)
    ensures Indices(out + [d]) == Indices(out) + (if d.ToolUseDelta? then {d.index} else {})
  {
    assert forall e :: e in out + [d] <==> e in out || e == d;
    if d.ToolUseDelta? { assert d in out + [d]; }
  }

  function Extended(t: Tool, d: RichChunk): Tool
    requires d.ToolUseDelta?
  {
    Tool(if d.id != "" then d.id else t.id, if d.name != "" then d.name else t.name, t.args + d.fragment)
  }

  lemma CollectedAppend(out: seq<RichChunk>, d: RichChunk, i: int)
    ensures Collected(out + [d], i) == if IsCall(d, i) then Extended(Collected(out, i), d) else Collected(out, i)
  {
    assert (out + [d])[..|out|] == out;
  }

  lemma {:induction false} AbsentIsEmpty(out: seq<RichChunk>, i: int)
    requires i !in Indices(out)
    ensures Collected(out, i) == Tool("", "", "")
  {
    if out != [] {
      var n := |out| - 1;
      assert out == out[..n] + [out[n]];
      IndicesAppend(out[..n], out[n]);
      AbsentIsEmpty(out[..n], i);
      CollectedAppend(out[..n], out[n], i);
    }
  }

  lemma AgreesSkip(tools: map<int, Tool>, out: seq<RichChunk>, d: RichChunk)
    requires Agrees(tools, out) && !d.ToolUseDelta?
    ensures Agrees(tools, out + [d])
  {
    IndicesAppend(out, d);
    forall i | i in tools ensures tools[i] == Collected(out + [d], i) { CollectedAppend(out, d, i); }
  }

  lemma {:induction false} AgreesSkipAll(tools: map<int, Tool>, out: seq<RichChunk>, more: seq<RichChunk>)
    requires Agrees(tools, out) && !HasTools(more)
    ensures Agrees(tools, out + more)
    decreases |more|
  {
    if more == [] {
      assert out + more == out;
    } else {
      AgreesSkip(tools, out, more[0]);
      assert (out + [more[0]]) + more[1..] == out + more;
      assert !HasTools(more[1..]) by { assert forall k :: 0 <= k < |more| - 1 ==> more[1..][k] == more[k + 1]; }
      AgreesSkipAll(tools, out + [more[0]], more[1..]);
    }
  }

  lemma AgreesAdd(tools: map<int, Tool>, out: seq<RichChunk>, d: RichChunk, added: map<int, Tool>)
    requires Agrees(tools, out) && d.ToolUseDelta? && added == tools[d.index := Collected(out + [d], d.index)]
    ensures Agrees(added, out + [d])
  {
    IndicesAppend(out, d);
    forall i | i in added ensures added[i] == Collected(out + [d], i) { CollectedAppend(out, d, i); }
  }

  lemma HasToolsExactly(out: seq<RichChunk>)
    ensures HasTools(out) <==> Indices(out) != {}
  {
    if HasTools(out) {
      var k :| 0 <= k < |out| && out[k].ToolUseDelta?;
      assert out[k].index in Indices(out);
    }
    if Indices(out) != {} {
      var i :| i in Indices(out);
      var d :| d in out && d.ToolUseDelta? && d.index == i;
      var k :| 0 <= k < |out| && out[k] == d;
    }
  }

  /** One call fragment: remember it under its index and send it on. */
  method AddCall(tools: map<int, Tool>, tc: ToolCall, ghost out: seq<RichChunk>)
    returns (added: map<int, Tool>, d: RichChunk)
    requires Agrees(tools, out)
    ensures d == DeltaOf(tc) && Agrees(added, out + [d])
  {
    var idx := 0;
    if tc.index.Some? { idx := tc.index.value; }
    var acc := Tool("", "", "");
    if idx in tools { acc := tools[idx]; } else { AbsentIsEmpty(out, idx); }
    if tc.id != "" { acc := acc.(id := tc.id); }
    if tc.name != "" { acc := acc.(name := tc.name); }
    acc := acc.(args := acc.args + tc.arguments);
    added := tools[idx := acc];
    d := ToolUseDelta(idx, tc.id, tc.name, tc.arguments);
    CollectedAppend(out, d, idx);
    AgreesAdd(tools, out, d, added);
  }

  method AddCalls(tools: map<int, Tool>, calls: seq<ToolCall>, out: seq<RichChunk>)
    returns (added: map<int, Tool>, sent: seq<RichChunk>)
    requires Agrees(tools, out)
    ensures sent == out + Deltas(calls) && Agrees(added, sent)
  {
    added, sent := tools, out;
    for i := 0 to |calls|
      invariant sent == out + Deltas(calls[..i]) && Agrees(added, sent)
    {
      var d;
      added, d := AddCall(added, calls[i], sent);
      assert calls[..i + 1][..i] == calls[..i];
      assert (out + Deltas(calls[..i])) + [d] == out + (Deltas(calls[..i]) + [d]);
      sent := sent + [d];
    }
    assert calls[..|calls|] == calls;
  }

  method AddText(text: string, c: FlatChunk, out: seq<RichChunk>) returns (text': string, out': seq<RichChunk>)
    ensures text' == text + c.delta && out' == out + TextOf(c)
  {
    text', out' := text, out;
    if c.delta != "" {
      text' := text' + c.delta;
      out' := out' + [TextDelta(c.delta)];
    }
    if c.reasoning != "" { out' := out' + [ThinkingDelta(c.reasoning)]; }
  }

  /** One chunk with content. */
  method Forward(text: string, tools: map<int, Tool>, c: FlatChunk, out: seq<RichChunk>)
    returns (text': string, tools': map<int, Tool>, out': seq<RichChunk>)
    requires text == Pick(TextPart, out) && Agrees(tools, out) && !c.done
    ensures out' == Sent(out, c) && text' == Pick(TextPart, out') && Agrees(tools', out')
  {
    text', out' := AddText(text, c, out);
    AgreesSkipAll(tools, out, TextOf(c));
    tools', out' := AddCalls(tools, c.toolCalls, out');
    HasToolsExactly(out');
    AgreesSkipAll(tools', out', FinishOf(c, HasTools(out')));
    if c.finish != "" {
      out' := out' + [Finish(MapFinish(c.finish, |tools'| > 0))];
    }
    TextSent(out, c);
  }

  /** One chunk that is not an error. */
  method Step(text: string, tools: map<int, Tool>, c: FlatChunk, out: seq<RichChunk>)
    returns (text': string, tools': map<int, Tool>, out': seq<RichChunk>)
    requires text == Pick(TextPart, out) && Agrees(tools, out)
    ensures out' == Sent(out, c) && text' == Pick(TextPart, out') && Agrees(tools', out')
  {
    if c.done {
      text', tools', out' := text, tools, out;
      AgreesSkipAll(tools, out, if c.usage.Some? then [UsageChunk(c.usage.value)] else []);
      TextSent(out, c);
      if c.usage.Some? {
        out' := out' + [UsageChunk(c.usage.value)];
      }
    } else {
      text', tools', out' := Forward(text, tools, c, out);
    }
  }

  /** The translator's variables after these chunks. */
  ghost predicate Tracks(seen: seq<FlatChunk>, text: string, tools: map<int, Tool>, finish: string, out: seq<RichChunk>)
  {
    out == Emitted(seen) && text == Pick(TextPart, out) && Agrees(tools, out) && finish == LastFinish(seen)
  }

  method Receive(text: string, tools: map<int, Tool>, finish: string, out: seq<RichChunk>, c: FlatChunk,
                 ghost seen: seq<FlatChunk>)
    returns (text': string, tools': map<int, Tool>, finish': string, out': seq<RichChunk>)
    requires Tracks(seen, text, tools, finish, out)
    ensures Tracks(seen + [c], text', tools', finish', out')
  {
    assert (seen + [c])[..|seen|] == seen;
    text', tools', out' := Step(text, tools, c, out);
    finish' := if !c.done && c.finish != "" then c.finish else finish;
  }

  method BuildTools(tools: map<int, Tool>, ghost out: seq<RichChunk>) returns (blocks: seq<Block>)
    requires Agrees(tools, out)
    ensures blocks == ToolBlocks(out, |Indices(out)|)
  {
    blocks := [];
    assert |tools| == |tools.Keys|;
    for i := 0 to |tools|
      invariant blocks == ToolBlocks(out, i)
    {
      if i in tools {
        var input := "{}";
        var s := TrimMethod(IsSpace, tools[i].args);
        if s != "" { input := s; }
        blocks := blocks + [ToolUseBlock(tools[i].id, tools[i].name, input)];
      }
    }
  }

  method Compose(text: string, blocks: seq<Block>) returns (content: seq<Block>)
    ensures content == Composed(text, blocks)
  {
    content := [];
    if text != "" { content := content + [TextBlock(text)]; }
    content := content + blocks;
    if |content| == 0 { content := [TextBlock(NO_CONTENT)]; }
  }

  method Build(text: string, tools: map<int, Tool>, ghost out: seq<RichChunk>) returns (content: seq<Block>)
    requires text == Pick(TextPart, out) && Agrees(tools, out)
    ensures content == Content(out)
  {
    var blocks := BuildTools(tools, out);
    content := Compose(text, blocks);
  }

  /** What is sent: everything, or what comes before the first error and then the error. */
  function Streamed(chunks: seq<FlatChunk>): seq<RichChunk>
  {
    var k := FirstError(chunks);
    if k == |chunks| then Emitted(chunks) else Emitted(chunks[..k]) + [ErrorChunk(chunks[k].err.value)]
  }

  /** The response that the sent chunks add up to. */
  function Answer(chunks: seq<FlatChunk>, usage: Usage): Response
  {
    var out := Emitted(chunks);
    Response(Content(out), MapFinish(LastFinish(chunks), HasTools(out)), usage)
  }

  lemma TracksNothing()
    ensures Tracks([], "", map[], "", [])
  {
  }

  /** No error came before an error that stops the loop. */
  lemma FirstErrorIs(chunks: seq<FlatChunk>, i: nat)
    requires i < |chunks| && i <= FirstError(chunks)
    ensures chunks[i].err.Some? <==> FirstError(chunks) == i
  {
  }

  /** The chunks up to the end or the first error. */
  method ReadAll(chunks: seq<FlatChunk>)
    returns (text: string, tools: map<int, Tool>, finish: string, out: seq<RichChunk>, failed: Option<string>)
    ensures Tracks(chunks[..FirstError(chunks)], text, tools, finish, out)
    ensures failed == if FirstError(chunks) < |chunks| then chunks[FirstError(chunks)].err else None
  {
    text, tools, finish, out := "", map[], "", [];
    TracksNothing();
    assert chunks[..0] == [];
    for i := 0 to |chunks|
      invariant i <= FirstError(chunks) && Tracks(chunks[..i], text, tools, finish, out)
    {
      var c := chunks[i];
      FirstErrorIs(chunks, i);
      if c.err.Some? {
        return text, tools, finish, out, c.err;
      }
      assert chunks[..i + 1] == chunks[..i] + [c];
      text, tools, finish, out := Receive(text, tools, finish, out, c, chunks[..i]);
    }
    failed := None;
  }

  method Conclude(text: string, tools: map<int, Tool>, finish: string, ghost out: seq<RichChunk>, usage: Usage,
                  ghost chunks: seq<FlatChunk>) returns (answer: Response)
    requires Tracks(chunks, text, tools, finish, out)
    ensures answer == Answer(chunks, usage)
  {
    HasToolsExactly(out);
    var content := Build(text, tools, out);
    answer := Response(content, MapFinish(finish, |tools| > 0), usage);
  }

  /**
   The translator: it sends exactly the chunks of the stream, stops at the first error without
   a final response, and otherwise its final response is what the sent chunks add up to.
   */
  method Translate(chunks: seq<FlatChunk>, usage: Usage) returns (out: seq<RichChunk>, final: Option<Response>)
    ensures out == Streamed(chunks)
    ensures final == if FirstError(chunks) < |chunks| then None else Some(Answer(chunks, usage))
  {
    var text, tools, finish, failed;
    text, tools, finish, out, failed := ReadAll(chunks);
    if failed.Some? {
      return out + [ErrorChunk(failed.value)], None;
    }
    assert chunks[..|chunks|] == chunks;
    var answer := Conclude(text, tools, finish, out, usage, chunks);
    final := Some(answer);
  }

  // ------------------------------------------------- calls that reach the response

  /** The indices below n. */
  function Range(n: nat): (r: set<int>)
    ensures forall i :: i in r <==> 0 <= i < n
  {
    if n == 0 then {} else Range(n - 1) + {n - 1}
  }

  lemma {:induction false} RangeSize(n: nat)
    ensures |Range(n)| == n
  {
    if n > 0 { RangeSize(n - 1); }
  }

  /** A subset of the same size is the whole set. */
  lemma FullSubset(a: set<int>, b: set<int>)
    requires a <= b && |a| == |b|
    ensures a == b
  {
    assert b * a == a && |b - a| == 0;
  }

  function Count(s: set<int>, bound: nat): nat
  {
    if bound == 0 then 0 else Count(s, bound - 1) + (if bound - 1 in s then 1 else 0)
  }

  function Below(s: set<int>, bound: nat): (r: set<int>)
    ensures forall i :: i in r <==> i in s && 0 <= i < bound
    ensures |r| == Count(s, bound)
  {
    if bound == 0 then {}
    else if bound - 1 in s then Below(s, bound - 1) + {bound - 1} else Below(s, bound - 1)
  }

  lemma {:induction false} BlockCount(out: seq<RichChunk>, bound: nat)
    ensures |ToolBlocks(out, bound)| == Count(Indices(out), bound)
  {
    if bound > 0 { BlockCount(out, bound - 1); }
  }

  /** Every streamed tool call has its block in the response exactly when the indices are 0, 1, 2, ... without a gap. */
  lemma AllCallsReachResponseExactly(out: seq<RichChunk>)
    ensures var s := Indices(out); |ToolBlocks(out, |s|)| == |s| <==> s == Range(|s|)
  {
    BlockCount(out, |Indices(out)|);
    CountsAllExactly(Indices(out));
  }

  lemma CountsAllExactly(s: set<int>)
    ensures Count(s, |s|) == |s| <==> s == Range(|s|)
  {
    RangeSize(|s|);
    if Count(s, |s|) == |s| {
      FullSubset(Below(s, |s|), s);
      FullSubset(s, Range(|s|));
    }
    if s == Range(|s|) {
      assert Below(s, |s|) == s;
    }
  }

  /** A stream with a single call whose index is not 0 ends in a tool_use response without the call. */
  lemma SingleCallLost(tc: ToolCall)
    requires !For(tc, 0)
    ensures var out := Emitted([FlatChunk(None, false, None, "", "", [tc], "")]);
            HasTools(out) && Content(out) == [TextBlock(NO_CONTENT)] && MapFinish("", HasTools(out)) == "tool_use"
  {
    var c := FlatChunk(None, false, None, "", "", [tc], "");
    var d := DeltaOf(tc);
    assert Deltas([tc]) == [d];
    assert Sent([], c) == [d];
    var out := Emitted([c]);
    assert [c][..0] == [] && Emitted([]) == [];
    assert out == Sent([], c);
    IndicesAppend([], d);
    assert [] + [d] == [d];
    assert Indices(out) == {d.index};
    assert ToolBlocks(out, 0) == [] && ToolBlocks(out, 1) == [];
    PickNothing(TextPart, out);
  }

  // -------------------------------------------------------------- stop reasons

  /** The last stop reason streamed. */
  function StreamedStop(out: seq<RichChunk>): Option<string>
  {
    if out == [] then None
    else
      var d := out[|out| - 1];
      if d.Finish? then Some(d.reason) else StreamedStop(out[..|out| - 1])
  }

  lemma {:induction false} NoFinishAfter(out: seq<RichChunk>, more: seq<RichChunk>)
    requires forall k :: 0 <= k < |more| ==> !more[k].Finish?
    ensures StreamedStop(out + more) == StreamedStop(out)
  {
    if more == [] {
      assert out + more == out;
    } else {
      var n := |more| - 1;
      NoFinishAfter(out, more[..n]);
      assert (out + more)[..|out| + n] == out + more[..n];
    }
  }

  predicate Finishes(c: FlatChunk) { !c.done && c.finish != "" }

  /** The tool status at the last finish reason. */
  function ToolsAtFinish(chunks: seq<FlatChunk>): bool
  {
    if chunks == [] then false
    else if Finishes(chunks[|chunks| - 1]) then HasTools(Emitted(chunks))
    else ToolsAtFinish(chunks[..|chunks| - 1])
  }

  lemma {:induction false} DeltasAreCalls(calls: seq<ToolCall>)
    ensures forall k :: 0 <= k < |Deltas(calls)| ==> Deltas(calls)[k].ToolUseDelta?
  {
    if calls != [] { DeltasAreCalls(calls[..|calls| - 1]); }
  }

  lemma SentStop(before: seq<RichChunk>, c: FlatChunk)
    ensures !Finishes(c) ==> StreamedStop(Sent(before, c)) == StreamedStop(before)
    ensures Finishes(c) ==> StreamedStop(Sent(before, c)) == Some(MapFinish(c.finish, HasTools(Sent(before, c))))
  {
    if c.done {
      NoFinishAfter(before, if c.usage.Some? then [UsageChunk(c.usage.value)] else []);
    } else {
      var called := before + TextOf(c) + Deltas(c.toolCalls);
      if c.finish == "" {
        DeltasAreCalls(c.toolCalls);
        NoFinishAfter(before, TextOf(c));
        NoFinishAfter(before + TextOf(c), Deltas(c.toolCalls));
        assert Sent(before, c) == called;
      } else {
        var d := Finish(MapFinish(c.finish, HasTools(called)));
        assert Sent(before, c) == called + [d];
        FinishKeepsTools(called, d);
      }
    }
  }

  lemma FinishKeepsTools(out: seq<RichChunk>, d: RichChunk)
    requires d.Finish?
    ensures HasTools(out + [d]) == HasTools(out)
  {
    if HasTools(out) {
      var k :| 0 <= k < |out| && out[k].ToolUseDelta?;
      assert (out + [d])[k].ToolUseDelta?;
    }
  }

  /** The last streamed stop reason, as the source computes it from the finish reason. */
  lemma {:induction false} StreamedStopMeaning(chunks: seq<FlatChunk>)
    ensures StreamedStop(Emitted(chunks))
         == if LastFinish(chunks) == "" then None else Some(MapFinish(LastFinish(chunks), ToolsAtFinish(chunks)))
  {
    if chunks != [] {
      var n := |chunks| - 1;
      StreamedStopMeaning(chunks[..n]);
      SentStop(Emitted(chunks[..n]), chunks[n]);
    }
  }

  /** The chunk carries a tool call. */
  predicate Calls(c: FlatChunk) { !c.done && c.toolCalls != [] }

  predicate AnyCalls(chunks: seq<FlatChunk>) { exists k :: 0 <= k < |chunks| && Calls(chunks[k]) }

  /** How many chunks there are up to the last finish reason. */
  function FinishedBy(chunks: seq<FlatChunk>): (n: nat)
    ensures n <= |chunks|
  {
    if chunks == [] then 0
    else if Finishes(chunks[|chunks| - 1]) then |chunks|
    else FinishedBy(chunks[..|chunks| - 1])
  }

  lemma ToolsOfConcat(a: seq<RichChunk>, b: seq<RichChunk>)
    ensures HasTools(a + b) <==> HasTools(a) || HasTools(b)
  {
    if k :| 0 <= k < |a| && a[k].ToolUseDelta? { assert (a + b)[k].ToolUseDelta?; }
    if k :| 0 <= k < |b| && b[k].ToolUseDelta? { assert (a + b)[|a| + k].ToolUseDelta?; }
  }

  lemma DeltasHaveTools(calls: seq<ToolCall>)
    ensures HasTools(Deltas(calls)) <==> calls != []
  {
    DeltasAreCalls(calls);
    if calls != [] { assert Deltas(calls)[0].ToolUseDelta?; }
  }

  lemma SentTools(before: seq<RichChunk>, c: FlatChunk)
    ensures HasTools(Sent(before, c)) <==> HasTools(before) || Calls(c)
  {
    if c.done {
      ToolsOfConcat(before, if c.usage.Some? then [UsageChunk(c.usage.value)] else []);
    } else {
      var called := before + TextOf(c) + Deltas(c.toolCalls);
      ToolsOfConcat(before, TextOf(c));
      ToolsOfConcat(before + TextOf(c), Deltas(c.toolCalls));
      ToolsOfConcat(called, FinishOf(c, HasTools(called)));
      DeltasHaveTools(c.toolCalls);
    }
  }

  /** Tool calls are streamed exactly when the provider gave some. */
  lemma {:induction false} EmittedTools(chunks: seq<FlatChunk>)
    ensures HasTools(Emitted(chunks)) <==> AnyCalls(chunks)
  {
    if chunks != [] {
      var n := |chunks| - 1;
      EmittedTools(chunks[..n]);
      SentTools(Emitted(chunks[..n]), chunks[n]);
      CallsNext(chunks);
    }
  }

  lemma CallsNext(chunks: seq<FlatChunk>)
    requires chunks != []
    ensures AnyCalls(chunks) <==> AnyCalls(chunks[..|chunks| - 1]) || Calls(chunks[|chunks| - 1])
  {
    var n := |chunks| - 1;
    if k :| 0 <= k < n && Calls(chunks[..n][k]) { assert Calls(chunks[k]); }
    if k :| 0 <= k < |chunks| && Calls(chunks[k]) && k < n { assert Calls(chunks[..n][k]); }
  }

  lemma {:induction false} ToolsAtFinishMeaning(chunks: seq<FlatChunk>)
    ensures ToolsAtFinish(chunks) <==> AnyCalls(chunks[..FinishedBy(chunks)])
  {
    if chunks != [] {
      var n := |chunks| - 1;
      if Finishes(chunks[n]) {
        EmittedTools(chunks);
        assert chunks[..|chunks|] == chunks;
      } else {
        ToolsAtFinishMeaning(chunks[..n]);
        assert chunks[..n][..FinishedBy(chunks[..n])] == chunks[..FinishedBy(chunks)];
      }
    }
  }

  lemma CallsSplit(chunks: seq<FlatChunk>, n: nat)
    requires n <= |chunks|
    ensures AnyCalls(chunks) <==> AnyCalls(chunks[..n]) || AnyCalls(chunks[n..])
  {
    if k :| 0 <= k < n && Calls(chunks[..n][k]) { assert Calls(chunks[k]); }
    if k :| 0 <= k < |chunks| - n && Calls(chunks[n..][k]) { assert Calls(chunks[n + k]); }
    if k :| 0 <= k < |chunks| && Calls(chunks[k]) {
      if k < n { assert Calls(chunks[..n][k]); } else { assert Calls(chunks[n..][k - n]); }
    }
  }

  /**
   The response repeats the streamed stop reason exactly when the provider's finish reason is
   one of the known three, or a tool call came no later than it, or none came after it.
   */
  lemma StopReasonsAgreeExactly(chunks: seq<FlatChunk>)
    requires LastFinish(chunks) != ""
    ensures StreamedStop(Emitted(chunks)) == Some(MapFinish(LastFinish(chunks), HasTools(Emitted(chunks))))
       <==> var n := FinishedBy(chunks);
            Mapped(LastFinish(chunks)) || AnyCalls(chunks[..n]) || !AnyCalls(chunks[n..])
  {
    StreamedStopMeaning(chunks);
    EmittedTools(chunks);
    ToolsAtFinishMeaning(chunks);
    CallsSplit(chunks, FinishedBy(chunks));
  }
}
