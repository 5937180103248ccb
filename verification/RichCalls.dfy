/**
 What becomes of the provider's tool calls, reasoning and usage: the translated stream and the
 final response, told from the provider's chunks alone.
 */
module RichCalls {
  import opened Common
  import opened Text
  import opened Rich

  // ------------------------------------------------------------ chunks of one kind

  function Kept(p: RichChunk -> bool, out: seq<RichChunk>): seq<RichChunk>
  {
    if out == [] then []
    else Kept(p, out[..|out| - 1]) + (if p(out[|out| - 1]) then [out[|out| - 1]] else [])
  }

  predicate IsToolUse(d: RichChunk) { d.ToolUseDelta? }

  predicate IsThinking(d: RichChunk) { d.ThinkingDelta? }

  predicate IsUsage(d: RichChunk) { d.UsageChunk? }

  lemma {:induction false} KeptConcat(p: RichChunk -> bool, a: seq<RichChunk>, b: seq<RichChunk>)
    ensures Kept(p, a + b) == Kept(p, a) + Kept(p, b)
  {
    if b == [] {
      assert a + b == a;
    } else {
      var n := |b| - 1;
      KeptConcat(p, a, b[..n]);
      assert (a + b)[..|a| + n] == a + b[..n];
    }
  }

  lemma {:induction false} KeptAll(p: RichChunk -> bool, out: seq<RichChunk>)
    requires forall k :: 0 <= k < |out| ==> p(out[k])
    ensures Kept(p, out) == out
  {
    if out != [] {
      KeptAll(p, out[..|out| - 1]);
      assert out == out[..|out| - 1] + [out[|out| - 1]];
    }
  }

  lemma {:induction false} KeptNone(p: RichChunk -> bool, out: seq<RichChunk>)
    requires forall k :: 0 <= k < |out| ==> !p(out[k])
    ensures Kept(p, out) == []
  {
    if out != [] { KeptNone(p, out[..|out| - 1]); }
  }

  // ------------------------------------------------------- the provider's side

  /** The tool calls of the chunks with content, in order. */
  function AllCalls(chunks: seq<FlatChunk>): seq<ToolCall>
  {
    if chunks == [] then []
    else AllCalls(chunks[..|chunks| - 1]) + (if chunks[|chunks| - 1].done then [] else chunks[|chunks| - 1].toolCalls)
  }

  function InputThinking(chunks: seq<FlatChunk>): seq<string>
  {
    if chunks == [] then []
    else
      var c := chunks[|chunks| - 1];
      InputThinking(chunks[..|chunks| - 1]) + (if c.done || c.reasoning == "" then [] else [c.reasoning])
  }

  function InputUsage(chunks: seq<FlatChunk>): seq<Usage>
  {
    if chunks == [] then []
    else
      var c := chunks[|chunks| - 1];
      InputUsage(chunks[..|chunks| - 1]) + (if c.done && c.usage.Some? then [c.usage.value] else [])
  }

  // ------------------------------------------------------------ kinds conserved

  function ThinkingChunks(texts: seq<string>): seq<RichChunk>
  {
    seq(|texts|, i requires 0 <= i < |texts| => ThinkingDelta(texts[i]))
  }

  function UsageChunks(usages: seq<Usage>): seq<RichChunk>
  {
    seq(|usages|, i requires 0 <= i < |usages| => UsageChunk(usages[i]))
  }

  lemma KeptSent(p: RichChunk -> bool, before: seq<RichChunk>, c: FlatChunk)
    requires !c.done && forall r :: !p(Finish(r))
    ensures Kept(p, Sent(before, c)) == Kept(p, before) + Kept(p, TextOf(c)) + Kept(p, Deltas(c.toolCalls))
  {
    var said := before + TextOf(c);
    var called := said + Deltas(c.toolCalls);
    var finish := FinishOf(c, HasTools(called));
    KeptNone(p, finish);
    KeptConcat(p, called, finish);
    KeptConcat(p, said, Deltas(c.toolCalls));
    KeptConcat(p, before, TextOf(c));
    assert Sent(before, c) == called + finish;
  }

  lemma KeptDone(p: RichChunk -> bool, before: seq<RichChunk>, c: FlatChunk)
    requires c.done
    ensures Kept(p, Sent(before, c)) == Kept(p, before) +
        (if c.usage.Some? && p(UsageChunk(c.usage.value)) then [UsageChunk(c.usage.value)] else [])
  {
    var more := if c.usage.Some? then [UsageChunk(c.usage.value)] else [];
    KeptConcat(p, before, more);
    if c.usage.Some? { assert Kept(p, more[..0]) == []; }
  }

  lemma NothingBetween(x: seq<RichChunk>, y: seq<RichChunk>, z: seq<RichChunk>)
    ensures y == [] ==> x + y + z == x + z
    ensures z == [] ==> x + y + z == x + y
  {
  }

  lemma TextHolds(p: RichChunk -> bool, c: FlatChunk)
    requires forall t :: !p(TextDelta(t)) && !p(ThinkingDelta(t))
    ensures Kept(p, TextOf(c)) == []
  {
    KeptNone(p, TextOf(c));
  }

  lemma DeltasHold(p: RichChunk -> bool, calls: seq<ToolCall>)
    requires forall d: RichChunk :: d.ToolUseDelta? ==> !p(d)
    ensures Kept(p, Deltas(calls)) == []
  {
    DeltasAreCalls(calls);
    KeptNone(p, Deltas(calls));
  }

  lemma CallsForwarded(before: seq<RichChunk>, c: FlatChunk)
    requires !c.done
    ensures Kept(IsToolUse, Sent(before, c)) == Kept(IsToolUse, before) + Deltas(c.toolCalls)
  {
    KeptSent(IsToolUse, before, c);
    TextHolds(IsToolUse, c);
    DeltasAreCalls(c.toolCalls);
    KeptAll(IsToolUse, Deltas(c.toolCalls));
    NothingBetween(Kept(IsToolUse, before), Kept(IsToolUse, TextOf(c)), Deltas(c.toolCalls));
  }

  lemma KeptThinking(c: FlatChunk)
    ensures Kept(IsThinking, TextOf(c)) == ThinkingChunks(if c.reasoning == "" then [] else [c.reasoning])
  {
    var a := if c.delta == "" then [] else [TextDelta(c.delta)];
    var b := ThinkingChunks(if c.reasoning == "" then [] else [c.reasoning]);
    assert TextOf(c) == a + b;
    KeptConcat(IsThinking, a, b);
    KeptNone(IsThinking, a);
    KeptAll(IsThinking, b);
    assert [] + b == b;
  }

  lemma ThinkingForwarded(before: seq<RichChunk>, c: FlatChunk)
    requires !c.done
    ensures Kept(IsThinking, Sent(before, c))
         == Kept(IsThinking, before) + ThinkingChunks(if c.reasoning == "" then [] else [c.reasoning])
  {
    KeptSent(IsThinking, before, c);
    KeptThinking(c);
    DeltasHold(IsThinking, c.toolCalls);
    NothingBetween(Kept(IsThinking, before), Kept(IsThinking, TextOf(c)), []);
  }

  lemma UsageForwarded(before: seq<RichChunk>, c: FlatChunk)
    requires !c.done
    ensures Kept(IsUsage, Sent(before, c)) == Kept(IsUsage, before)
  {
    KeptSent(IsUsage, before, c);
    TextHolds(IsUsage, c);
    DeltasHold(IsUsage, c.toolCalls);
    NothingBetween(Kept(IsUsage, before), [], []);
  }

  lemma CallsSent(before: seq<RichChunk>, c: FlatChunk)
    ensures Kept(IsToolUse, Sent(before, c))
         == Kept(IsToolUse, before) + (if c.done then [] else Deltas(c.toolCalls))
  {
    if c.done { KeptDone(IsToolUse, before, c); } else { CallsForwarded(before, c); }
  }

  lemma ThinkingSent(before: seq<RichChunk>, c: FlatChunk)
    ensures Kept(IsThinking, Sent(before, c))
         == Kept(IsThinking, before) + ThinkingChunks(if c.done || c.reasoning == "" then [] else [c.reasoning])
  {
    if c.done { KeptDone(IsThinking, before, c); } else { ThinkingForwarded(before, c); }
  }

  lemma UsageSent(before: seq<RichChunk>, c: FlatChunk)
    ensures Kept(IsUsage, Sent(before, c))
         == Kept(IsUsage, before) + UsageChunks(if c.done && c.usage.Some? then [c.usage.value] else [])
  {
    if c.done { KeptDone(IsUsage, before, c); } else { UsageForwarded(before, c); }
  }

  lemma {:induction false} DeltasConcat(a: seq<ToolCall>, b: seq<ToolCall>)
    ensures Deltas(a + b) == Deltas(a) + Deltas(b)
  {
    if b == [] {
      assert a + b == a;
    } else {
      var n := |b| - 1;
      DeltasConcat(a, b[..n]);
      assert (a + b)[..|a| + n] == a + b[..n];
    }
  }

  lemma ThinkingChunksConcat(a: seq<string>, b: seq<string>)
    ensures ThinkingChunks(a + b) == ThinkingChunks(a) + ThinkingChunks(b)
  {
  }

  lemma UsageChunksConcat(a: seq<Usage>, b: seq<Usage>)
    ensures UsageChunks(a + b) == UsageChunks(a) + UsageChunks(b)
  {
  }

  /** Every call fragment, every reasoning text and every usage report goes out once, in order. */
  lemma {:induction false} EveryKindGoesOut(chunks: seq<FlatChunk>)
    ensures Kept(IsToolUse, Emitted(chunks)) == Deltas(AllCalls(chunks))
    ensures Kept(IsThinking, Emitted(chunks)) == ThinkingChunks(InputThinking(chunks))
    ensures Kept(IsUsage, Emitted(chunks)) == UsageChunks(InputUsage(chunks))
  {
    if chunks != [] {
      var n := |chunks| - 1;
      var before, c := Emitted(chunks[..n]), chunks[n];
      EveryKindGoesOut(chunks[..n]);
      CallsSent(before, c);
      ThinkingSent(before, c);
      UsageSent(before, c);
      DeltasConcat(AllCalls(chunks[..n]), if c.done then [] else c.toolCalls);
      ThinkingChunksConcat(InputThinking(chunks[..n]), if c.done || c.reasoning == "" then [] else [c.reasoning]);
      UsageChunksConcat(InputUsage(chunks[..n]), if c.done && c.usage.Some? then [c.usage.value] else []);
    }
  }

  /** Fragment k is call k: its number, id, name and arguments. */
  lemma {:induction false} DeltasMeaning(calls: seq<ToolCall>, k: nat)
    requires k < |calls|
    ensures |Deltas(calls)| == |calls|
    ensures var d := Deltas(calls)[k];
            && d.ToolUseDelta? && For(calls[k], d.index)
            && d.id == calls[k].id && d.name == calls[k].name && d.fragment == calls[k].arguments
  {
    var n := |calls| - 1;
    if n > 0 { DeltasMeaning(calls[..n], if k < n then k else 0); }
  }

  // ------------------------------------------------- ids and names from the provider

  /** v is the last non-empty id among the calls for i, or empty when there is none. */
  ghost predicate LastIdGiven(calls: seq<ToolCall>, i: int, v: string)
  {
    if v == "" then forall k :: 0 <= k < |calls| && For(calls[k], i) ==> calls[k].id == ""
    else exists k :: 0 <= k < |calls| && For(calls[k], i) && calls[k].id == v
                     && forall m :: k < m < |calls| && For(calls[m], i) ==> calls[m].id == ""
  }

  ghost predicate LastNameGiven(calls: seq<ToolCall>, i: int, v: string)
  {
    if v == "" then forall k :: 0 <= k < |calls| && For(calls[k], i) ==> calls[k].name == ""
    else exists k :: 0 <= k < |calls| && For(calls[k], i) && calls[k].name == v
                     && forall m :: k < m < |calls| && For(calls[m], i) ==> calls[m].name == ""
  }

  lemma IdGivenNext(calls: seq<ToolCall>, tc: ToolCall, i: int, v: string)
    requires LastIdGiven(calls, i, v)
    ensures LastIdGiven(calls + [tc], i, if For(tc, i) && tc.id != "" then tc.id else v)
  {
    var all := calls + [tc];
    if For(tc, i) && tc.id != "" {
      assert For(all[|calls|], i) && all[|calls|].id == tc.id;
    } else if v != "" {
      var k :| 0 <= k < |calls| && For(calls[k], i) && calls[k].id == v
               && forall m :: k < m < |calls| && For(calls[m], i) ==> calls[m].id == "";
      assert For(all[k], i) && all[k].id == v;
    }
  }

  lemma NameGivenNext(calls: seq<ToolCall>, tc: ToolCall, i: int, v: string)
    requires LastNameGiven(calls, i, v)
    ensures LastNameGiven(calls + [tc], i, if For(tc, i) && tc.name != "" then tc.name else v)
  {
    var all := calls + [tc];
    if For(tc, i) && tc.name != "" {
      assert For(all[|calls|], i) && all[|calls|].name == tc.name;
    } else if v != "" {
      var k :| 0 <= k < |calls| && For(calls[k], i) && calls[k].name == v
               && forall m :: k < m < |calls| && For(calls[m], i) ==> calls[m].name == "";
      assert For(all[k], i) && all[k].name == v;
    }
  }

  lemma {:induction false} DeltasCarryIds(calls: seq<ToolCall>, i: int)
    ensures LastIdGiven(calls, i, LastId(Deltas(calls), i))
    ensures LastNameGiven(calls, i, LastName(Deltas(calls), i))
  {
    if calls != [] {
      var n := |calls| - 1;
      DeltasCarryIds(calls[..n], i);
      assert Deltas(calls)[..|Deltas(calls)| - 1] == Deltas(calls[..n]);
      assert calls == calls[..n] + [calls[n]];
      IdGivenNext(calls[..n], calls[n], i, LastId(Deltas(calls[..n]), i));
      NameGivenNext(calls[..n], calls[n], i, LastName(Deltas(calls[..n]), i));
    }
  }

  lemma KeptAppend(p: RichChunk -> bool, out: seq<RichChunk>, d: RichChunk)
    ensures Kept(p, out + [d]) == if p(d) then Kept(p, out) + [d] else Kept(p, out)
  {
    assert (out + [d])[..|out|] == out;
  }

  lemma CollectedFromCallsNext(out: seq<RichChunk>, d: RichChunk, i: int)
    requires Collected(out, i) == Collected(Kept(IsToolUse, out), i)
    ensures Collected(out + [d], i) == Collected(Kept(IsToolUse, out + [d]), i)
  {
    KeptAppend(IsToolUse, out, d);
    CollectedAppend(out, d, i);
    CollectedAppend(Kept(IsToolUse, out), d, i);
  }

  /** Only call fragments matter for what is collected. */
  lemma {:induction false} CollectedFromCalls(out: seq<RichChunk>, i: int)
    ensures Collected(out, i) == Collected(Kept(IsToolUse, out), i)
  {
    if out != [] {
      var init, last := out[..|out| - 1], out[|out| - 1];
      assert out == init + [last];
      CollectedFromCalls(init, i);
      CollectedFromCallsNext(init, last, i);
    }
  }

  /** The id, the name and the arguments streamed under a number are the provider's. */
  lemma CallsKeepTheirFields(chunks: seq<FlatChunk>, i: int)
    ensures var calls, t := AllCalls(chunks), Collected(Emitted(chunks), i);
            LastIdGiven(calls, i, t.id) && LastNameGiven(calls, i, t.name) && t.args == Arguments(calls, i)
  {
    EveryKindGoesOut(chunks);
    CollectedFromCalls(Emitted(chunks), i);
    DeltasCarryIds(AllCalls(chunks), i);
    DeltasCarryArguments(AllCalls(chunks), i);
  }

  // ---------------------------------------------------------- the final response

  /** Some call is for i. */
  predicate Used(calls: seq<ToolCall>, i: int) { exists k :: 0 <= k < |calls| && For(calls[k], i) }

  lemma {:induction false} UsedIndices(calls: seq<ToolCall>, i: int)
    ensures i in Indices(Deltas(calls)) <==> Used(calls, i)
  {
    if calls != [] {
      var n := |calls| - 1;
      UsedIndices(calls[..n], i);
      IndicesAppend(Deltas(calls[..n]), DeltaOf(calls[n]));
      UsedNext(calls, i);
    }
  }

  lemma UsedNext(calls: seq<ToolCall>, i: int)
    requires calls != []
    ensures Used(calls, i) <==> Used(calls[..|calls| - 1], i) || For(calls[|calls| - 1], i)
  {
    var n := |calls| - 1;
    if k :| 0 <= k < n && For(calls[..n][k], i) { assert For(calls[k], i); }
    if k :| 0 <= k < |calls| && For(calls[k], i) && k < n { assert For(calls[..n][k], i); }
  }

  lemma {:induction false} IndicesFromCalls(out: seq<RichChunk>)
    ensures Indices(out) == Indices(Kept(IsToolUse, out))
  {
    if out != [] {
      var n := |out| - 1;
      IndicesFromCalls(out[..n]);
      assert out == out[..n] + [out[n]];
      IndicesAppend(out[..n], out[n]);
      KeptAppend(IsToolUse, out[..n], out[n]);
      IndicesAppend(Kept(IsToolUse, out[..n]), out[n]);
    }
  }

  /** The numbers streamed are the numbers the provider used. */
  lemma IndicesAreUsed(chunks: seq<FlatChunk>, i: int)
    ensures i in Indices(Emitted(chunks)) <==> Used(AllCalls(chunks), i)
  {
    EveryKindGoesOut(chunks);
    IndicesFromCalls(Emitted(chunks));
    UsedIndices(AllCalls(chunks), i);
  }

  /** The block is call j: the last id and name given for it and its arguments, trimmed, or an empty object. */
  ghost predicate BlockOf(b: Block, calls: seq<ToolCall>, j: int)
  {
    && b.ToolUseBlock? && LastIdGiven(calls, j, b.id) && LastNameGiven(calls, j, b.name)
    && var args := Trim(IsSpace, Arguments(calls, j));
       b.input == if args == "" then "{}" else args
  }

  lemma {:induction false} BlocksInOrder(out: seq<RichChunk>, n: nat, j: nat)
    requires j < n && forall i :: 0 <= i < n ==> i in Indices(out)
    ensures |ToolBlocks(out, n)| == n && ToolBlocks(out, n)[j] == ToolBlock(Collected(out, j))
  {
    if n > 1 { BlocksInOrder(out, n - 1, if j < n - 1 then j else 0); }
  }

  /** The streamed numbers are those the provider used, which are 0 to k-1. */
  lemma IndicesAreRange(chunks: seq<FlatChunk>, k: nat)
    requires forall i :: Used(AllCalls(chunks), i) <==> 0 <= i < k
    ensures Indices(Emitted(chunks)) == Range(k) && |Indices(Emitted(chunks))| == k
  {
    forall i ensures i in Indices(Emitted(chunks)) <==> i in Range(k) { IndicesAreUsed(chunks, i); }
    assert Indices(Emitted(chunks)) == Range(k);
    RangeSize(k);
  }

  lemma BlockIsCall(chunks: seq<FlatChunk>, n: nat, j: nat)
    requires j < n && Indices(Emitted(chunks)) == Range(n)
    ensures var blocks := ToolBlocks(Emitted(chunks), n);
            |blocks| == n && BlockOf(blocks[j], AllCalls(chunks), j)
  {
    BlocksInOrder(Emitted(chunks), n, j);
    CallsKeepTheirFields(chunks, j);
  }

  /**
   When the provider numbers its calls 0 to k-1, the response is the text, unless there is none,
   and then call 0 to call k-1, each in full; with neither text nor calls, it is the placeholder.
   */
  lemma ResponseFromProvider(chunks: seq<FlatChunk>, k: nat) returns (blocks: seq<Block>)
    requires forall i :: Used(AllCalls(chunks), i) <==> 0 <= i < k
    ensures |blocks| == k && forall j :: 0 <= j < k ==> BlockOf(blocks[j], AllCalls(chunks), j)
    ensures var text := InputText(chunks);
            Content(Emitted(chunks)) == if text == "" && k == 0 then [TextBlock(NO_CONTENT)]
                                        else if text == "" then blocks
                                        else [TextBlock(text)] + blocks
  {
    IndicesAreRange(chunks, k);
    NothingLostInTranslation(chunks, 0);
    blocks := ToolBlocks(Emitted(chunks), k);
    if k > 0 { BlockIsCall(chunks, k, 0); }
    forall j | 0 <= j < k ensures BlockOf(blocks[j], AllCalls(chunks), j) { BlockIsCall(chunks, k, j); }
    ComposedMeaning(InputText(chunks), blocks);
  }

  lemma ComposedMeaning(text: string, blocks: seq<Block>)
    ensures Composed(text, blocks) == if text == "" && blocks == [] then [TextBlock(NO_CONTENT)]
                                      else if text == "" then blocks
                                      else [TextBlock(text)] + blocks
  {
    assert [] + blocks == blocks;
  }

  /** The stop reason and usage of the response, from the provider's last finish reason and its calls. */
  lemma StopFromProvider(chunks: seq<FlatChunk>, usage: Usage)
    ensures var r, finish := Answer(chunks, usage), LastFinish(chunks);
            && r.usage == usage && r.content == Content(Emitted(chunks))
            && (r.stop == "max_tokens" <==> finish == "length")
            && (r.stop == "tool_use" <==> finish == "tool_calls" || (!Mapped(finish) && AnyCalls(chunks)))
            && (r.stop == "end_turn" <==> finish == "stop" || (!Mapped(finish) && !AnyCalls(chunks)))
  {
    EmittedTools(chunks);
  }
}
