/**
 The hook for streamed responses: it buffers the stream, reassembles content and native calls, and then
 synthesises a stream of proper tool calls, blocks, or passes the chunks through.
 */
module StreamingHook {
  import opened Text
  import opened Json
  import opened ToolCallExtractor
  import opened RepeatGuard
  import opened SortedKeySets

  // ---- Streams ----

  datatype Function = Function(name: Json, args: Option<string>)
  datatype CallDelta = CallDelta(index: Option<int>, function_: Option<Function>)
  datatype Delta = Delta(role: Option<string>, content: Option<string>, calls: seq<CallDelta>)
  datatype StreamChoice = StreamChoice(delta: Option<Delta>, finish: Option<string>)
  datatype Chunk = Chunk(choices: seq<StreamChoice>)

  /** What has been collected for one call index. */
  datatype Entry = Entry(name: Json, args: string)

  type Entries = map<int, Entry>

  // ---- Reassembly ----

  function Update(entry: Entry, f: Option<Function>): Entry {
    match f
    case None => entry
    case Some(Function(name, args)) =>
      Entry(if Truthy(name) then name else entry.name, entry.args + match args case Some(a) => a case None => "")
  }

  function AddCall(native: Entries, tc: CallDelta): Entries {
    match tc.index
    case None => native
    case Some(idx) => native[idx := Update(if idx in native then native[idx] else Entry(Null, ""), tc.function_)]
  }

  function FoldCalls(tcs: seq<CallDelta>): Entries {
    if tcs == [] then map[] else AddCall(FoldCalls(tcs[..|tcs| - 1]), tcs[|tcs| - 1])
  }

  /** The call deltas of a list of choices, in order. */
  function ChoiceCalls(choices: seq<StreamChoice>): seq<CallDelta> {
    if choices == [] then []
    else
      ChoiceCalls(choices[..|choices| - 1])
      + match choices[|choices| - 1].delta case Some(d) => d.calls case None => []
  }

  function ChoiceContent(choices: seq<StreamChoice>): string {
    if choices == [] then ""
    else
      ChoiceContent(choices[..|choices| - 1])
      + match choices[|choices| - 1].delta case Some(Delta(_, Some(text), _)) => text case _ => ""
  }

  function AllChoices(chunks: seq<Chunk>): seq<StreamChoice> {
    if chunks == [] then [] else AllChoices(chunks[..|chunks| - 1]) + chunks[|chunks| - 1].choices
  }

  function Content(chunks: seq<Chunk>): string {
    ChoiceContent(AllChoices(chunks))
  }

  function NativeEntries(chunks: seq<Chunk>): Entries {
    FoldCalls(ChoiceCalls(AllChoices(chunks)))
  }

  function Assembled(native: Entries): seq<Call> {
    var keys := SortedKeys(native.Keys);
    seq(|keys|, i requires 0 <= i < |keys| => CallAt(native, keys[i]))
  }

  function CallAt(native: Entries, k: int): Call {
    if k in native then Call(native[k].name, Str(native[k].args)) else Call(Null, Str(""))
  }

  // ---- What is emitted ----

  /** A copy of a chunk with every delta and every finish reason replaced. */
  function Rewritten(c: Chunk, delta: Delta, finish: Option<string>): Chunk {
    Chunk(seq(|c.choices|, i requires 0 <= i < |c.choices| =>
      StreamChoice(if c.choices[i].delta.Some? then Some(delta) else None, finish)))
  }

  function StopStream(text: string, chunks: seq<Chunk>): seq<Chunk> {
    if chunks == [] then []
    else [Rewritten(chunks[0], Delta(Some("assistant"), Some(text), []), Some("stop"))]
  }

  function ArgsText(args: Json): string {
    match args case Str(s) => s case _ => ""
  }

  function CallChunk(template: Chunk, idx: nat, call: Call): Chunk {
    Rewritten(template, Delta(None, None, [CallDelta(Some(idx), Some(Function(call.name, Some(ArgsText(call.args)))))]), None)
  }

  function CallChunks(template: Chunk, calls: seq<Call>): seq<Chunk> {
    seq(|calls|, i requires 0 <= i < |calls| => CallChunk(template, i, calls[i]))
  }

  function CallStream(first: Chunk, last: Chunk, calls: seq<Call>): seq<Chunk> {
    [Rewritten(first, Delta(Some("assistant"), None, []), None)]
    + CallChunks(first, calls)
    + [Rewritten(last, Delta(None, None, []), Some("tool_calls"))]
  }

  /** What the hook decides from the reassembled content and native calls. */
  datatype Decision = Stop(text: string) | Synthesize(calls: seq<Call>) | PassThrough

  function DecideOn(threshold: int, history: seq<Message>, embedded: seq<Call>, assembled: seq<Call>): Decision {
    var verdict := GuardVerdict(threshold, history, if embedded != [] then embedded else assembled);
    if verdict.Some? then Stop(verdict.value)
    else if embedded != [] then Synthesize(embedded)
    else PassThrough
  }

  function Decide(threshold: int, history: seq<Message>, content: string, native: Entries): Decision {
    DecideOn(threshold, history, Extract(Some(content)).0, Assembled(native))
  }

  function Emit(decision: Decision, chunks: seq<Chunk>): seq<Chunk> {
    match decision
    case Stop(text) => StopStream(text, chunks)
    case Synthesize(calls) => if chunks == [] then [] else CallStream(chunks[0], chunks[|chunks| - 1], calls)
    case PassThrough => chunks
  }

  /** The stream that the client gets. */
  function StreamOut(threshold: int, history: seq<Message>, chunks: seq<Chunk>): seq<Chunk> {
    Emit(Decide(threshold, history, Content(chunks), NativeEntries(chunks)), chunks)
  }

  /** The roles and finish reasons that a client sees in a chunk: where there is a delta, it has this role. */
  predicate Announces(c: Chunk, role: Option<string>, finish: Option<string>) {
    forall x | x in c.choices :: x.finish == finish && (x.delta.Some? ==> x.delta.value.role == role)
  }

  lemma {:induction false} RewrittenAnnounces(c: Chunk, delta: Delta, finish: Option<string>)
    ensures Announces(Rewritten(c, delta, finish), delta.role, finish)
    ensures |Rewritten(c, delta, finish).choices| == |c.choices|
  {
  }

  /** A synthesised stream names the assistant in its first chunk only, and says why it ends in its last only. */
  lemma {:induction false} StreamAnnounced(first: Chunk, last: Chunk, calls: seq<Call>)
    ensures var out := CallStream(first, last, calls);
            && |out| == |calls| + 2
            && Announces(out[0], Some("assistant"), None)
            && (forall k | 1 <= k <= |calls| :: Announces(out[k], None, None))
            && Announces(out[|calls| + 1], None, Some("tool_calls"))
  {
    hide Rewritten, Announces;
    RewrittenAnnounces(first, Delta(Some("assistant"), None, []), None);
    RewrittenAnnounces(last, Delta(None, None, []), Some("tool_calls"));
    var out := CallStream(first, last, calls);
    forall k | 1 <= k <= |calls|
      ensures Announces(out[k], None, None)
    {
      var call := calls[k - 1];
      assert out[k] == CallChunk(first, k - 1, call);
      RewrittenAnnounces(first, Delta(None, None, [CallDelta(Some(k - 1), Some(Function(call.name, Some(ArgsText(call.args)))))]), None);
    }
  }

  /** A blocked stream is one chunk of the assistant that says `stop`. */
  lemma {:induction false} StopAnnounced(text: string, chunks: seq<Chunk>)
    requires chunks != []
    ensures |StopStream(text, chunks)| == 1 && Announces(StopStream(text, chunks)[0], Some("assistant"), Some("stop"))
  {
    RewrittenAnnounces(chunks[0], Delta(Some("assistant"), Some(text), []), Some("stop"));
  }

  // ---- The loops ----

  lemma {:induction false} ChoicesAppend(a: seq<StreamChoice>, x: StreamChoice)
    ensures ChoiceContent(a + [x]) == ChoiceContent(a) + match x.delta case Some(Delta(_, Some(text), _)) => text case _ => ""
    ensures ChoiceCalls(a + [x]) == ChoiceCalls(a) + match x.delta case Some(d) => d.calls case None => []
  {
    assert (a + [x])[..|a|] == a;
  }

  function Concat(parts: seq<string>): string {
    if parts == [] then "" else Concat(parts[..|parts| - 1]) + parts[|parts| - 1]
  }

  lemma {:induction false} ConcatAppend(parts: seq<string>, s: string)
    ensures Concat(parts + [s]) == Concat(parts) + s
  {
    assert (parts + [s])[..|parts|] == parts;
  }

  lemma {:induction false} FoldAppend(tcs: seq<CallDelta>, tc: CallDelta)
    ensures FoldCalls(tcs + [tc]) == AddCall(FoldCalls(tcs), tc)
  {
    assert (tcs + [tc])[..|tcs|] == tcs;
  }

  lemma {:induction false} UpdateExact(entry: Entry, f: Option<Function>)
    ensures var name := if f.Some? then f.value.name else Null;
            var args := if f.Some? then f.value.args else None;
            && Update(entry, f).name == (if Truthy(name) then name else entry.name)
            && Update(entry, f).args == (if args.Some? && args.value != "" then entry.args + args.value else entry.args)
  {
    assert entry.args + "" == entry.args;
  }

  /** The inner loop: the call deltas of one choice are added to the entries. */
  method AddCallDeltas(tcs: seq<CallDelta>, ghost before: seq<CallDelta>, entries: Entries) returns (native: Entries)
    requires entries == FoldCalls(before)
    ensures native == FoldCalls(before + tcs)
  {
    native := entries;
    var i := 0;
    assert before + tcs[..0] == before;
    while i < |tcs|
      invariant i <= |tcs|
      invariant native == FoldCalls(before + tcs[..i])
    {
      var tc := tcs[i];
      assert before + tcs[..i + 1] == before + tcs[..i] + [tc];
      FoldAppend(before + tcs[..i], tc);
      i := i + 1;
      if tc.index.None? {
        continue;
      }
      var idx := tc.index.value;
      var name, args := Null, None;
      if tc.function_.Some? {
        name, args := tc.function_.value.name, tc.function_.value.args;
      }
      var entry := if idx in native then native[idx] else Entry(Null, "");
      UpdateExact(entry, tc.function_);
      if Truthy(name) {
        entry := entry.(name := name);
      }
      if args.Some? && args.value != "" {
        entry := entry.(args := entry.args + args.value);
      }
      native := native[idx := entry];
    }
    assert tcs[..i] == tcs;
  }

  /** The middle loop: content and call deltas of the choices of one chunk. */
  method AddChoices(choices: seq<StreamChoice>, ghost before: seq<StreamChoice>, parts: seq<string>, entries: Entries)
      returns (contentParts: seq<string>, native: Entries)
    requires Concat(parts) == ChoiceContent(before) && entries == FoldCalls(ChoiceCalls(before))
    ensures Concat(contentParts) == ChoiceContent(before + choices)
    ensures native == FoldCalls(ChoiceCalls(before + choices))
  {
    hide Concat, ChoiceContent, ChoiceCalls, FoldCalls;
    contentParts, native := parts, entries;
    var j := 0;
    assert before + choices[..0] == before;
    while j < |choices|
      invariant j <= |choices|
      invariant Concat(contentParts) == ChoiceContent(before + choices[..j])
      invariant native == FoldCalls(ChoiceCalls(before + choices[..j]))
    {
      ghost var sofar := before + choices[..j];
      assert before + choices[..j + 1] == sofar + [choices[j]];
      ChoicesAppend(sofar, choices[j]);
      NothingAppended(ChoiceContent(sofar), ChoiceCalls(sofar));
      var delta := choices[j].delta;
      if delta.Some? {
        var text := delta.value.content;
        if text.Some? && text.value != "" {
          ConcatAppend(contentParts, text.value);
          contentParts := contentParts + [text.value];
        }
        native := AddCallDeltas(delta.value.calls, ChoiceCalls(sofar), native);
      }
      j := j + 1;
    }
    assert choices[..j] == choices;
  }

  lemma {:induction false} NothingAppended(content: string, calls: seq<CallDelta>)
    ensures content + "" == content && calls + [] == calls
  {
  }

  /** The outer loop: content and native calls of the whole stream. */
  method Reassemble(chunks: seq<Chunk>) returns (full: string, native: Entries)
    ensures full == Content(chunks) && native == NativeEntries(chunks)
  {
    hide ChoiceContent, ChoiceCalls, FoldCalls;
    var contentParts := [];
    native := map[];
    NothingYet();
    var i := 0;
    while i < |chunks|
      invariant i <= |chunks|
      invariant Concat(contentParts) == ChoiceContent(AllChoices(chunks[..i]))
      invariant native == FoldCalls(ChoiceCalls(AllChoices(chunks[..i])))
    {
      assert chunks[..i + 1][..i] == chunks[..i];
      contentParts, native := AddChoices(chunks[i].choices, AllChoices(chunks[..i]), contentParts, native);
      i := i + 1;
    }
    assert chunks[..i] == chunks;
    full := Concat(contentParts);
  }

  lemma {:induction false} NothingYet()
    ensures ChoiceContent([]) == "" && ChoiceCalls([]) == [] && FoldCalls([]) == map[]
  {
  }

  /** Case 1, not blocked: the stream of extracted calls. */
  method SynthesizeStream(chunks: seq<Chunk>, parsedCalls: seq<Call>) returns (out: seq<Chunk>)
    requires chunks != []
    ensures out == CallStream(chunks[0], chunks[|chunks| - 1], parsedCalls)
  {
    var template := chunks[0];
    ghost var head := [Rewritten(template, Delta(Some("assistant"), None, []), None)];
    ghost var middle := CallChunks(template, parsedCalls);
    out := [Rewritten(template, Delta(Some("assistant"), None, []), None)];
    var idx := 0;
    assert head + middle[..0] == head;
    while idx < |parsedCalls|
      invariant idx <= |parsedCalls|
      invariant out == head + middle[..idx]
    {
      out := out + [CallChunk(template, idx, parsedCalls[idx])];
      assert middle[..idx + 1] == middle[..idx] + [middle[idx]];
      idx := idx + 1;
    }
    assert middle[..idx] == middle;
    out := out + [Rewritten(chunks[|chunks| - 1], Delta(None, None, []), Some("tool_calls"))];
  }

  lemma {:induction false} NoCallsNoVerdict(threshold: int, history: seq<Message>)
    ensures GuardVerdict(threshold, history, []).None? && Assembled(map[]) == []
  {
    hide CountRecent;
  }

  /** The three cases, given the calls extracted from the content and the native ones. */
  method EmitCases(threshold: int, history: seq<Message>, chunks: seq<Chunk>, parsedCalls: seq<Call>, native: Entries)
      returns (out: seq<Chunk>)
    requires parsedCalls != [] ==> chunks != []
    ensures out == Emit(DecideOn(threshold, history, parsedCalls, Assembled(native)), chunks)
  {
    hide GuardVerdict, CallStream, StopStream, Assembled;
    NoCallsNoVerdict(threshold, history);
    if parsedCalls != [] {
      var blocked := ApplyRepeatGuard(threshold, history, parsedCalls);
      if blocked.Some? {
        return StopStream(blocked.value, chunks);
      }
      out := SynthesizeStream(chunks, parsedCalls);
      return;
    }
    if native != map[] {
      var blocked := ApplyRepeatGuard(threshold, history, Assembled(native));
      if blocked.Some? {
        return StopStream(blocked.value, chunks);
      }
    }
    out := chunks;
  }

  /** `async_post_call_streaming_iterator_hook`: the chunks that are yielded, in order. */
  method StreamingIteratorHook(threshold: int, history: seq<Message>, chunks: seq<Chunk>) returns (out: seq<Chunk>)
    ensures out == StreamOut(threshold, history, chunks)
  {
    var full, native := Reassemble(chunks);
    var parsedCalls, _ := ExtractToolCalls(Some(full));
    ContentNeedsChunks(chunks);
    out := EmitCases(threshold, history, chunks, parsedCalls, native);
  }

  lemma {:induction false} ContentNeedsChunks(chunks: seq<Chunk>)
    ensures Extract(Some(Content(chunks))).0 != [] ==> chunks != []
  {
  }
}
