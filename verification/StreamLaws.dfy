/**
 What a client reads from a stream: it does not depend on how the stream was cut into chunks, and what the
 hook synthesises is read back as the calls that it was synthesised for.
 */
module StreamLaws {
  import opened Text
  import opened Json
  import opened CanonicalArgs
  import opened ToolCallExtractor
  import opened RepeatGuard
  import opened SuccessHook
  import opened SortedKeySets
  import opened StreamingHook

  // ---- Reassembly depends on content and on each index alone ----

  ghost predicate Mentioned(tcs: seq<CallDelta>, k: int) {
    exists i | 0 <= i < |tcs| :: tcs[i].index == Some(k)
  }

  /** The last non-empty name given for an index. */
  function LastName(tcs: seq<CallDelta>, k: int): Json {
    if tcs == [] then Null
    else
      var last := tcs[|tcs| - 1];
      if last.index == Some(k) && last.function_.Some? && Truthy(last.function_.value.name) then last.function_.value.name
      else LastName(tcs[..|tcs| - 1], k)
  }

  function ArgsOf(tc: CallDelta): string {
    match tc.function_ case Some(Function(_, Some(a))) => a case _ => ""
  }

  /** All argument text given for an index, in order. */
  function AllArgs(tcs: seq<CallDelta>, k: int): string {
    if tcs == [] then ""
    else
      var last, init := tcs[|tcs| - 1], tcs[..|tcs| - 1];
      if last.index == Some(k) then AllArgs(init, k) + ArgsOf(last) else AllArgs(init, k)
  }

  /** The entries are, for each index mentioned, its last non-empty name and its concatenated arguments. */
  lemma {:induction false} EntriesExact(tcs: seq<CallDelta>, k: int)
    ensures k in FoldCalls(tcs) <==> Mentioned(tcs, k)
    ensures k in FoldCalls(tcs) ==> FoldCalls(tcs)[k] == Entry(LastName(tcs, k), AllArgs(tcs, k))
    ensures !Mentioned(tcs, k) ==> LastName(tcs, k) == Null && AllArgs(tcs, k) == ""
  {
    if tcs != [] {
      var n := |tcs| - 1;
      EntriesExact(tcs[..n], k);
      assert Mentioned(tcs, k) <==> Mentioned(tcs[..n], k) || tcs[n].index == Some(k) by {
        if Mentioned(tcs[..n], k) {
          var i :| 0 <= i < n && tcs[..n][i].index == Some(k);
          assert tcs[i].index == Some(k);
        }
        if Mentioned(tcs, k) && tcs[n].index != Some(k) {
          var i :| 0 <= i < |tcs| && tcs[i].index == Some(k);
          assert tcs[..n][i].index == Some(k);
        }
      }
    }
  }

  function CallsOfStream(chunks: seq<Chunk>): seq<CallDelta> {
    ChoiceCalls(AllChoices(chunks))
  }

  /**
   However a stream is cut into chunks, argument pieces and interleaved indices: with the same content, the
   same indices, and for each index the same last name and the same argument text, the hook decides the same.
   */
  lemma {:induction false} ChunkingInvariance(threshold: int, history: seq<Message>, a: seq<Chunk>, b: seq<Chunk>)
    requires Content(a) == Content(b)
    requires forall k ::
               && (Mentioned(CallsOfStream(a), k) <==> Mentioned(CallsOfStream(b), k))
               && LastName(CallsOfStream(a), k) == LastName(CallsOfStream(b), k)
               && AllArgs(CallsOfStream(a), k) == AllArgs(CallsOfStream(b), k)
    ensures NativeEntries(a) == NativeEntries(b)
    ensures Decide(threshold, history, Content(a), NativeEntries(a)) == Decide(threshold, history, Content(b), NativeEntries(b))
  {
    forall k
      ensures k in NativeEntries(a) <==> k in NativeEntries(b)
      ensures k in NativeEntries(a) ==> NativeEntries(a)[k] == NativeEntries(b)[k]
    {
      EntriesExact(CallsOfStream(a), k);
      EntriesExact(CallsOfStream(b), k);
    }
    assert NativeEntries(a) == NativeEntries(b);
  }

  lemma {:induction false} SameBehind(a: seq<CallDelta>, b: seq<CallDelta>, rest: seq<CallDelta>)
    requires FoldCalls(a) == FoldCalls(b)
    ensures FoldCalls(a + rest) == FoldCalls(b + rest)
  {
    hide AddCall, FoldCalls;
    if rest == [] {
      assert a + rest == a && b + rest == b;
    } else {
      var init, last := rest[..|rest| - 1], rest[|rest| - 1];
      SameBehind(a, b, init);
      FoldAppend(a + init, last);
      FoldAppend(b + init, last);
      assert a + rest == a + init + [last] && b + rest == b + init + [last];
    }
  }

  /** Deltas of different indices may be interleaved either way. */
  lemma {:induction false} InterleavingInvariance(before: seq<CallDelta>, p: CallDelta, q: CallDelta, rest: seq<CallDelta>)
    requires p.index != q.index
    ensures FoldCalls(before + [p, q] + rest) == FoldCalls(before + [q, p] + rest)
  {
    assert before + [p, q] == before + [p] + [q] && before + [q, p] == before + [q] + [p];
    FoldAppend(before, p);
    FoldAppend(before + [p], q);
    FoldAppend(before, q);
    FoldAppend(before + [q], p);
    SameBehind(before + [p, q], before + [q, p], rest);
  }

  /** Argument text may be cut in two anywhere. */
  lemma {:induction false} SplitInvariance(before: seq<CallDelta>, k: int, name: Json, x: string, y: string, rest: seq<CallDelta>)
    ensures FoldCalls(before + [CallDelta(Some(k), Some(Function(name, Some(x + y))))] + rest)
         == FoldCalls(before + [CallDelta(Some(k), Some(Function(name, Some(x)))),
                                CallDelta(Some(k), Some(Function(Null, Some(y))))] + rest)
  {
    var whole := CallDelta(Some(k), Some(Function(name, Some(x + y))));
    var p, q := CallDelta(Some(k), Some(Function(name, Some(x)))), CallDelta(Some(k), Some(Function(Null, Some(y))));
    assert before + [p, q] == before + [p] + [q];
    FoldAppend(before, whole);
    FoldAppend(before, p);
    FoldAppend(before + [p], q);
    var entries := FoldCalls(before);
    var args := if k in entries then entries[k].args else "";
    Assoc(args, x, y);
    SameBehind(before + [whole], before + [p, q], rest);
  }

  // ---- What a client reads from a stream ----

  function LastFinish(choices: seq<StreamChoice>): Option<string> {
    if choices == [] then None
    else if choices[|choices| - 1].finish.Some? then choices[|choices| - 1].finish
    else LastFinish(choices[..|choices| - 1])
  }

  function EntryCalls(native: Entries): seq<ToolCall> {
    var keys, calls := SortedKeys(native.Keys), Assembled(native);
    seq(|keys|, i requires 0 <= i < |keys| => ToolCall(keys[i], calls[i].name, calls[i].args))
  }

  /** The message that a client puts together from a stream, with the hook's own way of joining deltas. */
  function Assemble(chunks: seq<Chunk>): Reply {
    Reply(NonEmpty(Some(Content(chunks))), EntryCalls(NativeEntries(chunks)), LastFinish(AllChoices(chunks)))
  }

  lemma {:induction false} EntryCallsNative(native: Entries)
    ensures Native(EntryCalls(native)) == Assembled(native)
  {
  }

  /** Streaming prefers the calls embedded in the content over native ones. */
  function Preferred(r: Reply): Reply {
    if Extract(r.content).0 != [] then r.(calls := []) else r
  }

  lemma {:induction false} ExtractNothing()
    ensures Extract(Some("")).0 == [] && Extract(None).0 == []
  {
  }

  lemma {:induction false} SameDecision(threshold: int, history: seq<Message>, chunks: seq<Chunk>)
    ensures var r := Assemble(chunks);
            && Extract(r.content).0 == Extract(Some(Content(chunks))).0
            && CallsOf(Preferred(r)) == if Extract(r.content).0 != [] then Extract(r.content).0 else Assembled(NativeEntries(chunks))
  {
    ExtractNothing();
    EntryCallsNative(NativeEntries(chunks));
  }

  // ---- Rewritten chunks ----

  function DeltaCount(choices: seq<StreamChoice>): nat {
    if choices == [] then 0
    else DeltaCount(choices[..|choices| - 1]) + if choices[|choices| - 1].delta.Some? then 1 else 0
  }

  function Times<T>(s: seq<T>, n: nat): seq<T> {
    if n == 0 then [] else Times(s, n - 1) + s
  }

  function TextIn(d: Delta): string {
    match d.content case Some(text) => text case None => ""
  }

  lemma {:induction false} TimesEmpty<T>(n: nat)
    ensures Times<T>([], n) == []
  {
    if n > 0 {
      TimesEmpty<T>(n - 1);
    }
  }

  lemma {:induction false} RewrittenLast(c: Chunk, delta: Delta, finish: Option<string>)
    requires c.choices != []
    ensures var n := |c.choices| - 1;
            && Rewritten(c, delta, finish).choices
            == Rewritten(Chunk(c.choices[..n]), delta, finish).choices
               + [StreamChoice(if c.choices[n].delta.Some? then Some(delta) else None, finish)]
  {
  }

  lemma {:induction false} LastFinishAppend(a: seq<StreamChoice>, x: StreamChoice)
    ensures LastFinish(a + [x]) == if x.finish.Some? then x.finish else LastFinish(a)
  {
    assert (a + [x])[..|a|] == a;
  }

  lemma {:induction false} NothingRewritten(c: Chunk, delta: Delta, finish: Option<string>)
    requires c.choices == []
    ensures var r := Rewritten(c, delta, finish).choices;
            && ChoiceCalls(r) == [] && ChoiceContent(r) == "" && LastFinish(r).None? && DeltaCount(c.choices) == 0
  {
  }

  /** A rewritten chunk carries its delta once for every choice that had one. */
  lemma {:induction false} RewrittenChoices(c: Chunk, delta: Delta, finish: Option<string>)
    ensures ChoiceCalls(Rewritten(c, delta, finish).choices) == Times(delta.calls, DeltaCount(c.choices))
    ensures ChoiceContent(Rewritten(c, delta, finish).choices) == Times(TextIn(delta), DeltaCount(c.choices))
    ensures LastFinish(Rewritten(c, delta, finish).choices) == if c.choices == [] then None else finish
    decreases |c.choices|
  {
    hide Rewritten, ChoiceCalls, ChoiceContent, LastFinish;
    if c.choices == [] {
      NothingRewritten(c, delta, finish);
    } else {
      var n := |c.choices| - 1;
      var init := Chunk(c.choices[..n]);
      var r := Rewritten(init, delta, finish).choices;
      var x := StreamChoice(if c.choices[n].delta.Some? then Some(delta) else None, finish);
      RewrittenLast(c, delta, finish);
      RewrittenChoices(init, delta, finish);
      ChoicesAppend(r, x);
      LastFinishAppend(r, x);
      NothingAppended(ChoiceContent(r), ChoiceCalls(r));
    }
  }

  lemma {:induction false} NoChoices()
    ensures ChoiceCalls([]) == [] && ChoiceContent([]) == "" && LastFinish([]).None?
  {
  }

  lemma {:induction false} ChoicesConcat(a: seq<StreamChoice>, b: seq<StreamChoice>)
    ensures ChoiceCalls(a + b) == ChoiceCalls(a) + ChoiceCalls(b)
    ensures ChoiceContent(a + b) == ChoiceContent(a) + ChoiceContent(b)
    ensures LastFinish(a + b) == if LastFinish(b).Some? then LastFinish(b) else LastFinish(a)
  {
    hide *;
    if b == [] {
      NoChoices();
      assert a + b == a && ChoiceCalls(a) + [] == ChoiceCalls(a) && ChoiceContent(a) + "" == ChoiceContent(a);
    } else {
      var init, last := b[..|b| - 1], b[|b| - 1];
      ChoicesConcat(a, init);
      assert a + b == (a + init) + [last] && b == init + [last];
      ChoicesAppend(a + init, last);
      ChoicesAppend(init, last);
      LastFinishAppend(a + init, last);
      LastFinishAppend(init, last);
      Assoc(ChoiceCalls(a), ChoiceCalls(init), match last.delta case Some(d) => d.calls case None => []);
      Assoc(ChoiceContent(a), ChoiceContent(init), match last.delta case Some(Delta(_, Some(text), _)) => text case _ => "");
    }
  }

  lemma {:induction false} AllChoicesAppend(chunks: seq<Chunk>, c: Chunk)
    ensures AllChoices(chunks + [c]) == AllChoices(chunks) + c.choices
  {
    assert (chunks + [c])[..|chunks|] == chunks;
  }

  // ---- The synthesised stream ----

  function DeltaOf(calls: seq<Call>, i: nat): CallDelta
    requires i < |calls|
  {
    CallDelta(Some(i), Some(Function(calls[i].name, Some(ArgsText(calls[i].args)))))
  }

  /** The call deltas of the first `k` calls, each `m` times. */
  function DeltasOf(calls: seq<Call>, m: nat, k: nat): seq<CallDelta>
    requires k <= |calls|
  {
    if k == 0 then [] else DeltasOf(calls, m, k - 1) + Times([DeltaOf(calls, k - 1)], m)
  }

  /** No call, no content and no finish reason. */
  predicate Silent(choices: seq<StreamChoice>) {
    ChoiceCalls(choices) == [] && ChoiceContent(choices) == "" && LastFinish(choices).None?
  }

  lemma {:induction false} RewrittenSilent(c: Chunk, role: Option<string>, finish: Option<string>)
    ensures var r := Rewritten(c, Delta(role, None, []), finish).choices;
            && ChoiceCalls(r) == [] && ChoiceContent(r) == "" && LastFinish(r) == if c.choices == [] then None else finish
  {
    hide Rewritten, ChoiceCalls, ChoiceContent, LastFinish;
    RewrittenChoices(c, Delta(role, None, []), finish);
    TimesEmpty<CallDelta>(DeltaCount(c.choices));
    TimesEmpty<char>(DeltaCount(c.choices));
  }

  lemma {:induction false} CallChunkRead(template: Chunk, calls: seq<Call>, k: nat)
    requires k < |calls|
    ensures var r := CallChunk(template, k, calls[k]).choices;
            && ChoiceCalls(r) == Times([DeltaOf(calls, k)], DeltaCount(template.choices))
            && ChoiceContent(r) == "" && LastFinish(r).None?
  {
    hide Rewritten, ChoiceCalls, ChoiceContent, LastFinish;
    RewrittenChoices(template, Delta(None, None, [DeltaOf(calls, k)]), None);
    TimesEmpty<char>(DeltaCount(template.choices));
  }

  lemma {:induction false} CallChunksStep(template: Chunk, calls: seq<Call>, head: seq<Chunk>, k: nat)
    requires k < |calls|
    ensures |CallChunks(template, calls)| == |calls|
    ensures head + CallChunks(template, calls)[..k + 1]
         == (head + CallChunks(template, calls)[..k]) + [CallChunk(template, k, calls[k])]
  {
    hide CallChunk;
  }

  lemma {:induction false} CallChunksRead(template: Chunk, calls: seq<Call>, head: seq<Chunk>, k: nat)
    requires k <= |calls| && Silent(AllChoices(head))
    ensures |CallChunks(template, calls)| == |calls|
    ensures var all := AllChoices(head + CallChunks(template, calls)[..k]);
            && ChoiceCalls(all) == DeltasOf(calls, DeltaCount(template.choices), k)
            && ChoiceContent(all) == "" && LastFinish(all).None?
  {
    hide CallChunk, ChoiceCalls, ChoiceContent, LastFinish, AllChoices;
    if k == 0 {
      assert head + CallChunks(template, calls)[..0] == head;
    } else {
      hide CallChunks;
      CallChunksRead(template, calls, head, k - 1);
      CallChunksStep(template, calls, head, k - 1);
      CallChunkRead(template, calls, k - 1);
      var before, c := head + CallChunks(template, calls)[..k - 1], CallChunk(template, k - 1, calls[k - 1]);
      AllChoicesAppend(before, c);
      ChoicesConcat(AllChoices(before), c.choices);
    }
  }

  lemma {:induction false} AllChoicesOne(c: Chunk)
    ensures AllChoices([c]) == c.choices
  {
    assert [c][..0] == [];
  }

  lemma {:induction false} AllChoicesConcat(a: seq<Chunk>, b: seq<Chunk>)
    ensures AllChoices(a + b) == AllChoices(a) + AllChoices(b)
  {
    if b == [] {
      assert a + b == a;
    } else {
      var init, last := b[..|b| - 1], b[|b| - 1];
      AllChoicesConcat(a, init);
      assert a + b == (a + init) + [last];
      AllChoicesAppend(a + init, last);
      Assoc(AllChoices(a), AllChoices(init), last.choices);
    }
  }

  /**
   What the hook reads, part by part: content and call deltas of every choice of every chunk, one behind the other. A
   choice without delta adds nothing.
   */
  lemma {:induction false} ReadByParts(a: seq<Chunk>, b: seq<Chunk>, xs: seq<StreamChoice>, ys: seq<StreamChoice>, d: Delta,
                                       finish: Option<string>)
    ensures Content([]) == "" && CallsOfStream([]) == []
    ensures Content(a + b) == Content(a) + Content(b) && CallsOfStream(a + b) == CallsOfStream(a) + CallsOfStream(b)
    ensures Content([Chunk(xs + ys)]) == Content([Chunk(xs)]) + Content([Chunk(ys)])
    ensures CallsOfStream([Chunk(xs + ys)]) == CallsOfStream([Chunk(xs)]) + CallsOfStream([Chunk(ys)])
    ensures Content([Chunk([StreamChoice(Some(d), finish)])]) == if d.content.Some? then d.content.value else ""
    ensures CallsOfStream([Chunk([StreamChoice(Some(d), finish)])]) == d.calls
    ensures Content([Chunk([StreamChoice(None, finish)])]) == "" && CallsOfStream([Chunk([StreamChoice(None, finish)])]) == []
  {
    hide AllChoices, ChoiceContent, ChoiceCalls, LastFinish;
    NoChunks();
    NoChoices();
    AllChoicesConcat(a, b);
    ChoicesConcat(AllChoices(a), AllChoices(b));
    AllChoicesOne(Chunk(xs + ys));
    AllChoicesOne(Chunk(xs));
    AllChoicesOne(Chunk(ys));
    ChoicesConcat(xs, ys);
    AllChoicesOne(Chunk([StreamChoice(Some(d), finish)]));
    AllChoicesOne(Chunk([StreamChoice(None, finish)]));
    OneChoice(StreamChoice(Some(d), finish));
    OneChoice(StreamChoice(None, finish));
  }

  lemma {:induction false} NoChunks()
    ensures AllChoices([]) == []
  {
  }

  lemma {:induction false} OneChoice(x: StreamChoice)
    ensures ChoiceContent([x]) == if x.delta.Some? && x.delta.value.content.Some? then x.delta.value.content.value else ""
    ensures ChoiceCalls([x]) == if x.delta.Some? then x.delta.value.calls else []
  {
    ChoicesAppend([], x);
    NoChoices();
    assert [] + [x] == [x];
  }

  /** What a client reads from the stream synthesised for some calls. */
  lemma {:induction false} CallStreamRead(first: Chunk, last: Chunk, calls: seq<Call>)
    ensures var out := CallStream(first, last, calls);
            && CallsOfStream(out) == DeltasOf(calls, DeltaCount(first.choices), |calls|)
            && Content(out) == ""
            && LastFinish(AllChoices(out)) == if last.choices == [] then None else Some("tool_calls")
  {
    hide Rewritten, CallChunks, ChoiceCalls, ChoiceContent, LastFinish, AllChoices, DeltasOf, DeltaCount;
    var h := Rewritten(first, Delta(Some("assistant"), None, []), None);
    var t := Rewritten(last, Delta(None, None, []), Some("tool_calls"));
    var middle := CallChunks(first, calls);
    AllChoicesOne(h);
    RewrittenSilent(first, Some("assistant"), None);
    CallChunksRead(first, calls, [h], |calls|);
    assert middle[..|calls|] == middle;
    AllChoicesAppend([h] + middle, t);
    RewrittenSilent(last, None, Some("tool_calls"));
    NothingAppended("", ChoiceCalls(AllChoices([h] + middle)));
    ChoicesConcat(AllChoices([h] + middle), t.choices);
  }

  /** Names are kept if they are truthy: the fold ignores any other name. */
  function KeptName(name: Json): Json {
    if Truthy(name) then name else Null
  }

  /** The guard does not notice: to it a missing name and an empty one are the same. */
  lemma {:induction false} KeptSignature(name: Json, args: Json)
    ensures SignatureOf(KeptName(name), args) == SignatureOf(name, args)
  {
    hide Canonical;
  }

  function EntriesOf(calls: seq<Call>, m: nat, k: nat): Entries
    requires k <= |calls|
  {
    map i: int | 0 <= i < k :: Entry(KeptName(calls[i].name), Times(ArgsText(calls[i].args), m))
  }

  lemma {:induction false} AddAgain(native: Entries, k: int, name: Json, args: string, m: nat)
    requires m >= 1
    ensures var tc := CallDelta(Some(k), Some(Function(name, Some(args))));
            && AddCall(native[k := Entry(KeptName(name), Times(args, m))], tc)
            == native[k := Entry(KeptName(name), Times(args, m + 1))]
            && (k !in native ==> AddCall(native, tc) == native[k := Entry(KeptName(name), Times(args, 1))])
  {
    assert Times(args, 0) == "";
  }

  lemma {:induction false} TimesStep<T>(s: seq<T>, m: nat)
    requires m >= 1
    ensures Times(s, m) == Times(s, m - 1) + s && (m == 1 ==> Times(s, m - 1) == [])
  {
  }

  lemma {:induction false} FoldTimes(before: seq<CallDelta>, k: int, name: Json, args: string, m: nat)
    requires k !in FoldCalls(before) && m >= 1
    ensures FoldCalls(before + Times([CallDelta(Some(k), Some(Function(name, Some(args))))], m))
         == FoldCalls(before)[k := Entry(KeptName(name), Times(args, m))]
    decreases m
  {
    hide FoldCalls, AddCall, Times;
    var tc := CallDelta(Some(k), Some(Function(name, Some(args))));
    var rest := Times([tc], m - 1);
    TimesStep([tc], m);
    Assoc(before, rest, [tc]);
    FoldAppend(before + rest, tc);
    if m == 1 {
      assert rest == [] && before + [] == before;
      AddAgain(FoldCalls(before), k, name, args, 1);
    } else {
      FoldTimes(before, k, name, args, m - 1);
      AddAgain(FoldCalls(before), k, name, args, m - 1);
    }
  }

  lemma {:induction false} EntriesStep(calls: seq<Call>, m: nat, k: nat)
    requires 0 < k <= |calls|
    ensures k - 1 !in EntriesOf(calls, m, k - 1)
    ensures EntriesOf(calls, m, k)
         == EntriesOf(calls, m, k - 1)[k - 1 := Entry(KeptName(calls[k - 1].name), Times(ArgsText(calls[k - 1].args), m))]
  {
  }

  lemma {:induction false} FoldDeltas(calls: seq<Call>, m: nat, k: nat)
    requires k <= |calls|
    ensures FoldCalls(DeltasOf(calls, m, k)) == if m == 0 then map[] else EntriesOf(calls, m, k)
    decreases k
  {
    if k == 0 {
      assert EntriesOf(calls, m, 0) == map[];
    } else {
      FoldDeltas(calls, m, k - 1);
      var before := DeltasOf(calls, m, k - 1);
      if m == 0 {
        assert before + Times([DeltaOf(calls, k - 1)], 0) == before;
      } else {
        EntriesStep(calls, m, k);
        FoldTimes(before, k - 1, calls[k - 1].name, ArgsText(calls[k - 1].args), m);
      }
    }
  }

  /** The calls as they are read back from `m` copies of each: none, or the arguments of each call `m` times over. */
  function ReadBack(calls: seq<Call>, m: nat): seq<Call> {
    if m == 0 then []
    else seq(|calls|, i requires 0 <= i < |calls| => Call(KeptName(calls[i].name), Str(Times(ArgsText(calls[i].args), m))))
  }

  lemma {:induction false} EntryKeys(calls: seq<Call>, m: nat)
    ensures SortedKeys(EntriesOf(calls, m, |calls|).Keys) == UpFrom(0, |calls|)
  {
    hide SortedKeys, UpFrom, Range, KeptName, Times;
    var native := EntriesOf(calls, m, |calls|);
    forall k: int
      ensures k in native.Keys <==> k in Range(0, |calls|)
    {
      InRange(0, |calls|, k);
    }
    assert native.Keys == Range(0, |calls|);
    SortedRange(0, |calls|);
  }

  lemma {:induction false} EntriesInOrder(calls: seq<Call>, m: nat)
    requires m >= 1
    ensures EntryCalls(EntriesOf(calls, m, |calls|)) == Numbered(ReadBack(calls, m))
    ensures Assembled(EntriesOf(calls, m, |calls|)) == ReadBack(calls, m)
  {
    hide SortedKeys, KeptName, Times;
    EntryKeys(calls, m);
  }

  lemma {:induction false} TimesOnce<T>(s: seq<T>)
    ensures Times(s, 1) == s
  {
    assert Times(s, 0) == [];
  }

  /** The entries of a synthesised stream, as calls. */
  lemma {:induction false} SynthesizedEntries(first: Chunk, last: Chunk, calls: seq<Call>)
    ensures var native := NativeEntries(CallStream(first, last, calls));
            && EntryCalls(native) == Numbered(ReadBack(calls, DeltaCount(first.choices)))
            && Assembled(native) == ReadBack(calls, DeltaCount(first.choices))
  {
    hide CallStream, FoldCalls, DeltasOf, EntriesOf, DeltaCount, EntryCalls, Assembled, ReadBack, Numbered;
    var m := DeltaCount(first.choices);
    CallStreamRead(first, last, calls);
    FoldDeltas(calls, m, |calls|);
    if m == 0 {
      NothingReadBack(calls);
    } else {
      EntriesInOrder(calls, m);
    }
  }

  lemma {:induction false} NothingReadBack(calls: seq<Call>)
    ensures ReadBack(calls, 0) == [] && Numbered([]) == [] && EntryCalls(map[]) == [] && Assembled(map[]) == []
  {
  }

  /** What a client reads from the stream synthesised for some calls. */
  lemma {:induction false} SynthesizedRead(first: Chunk, last: Chunk, calls: seq<Call>)
    ensures Assemble(CallStream(first, last, calls))
         == Reply(None, Numbered(ReadBack(calls, DeltaCount(first.choices))),
                  if last.choices == [] then None else Some("tool_calls"))
  {
    hide CallStream, DeltaCount, EntryCalls, ReadBack, Numbered, NativeEntries, LastFinish, AllChoices;
    SynthesizedEntries(first, last, calls);
    CallStreamRead(first, last, calls);
  }

  // ---- A client that reads one choice ----

  /** A chunk with one of its choices only. */
  function At(c: Chunk, i: nat): Chunk {
    Chunk(if i < |c.choices| then [c.choices[i]] else [])
  }

  /** What a client sees that follows one choice. */
  function Only(chunks: seq<Chunk>, i: nat): seq<Chunk> {
    seq(|chunks|, k requires 0 <= k < |chunks| => At(chunks[k], i))
  }

  lemma {:induction false} RewrittenAt(c: Chunk, d: Delta, finish: Option<string>, i: nat)
    ensures At(Rewritten(c, d, finish), i) == Rewritten(At(c, i), d, finish)
  {
  }

  lemma {:induction false} OnlyConcat(a: seq<Chunk>, b: seq<Chunk>, i: nat)
    ensures Only(a + b, i) == Only(a, i) + Only(b, i)
  {
    hide At;
  }

  lemma {:induction false} OnlyCalls(template: Chunk, calls: seq<Call>, i: nat)
    ensures Only(CallChunks(template, calls), i) == CallChunks(At(template, i), calls)
  {
    hide At, Rewritten;
    forall k | 0 <= k < |calls|
      ensures At(CallChunk(template, k, calls[k]), i) == CallChunk(At(template, i), k, calls[k])
    {
      RewrittenAt(template, Delta(None, None, [DeltaOf(calls, k)]), None, i);
    }
  }

  lemma {:induction false} OnlyOne(c: Chunk, i: nat)
    ensures Only([c], i) == [At(c, i)]
  {
  }

  /** To a client of one choice the synthesised stream is the one synthesised for that choice alone. */
  lemma {:induction false} OnlyCallStream(first: Chunk, last: Chunk, calls: seq<Call>, i: nat)
    ensures Only(CallStream(first, last, calls), i) == CallStream(At(first, i), At(last, i), calls)
  {
    hide At, Rewritten, CallChunks, Only;
    var h := Rewritten(first, Delta(Some("assistant"), None, []), None);
    var t := Rewritten(last, Delta(None, None, []), Some("tool_calls"));
    OnlyConcat([h] + CallChunks(first, calls), [t], i);
    OnlyConcat([h], CallChunks(first, calls), i);
    OnlyOne(h, i);
    OnlyOne(t, i);
    OnlyCalls(first, calls, i);
    RewrittenAt(first, Delta(Some("assistant"), None, []), None, i);
    RewrittenAt(last, Delta(None, None, []), Some("tool_calls"), i);
  }

  /** However many choices there are, a client of one choice reads every call once. */
  lemma {:induction false} OneChoiceRead(first: Chunk, last: Chunk, calls: seq<Call>, i: nat)
    requires i < |first.choices| && first.choices[i].delta.Some?
    ensures Assemble(Only(CallStream(first, last, calls), i))
         == Reply(None, Numbered(ReadBack(calls, 1)), if i < |last.choices| then Some("tool_calls") else None)
  {
    hide CallStream, Only, Assemble, ReadBack, Numbered;
    OnlyCallStream(first, last, calls, i);
    var one := At(first, i);
    assert one.choices[..0] == [] && DeltaCount(one.choices[..0]) == 0 && DeltaCount(one.choices) == 1;
    SynthesizedRead(one, At(last, i), calls);
  }

  // ---- The blocked stream ----

  /** Content, entries and finish reason of a blocked stream: the text once for every delta of the first chunk. */
  lemma {:induction false} StopStreamParts(text: string, chunks: seq<Chunk>)
    requires chunks != []
    ensures var out := StopStream(text, chunks);
            && Content(out) == Times(text, DeltaCount(chunks[0].choices)) && NativeEntries(out) == map[]
            && LastFinish(AllChoices(out)) == if chunks[0].choices == [] then None else Some("stop")
  {
    hide Rewritten, ChoiceCalls, ChoiceContent, LastFinish, AllChoices, DeltaCount, Times;
    var d := Delta(Some("assistant"), Some(text), []);
    RewrittenChoices(chunks[0], d, Some("stop"));
    TimesEmpty<CallDelta>(DeltaCount(chunks[0].choices));
    AllChoicesOne(Rewritten(chunks[0], d, Some("stop")));
  }

  /** What a client reads from a blocked stream. */
  lemma {:induction false} StopStreamRead(text: string, chunks: seq<Chunk>)
    requires chunks != []
    ensures Assemble(StopStream(text, chunks))
         == Reply(NonEmpty(Some(Times(text, DeltaCount(chunks[0].choices)))), [],
                  if chunks[0].choices == [] then None else Some("stop"))
  {
    hide StopStream, DeltaCount, Times, LastFinish, Content, NativeEntries, AllChoices, EntryCalls;
    StopStreamParts(text, chunks);
    NothingReadBack([]);
  }

  lemma {:induction false} KeysRemain(native: Entries)
    ensures EntryCalls(native) == [] ==> native == map[]
  {
    if EntryCalls(native) == [] {
      assert forall k :: k !in native.Keys;
      assert native == map[];
    }
  }

  /** Only a stream that makes a call is blocked, and such a stream has chunks. */
  lemma {:induction false} StopReason(threshold: int, history: seq<Message>, chunks: seq<Chunk>, text: string)
    requires Decide(threshold, history, Content(chunks), NativeEntries(chunks)) == Stop(text)
    ensures chunks != [] && text != ""
    ensures exists name, n :: text == GuardText(name, n)
  {
    hide Extract, Content, CountRecent, SignatureOf;
    ContentNeedsChunks(chunks);
    assert chunks == [] ==> NativeEntries(chunks) == map[];
  }

  /** Text repeated `m` times is the same text iff it is there once, or empty. */
  lemma {:induction false} TimesSame(s: string, m: nat)
    ensures |Times(s, m)| >= 0 && (m >= 1 ==> |Times(s, m)| >= |s|)
    ensures m >= 2 && s != "" ==> |Times(s, m)| > |s|
    ensures Times(s, m) == s <==> m == 1 || s == ""
  {
    if m == 1 {
      TimesOnce(s);
    } else if m >= 2 {
      TimesSame(s, m - 1);
      if s == "" {
        TimesEmpty<char>(m);
      }
    }
  }
}
