/**
 The two response hooks against each other: what a client reads from the streamed output, and what the hook
 for complete responses delivers for the same message.
 */
module HookAgreement {
  import opened Text
  import opened Json
  import opened ToolCallExtractor
  import opened BraceFreeText
  import opened RepeatGuard
  import opened SuccessHook
  import opened StreamingHook
  import opened StreamLaws

  predicate NamesSurvive(calls: seq<Call>) {
    forall c | c in calls :: KeptName(c.name) == c.name
  }

  /** Calls that survive being copied into `m` deltas and folded again. */
  predicate SurvivesCopies(calls: seq<Call>, m: nat) {
    calls == [] || (m >= 1 && NamesSurvive(calls) && (m == 1 || forall c | c in calls :: c.args == Str("")))
  }

  lemma {:induction false} OneReadBack(c: Call, m: nat)
    requires c.args.Str? && m >= 1
    ensures Call(KeptName(c.name), Str(Times(ArgsText(c.args), m))) == c <==>
              KeptName(c.name) == c.name && (m == 1 || c.args == Str(""))
  {
    TimesSame(c.args.s, m);
  }

  /** Numbering calls loses nothing. */
  lemma {:induction false} NumberedSame(a: seq<Call>, b: seq<Call>)
    ensures Numbered(a) == Numbered(b) <==> a == b
  {
    assert Native(Numbered(a)) == a && Native(Numbered(b)) == b;
  }

  lemma {:induction false} ReadBackSame(calls: seq<Call>, m: nat)
    requires forall c | c in calls :: c.args.Str?
    ensures ReadBack(calls, m) == calls <==> SurvivesCopies(calls, m)
  {
    hide KeptName, Times, ArgsText;
    if m >= 1 {
      forall i | 0 <= i < |calls|
        ensures ReadBack(calls, m)[i] == calls[i] <==>
                  KeptName(calls[i].name) == calls[i].name && (m == 1 || calls[i].args == Str(""))
      {
        assert calls[i] in calls;
        OneReadBack(calls[i], m);
      }
      if ReadBack(calls, m) == calls {
        forall c | c in calls
          ensures KeptName(c.name) == c.name && (m == 1 || c.args == Str(""))
        {
          var i :| 0 <= i < |calls| && calls[i] == c;
        }
      }
      if SurvivesCopies(calls, m) {
        forall i | 0 <= i < |calls|
          ensures ReadBack(calls, m)[i] == calls[i]
        {
          assert calls[i] in calls;
        }
      }
    }
  }

  /** How many deltas the first chunk has: the hook copies what it emits into every one of them. */
  function Copies(chunks: seq<Chunk>): nat {
    if chunks == [] then 0 else DeltaCount(chunks[0].choices)
  }

  function DecisionOn(threshold: int, history: seq<Message>, chunks: seq<Chunk>): Decision {
    Decide(threshold, history, Content(chunks), NativeEntries(chunks))
  }

  /** Does the chunk that carries the finish reason have a choice to put it on? */
  predicate FinishHasChoice(decision: Decision, chunks: seq<Chunk>) {
    match decision
    case Stop(_) => chunks != [] && chunks[0].choices != []
    case Synthesize(_) => chunks != [] && chunks[|chunks| - 1].choices != []
    case PassThrough => true
  }

  /**
   Exactly how far the streamed output agrees with what is delivered for the reply `r`: in the calls, in the
   finish reason, and as a whole if the reply is blocked or passed through.
   */
  ghost predicate AgreesExactly(threshold: int, history: seq<Message>, chunks: seq<Chunk>, r: Reply) {
    var decision := DecisionOn(threshold, history, chunks);
    var out := Assemble(StreamOut(threshold, history, chunks));
    var delivered := Deliver(threshold, history, r);
    && (decision.Stop? <==> Blocked(threshold, history, r))
    && (out.calls == delivered.calls <==>
          decision.Synthesize? ==> SurvivesCopies(Extract(Some(Content(chunks))).0, Copies(chunks)))
    && (out.finish == delivered.finish <==> FinishHasChoice(decision, chunks))
    && (decision.Stop? ==> (out == delivered <==> Copies(chunks) == 1))
    && (decision.PassThrough? ==> out == delivered)
  }

  /** For every stream: agreement with the hook for complete responses, on the message without calls that streaming ignores. */
  lemma {:induction false} StreamingAgrees(threshold: int, history: seq<Message>, chunks: seq<Chunk>)
    ensures AgreesExactly(threshold, history, chunks, Preferred(Assemble(chunks)))
  {
    hide Extract, GuardVerdict, Content, NativeEntries, Assembled, StopStream, CallStream, ReadBack, Numbered, EntryCalls,
         LastFinish, SurvivesCopies, DeltaCount;
    SameDecision(threshold, history, chunks);
    match DecisionOn(threshold, history, chunks)
    case Stop(text) =>
      StopReason(threshold, history, chunks, text);
      StopStreamRead(text, chunks);
      TimesSame(text, Copies(chunks));
      OneDeltaOneChoice(chunks[0]);
    case Synthesize(calls) =>
      ContentNeedsChunks(chunks);
      SynthesizedRead(chunks[0], chunks[|chunks| - 1], calls);
      ExtractedArgs(Some(Content(chunks)));
      ReadBackSame(calls, Copies(chunks));
      NumberedSame(ReadBack(calls, Copies(chunks)), calls);
    case PassThrough =>
  }

  lemma {:induction false} OneDeltaOneChoice(c: Chunk)
    ensures DeltaCount(c.choices) >= 1 ==> c.choices != []
  {
  }

  /** The two hooks on the same message, unless it makes both native calls and calls in its content. */
  lemma {:induction false} AgreesWithSuccessHook(threshold: int, history: seq<Message>, chunks: seq<Chunk>)
    requires NativeEntries(chunks) == map[] || Extract(Some(Content(chunks))).0 == []
    ensures AgreesExactly(threshold, history, chunks, Assemble(chunks))
  {
    hide Extract, Content, NativeEntries, LastFinish, AgreesExactly;
    SameDecision(threshold, history, chunks);
    StreamingAgrees(threshold, history, chunks);
    NothingReadBack([]);
    assert Preferred(Assemble(chunks)) == Assemble(chunks);
  }

  /** The first chunk has one choice, with a delta, and the last chunk has a choice. */
  predicate Regular(chunks: seq<Chunk>) {
    chunks == [] || (|chunks[0].choices| == 1 && chunks[0].choices[0].delta.Some? && chunks[|chunks| - 1].choices != [])
  }

  lemma {:induction false} RegularCount(chunks: seq<Chunk>)
    requires Regular(chunks) && chunks != []
    ensures Copies(chunks) == 1
  {
    var choices := chunks[0].choices;
    assert choices[..0] == [] && DeltaCount(choices[..0]) == 0;
  }

  /** For regular streams the hooks agree in everything but names that are empty and not null. */
  lemma {:induction false} RegularAgrees(threshold: int, history: seq<Message>, chunks: seq<Chunk>)
    requires Regular(chunks) && (NativeEntries(chunks) == map[] || Extract(Some(Content(chunks))).0 == [])
    ensures var out, delivered := Assemble(StreamOut(threshold, history, chunks)), Deliver(threshold, history, Assemble(chunks));
            && out.finish == delivered.finish
            && (Blocked(threshold, history, Assemble(chunks)) || NamesSurvive(Extract(Some(Content(chunks))).0) <==>
                  out.calls == delivered.calls)
  {
    hide Extract, Content, NativeEntries, NamesSurvive, Deliver, StreamOut, GuardVerdict, Assembled, CallsOf, Assemble;
    AgreesWithSuccessHook(threshold, history, chunks);
    ContentNeedsChunks(chunks);
    if chunks != [] {
      RegularCount(chunks);
    }
    NoCallsSurvive();
    if DecisionOn(threshold, history, chunks).Stop? {
      StopReason(threshold, history, chunks, DecisionOn(threshold, history, chunks).text);
    }
  }

  lemma {:induction false} NoCallsSurvive()
    ensures NamesSurvive([])
  {
  }

  /**
   With both native calls and calls in the content the hooks agree on calls and finish reason iff both block, or
   neither does and the calls of the content, read back, are the native ones and finish alike.
   */
  lemma {:induction false} BothKindsAgreeIff(threshold: int, history: seq<Message>, chunks: seq<Chunk>)
    requires NativeEntries(chunks) != map[] && Extract(Some(Content(chunks))).0 != []
    ensures var r, embedded := Assemble(chunks), Extract(Some(Content(chunks))).0;
            var out, delivered := Assemble(StreamOut(threshold, history, chunks)), Deliver(threshold, history, r);
            var hasChoice := FinishHasChoice(DecisionOn(threshold, history, chunks), chunks);
            out.calls == delivered.calls && out.finish == delivered.finish <==>
              && (Blocked(threshold, history, r) <==> Blocked(threshold, history, Preferred(r)))
              && if Blocked(threshold, history, r) then hasChoice
                 else Numbered(ReadBack(embedded, Copies(chunks))) == r.calls
                      && r.finish == if hasChoice then Some("tool_calls") else None
  {
    hide Extract, GuardVerdict, Content, NativeEntries, Assembled, CallStream, ReadBack, Numbered, EntryCalls, LastFinish,
         StopStream, DeltaCount;
    var r, embedded := Assemble(chunks), Extract(Some(Content(chunks))).0;
    SameDecision(threshold, history, chunks);
    ContentNeedsChunks(chunks);
    KeysRemain(NativeEntries(chunks));
    if DecisionOn(threshold, history, chunks).Stop? {
      var text := DecisionOn(threshold, history, chunks).text;
      StopReason(threshold, history, chunks, text);
      StopStreamRead(text, chunks);
    } else {
      SynthesizedRead(chunks[0], chunks[|chunks| - 1], embedded);
    }
  }
}
