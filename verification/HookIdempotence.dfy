/**
 The hooks on their own output: when a second run, with the same history, changes nothing.
 */
module HookIdempotence {
  import opened Text
  import opened Json
  import opened JsonRoundTrip
  import opened ToolCallExtractor
  import opened BraceFreeText
  import opened RepeatGuard
  import opened SuccessHook
  import opened StreamingHook
  import opened StreamLaws
  import opened HookAgreement

  // ---- The exact condition ----

  /** A blocked reply whose content is read as `content` is left alone: no call is found in it, or it is blocked alike. */
  predicate StaysBlocked(threshold: int, history: seq<Message>, content: string, text: string) {
    var again := Extract(Some(content)).0;
    again == [] || GuardVerdict(threshold, history, again) == Some(text)
  }

  lemma {:induction false} SomeDelta(choices: seq<StreamChoice>)
    requires DeltaCount(choices) >= 1
    ensures exists i :: 0 <= i < |choices| && choices[i].delta.Some?
  {
    var n := |choices| - 1;
    if choices[n].delta.None? {
      SomeDelta(choices[..n]);
      var i :| 0 <= i < n && choices[..n][i].delta.Some?;
      assert choices[i].delta.Some?;
    }
  }

  lemma {:induction false} RewrittenTwice(c: Chunk, d: Delta, d': Delta, finish: Option<string>)
    requires DeltaCount(c.choices) >= 1
    ensures Rewritten(Rewritten(c, d, finish), d', finish) == Rewritten(c, d, finish) <==> d' == d
  {
    SomeDelta(c.choices);
    var i :| 0 <= i < |c.choices| && c.choices[i].delta.Some?;
    assert Rewritten(c, d, finish).choices[i].delta == Some(d);
    assert Rewritten(Rewritten(c, d, finish), d', finish).choices[i].delta == Some(d');
  }

  /** A blocked stream blocked again is the same stream iff the text is the same. */
  lemma {:induction false} BlockedTwice(text: string, text': string, chunks: seq<Chunk>)
    requires chunks != [] && DeltaCount(chunks[0].choices) >= 1
    ensures StopStream(text', StopStream(text, chunks)) == StopStream(text, chunks) <==> text' == text
  {
    hide Rewritten, DeltaCount;
    RewrittenTwice(chunks[0], Delta(Some("assistant"), Some(text), []), Delta(Some("assistant"), Some(text'), []), Some("stop"));
  }

  lemma {:induction false} StopAgain(threshold: int, history: seq<Message>, chunks: seq<Chunk>, text: string)
    requires chunks != []
    ensures var out := StopStream(text, chunks);
            StreamOut(threshold, history, out) == out <==> StaysBlocked(threshold, history, Times(text, Copies(chunks)), text)
  {
    hide Extract, GuardVerdict, DeltaCount, Content, NativeEntries, Assembled, Times, StopStream, CallStream;
    var out, m := StopStream(text, chunks), Copies(chunks);
    var again := Extract(Some(Times(text, m))).0;
    StopStreamParts(text, chunks);
    NothingReadBack([]);
    NoCallsNoVerdict(threshold, history);
    StopStreamLength(text, chunks);
    if again != [] {
      CopiesNeeded(text, m);
      var verdict := GuardVerdict(threshold, history, again);
      if verdict.Some? {
        BlockedTwice(text, verdict.value, chunks);
      } else {
        CallStreamLength(out[0], out[|out| - 1], again);
      }
    }
  }

  lemma {:induction false} StopStreamLength(text: string, chunks: seq<Chunk>)
    requires chunks != []
    ensures |StopStream(text, chunks)| == 1
  {
  }

  lemma {:induction false} CallStreamLength(first: Chunk, last: Chunk, calls: seq<Call>)
    ensures |CallStream(first, last, calls)| == |calls| + 2
  {
  }

  lemma {:induction false} CopiesNeeded(text: string, m: nat)
    requires Extract(Some(Times(text, m))).0 != []
    ensures m >= 1
  {
    ExtractNothing();
  }

  lemma {:induction false} SynthesizedAgain(threshold: int, history: seq<Message>, first: Chunk, last: Chunk, calls: seq<Call>)
    requires calls != []
    ensures var out := CallStream(first, last, calls);
            StreamOut(threshold, history, out) == out <==>
              GuardVerdict(threshold, history, ReadBack(calls, DeltaCount(first.choices))).None?
  {
    hide Extract, GuardVerdict, DeltaCount, Content, NativeEntries, Assembled, StopStream, CallStream, ReadBack;
    var out := CallStream(first, last, calls);
    CallStreamRead(first, last, calls);
    SynthesizedEntries(first, last, calls);
    ExtractNothing();
    CallStreamLength(first, last, calls);
    var verdict := GuardVerdict(threshold, history, Assembled(NativeEntries(out)));
    if verdict.Some? {
      StopStreamLength(verdict.value, out);
    }
  }

  /**
   Exactly when running the streaming hook again, with the same history, on what it emitted changes nothing: a
   stream passed through, always; a synthesised one, iff its calls as read back are not blocked; a blocked one,
   iff no call is found in the guard's text or the same text comes out again.
   */
  lemma {:induction false} StreamingIdempotentIff(threshold: int, history: seq<Message>, chunks: seq<Chunk>)
    ensures var out := StreamOut(threshold, history, chunks);
            StreamOut(threshold, history, out) == out <==>
              match DecisionOn(threshold, history, chunks)
              case Stop(text) => StaysBlocked(threshold, history, Times(text, Copies(chunks)), text)
              case Synthesize(calls) => GuardVerdict(threshold, history, ReadBack(calls, Copies(chunks))).None?
              case PassThrough => true
  {
    hide Extract, GuardVerdict, Content, NativeEntries, Assembled, StopStream, CallStream, ReadBack, Times, DeltaCount,
         StaysBlocked;
    match DecisionOn(threshold, history, chunks)
    case Stop(text) =>
      StopReason(threshold, history, chunks, text);
      StopAgain(threshold, history, chunks, text);
    case Synthesize(calls) =>
      ContentNeedsChunks(chunks);
      SynthesizedAgain(threshold, history, chunks[0], chunks[|chunks| - 1], calls);
    case PassThrough =>
  }

  /** Exactly when the hook for complete responses leaves its own output alone. */
  lemma {:induction false} DeliverIdempotentIff(threshold: int, history: seq<Message>, r: Reply)
    ensures Deliver(threshold, history, Deliver(threshold, history, r)) == Deliver(threshold, history, r) <==>
              match GuardVerdict(threshold, history, CallsOf(r))
              case Some(text) => StaysBlocked(threshold, history, text, text)
              case None => true
  {
    hide Extract, GuardVerdict;
    NoCallsNoVerdict(threshold, history);
    DeliveredCalls(threshold, history, r);
  }

  // ---- Names without braces ----

  lemma {:induction false} TimesBraceFree(text: string, m: nat)
    requires BraceFree(text)
    ensures BraceFree(Times(text, m))
  {
    if m > 0 {
      TimesBraceFree(text, m - 1);
    }
  }

  lemma {:induction false} WithoutConcat(a: string, b: string, c: char)
    requires Without(a, c) && Without(b, c)
    ensures Without(a + b, c)
  {
  }

  lemma {:induction false} GuardRestWithout(c: char)
    requires c == '{' || c == '<'
    ensures Without(GUARD_REST, c)
  {
    WithoutConcat(" times in a row. This is a ", "repetition loop \U{2014} the call ", c);
    WithoutConcat("is not making progress and has ", "been blocked to protect the ", c);
    WithoutConcat("is not making progress and has " + "been blocked to protect the ", "host. ", c);
    WithoutConcat("Inspect the prior tool output, ", "choose a different approach, or ", c);
    WithoutConcat("Inspect the prior tool output, " + "choose a different approach, or ", "call a different tool. ", c);
    WithoutConcat(GUARD_ROW, GUARD_WHY, c);
    WithoutConcat(GUARD_ROW + GUARD_WHY, GUARD_HOW, c);
    WithoutConcat(GUARD_ROW + GUARD_WHY + GUARD_HOW, "Do not repeat the same command.", c);
  }

  /** What the guard's text says behind the name. */
  function GuardEnd(n: nat): string {
    "' has been called with identical arguments " + NatText(n) + GUARD_REST
  }

  lemma {:induction false} GuardEndWithout(n: nat, c: char)
    requires c == '{' || c == '<'
    ensures Without(GuardEnd(n), c)
  {
    var b := "' has been called with identical arguments ";
    assert Without(NatText(n), c) by {
      assert forall i | 0 <= i < |NatText(n)| :: IsDigit(NatText(n)[i]);
    }
    hide Without;
    assert Without(b, c) by {
      BeforeCountWithout(c);
    }
    GuardRestWithout(c);
    WithoutConcat(b, NatText(n), c);
    WithoutConcat(b + NatText(n), GUARD_REST, c);
  }

  lemma {:induction false} BeforeCountWithout(c: char)
    requires c == '{' || c == '<'
    ensures Without("' has been called with identical arguments ", c) && Without("[tool-call guard] The tool '", c)
  {
  }

  lemma {:induction false} GuardTextParts(name: Json, n: nat)
    ensures GuardText(name, n) == "[tool-call guard] The tool '" + NameText(name) + GuardEnd(n)
  {
    hide NameText, NatText;
  }

  lemma {:induction false} GuardTextBraceFree(name: Json, n: nat)
    requires BraceFree(NameText(name))
    ensures BraceFree(GuardText(name, n))
  {
    hide Without, GuardEnd, GuardText, NameText;
    BeforeCountWithout('{');
    GuardEndWithout(n, '{');
    WithoutConcat("[tool-call guard] The tool '", NameText(name), '{');
    WithoutConcat("[tool-call guard] The tool '" + NameText(name), GuardEnd(n), '{');
    GuardTextParts(name, n);
  }

  /** The first call keeps its signature when it is read back from the stream. */
  lemma {:induction false} ReadBackVerdict(threshold: int, history: seq<Message>, calls: seq<Call>)
    requires forall c | c in calls :: c.args.Str?
    ensures GuardVerdict(threshold, history, ReadBack(calls, 1)).Some? <==> GuardVerdict(threshold, history, calls).Some?
  {
    if calls != [] {
      var c := calls[0];
      assert c in calls;
      TimesOnce(ArgsText(c.args));
      assert ReadBack(calls, 1)[0] == Call(KeptName(c.name), c.args);
      KeptSignature(c.name, c.args);
    }
  }

  lemma {:induction false} StopTextBraceFree(threshold: int, history: seq<Message>, calls: seq<Call>, text: string)
    requires GuardVerdict(threshold, history, calls) == Some(text)
    requires BraceFree(NameText(GuardedName(calls)))
    ensures BraceFree(text)
  {
    hide CountRecent, SignatureOf, GuardText, BraceFree, NameText;
    var prior := CountRecent(history, SignatureOf(calls[0].name, calls[0].args));
    GuardTextBraceFree(calls[0].name, prior + 1);
  }

  /** The first call of a reply, the one whose name the guard's text quotes. */
  function GuardedName(calls: seq<Call>): Json {
    if calls == [] then Null else calls[0].name
  }

  lemma {:induction false} BraceFreeStaysBlocked(threshold: int, history: seq<Message>, text: string, m: nat)
    requires BraceFree(text)
    ensures StaysBlocked(threshold, history, Times(text, m), text)
  {
    hide Extract, BraceFree, Times;
    TimesBraceFree(text, m);
    NoBraceNoCalls(Times(text, m));
  }

  /** With one delta in the first chunk nothing but a brace in the name of a blocked call can break idempotence. */
  lemma {:induction false} StreamingIdempotent(threshold: int, history: seq<Message>, chunks: seq<Chunk>)
    requires Copies(chunks) <= 1
    requires DecisionOn(threshold, history, chunks).Stop? ==> BraceFree(NameText(GuardedName(CallsOf(Preferred(Assemble(chunks))))))
    ensures var out := StreamOut(threshold, history, chunks);
            StreamOut(threshold, history, out) == out
  {
    hide Extract, GuardVerdict, Content, NativeEntries, Assembled, StreamOut, NameText, BraceFree, Copies, EntryCalls,
         LastFinish, StaysBlocked;
    SameDecision(threshold, history, chunks);
    StreamingIdempotentIff(threshold, history, chunks);
    match DecisionOn(threshold, history, chunks)
    case Stop(text) =>
      StopTextBraceFree(threshold, history, CallsOf(Preferred(Assemble(chunks))), text);
      BraceFreeStaysBlocked(threshold, history, text, Copies(chunks));
    case Synthesize(calls) =>
      ExtractedArgs(Some(Content(chunks)));
      NoCallsNoVerdict(threshold, history);
      if Copies(chunks) == 1 {
        ReadBackVerdict(threshold, history, calls);
      }
    case PassThrough =>
  }

  lemma {:induction false} DeliverIdempotent(threshold: int, history: seq<Message>, r: Reply)
    requires Blocked(threshold, history, r) ==> BraceFree(NameText(GuardedName(CallsOf(r))))
    ensures Deliver(threshold, history, Deliver(threshold, history, r)) == Deliver(threshold, history, r)
  {
    hide Extract, GuardVerdict, NameText, BraceFree, Deliver, CallsOf;
    DeliverIdempotentIff(threshold, history, r);
    if Blocked(threshold, history, r) {
      var text := GuardVerdict(threshold, history, CallsOf(r)).value;
      StopTextBraceFree(threshold, history, CallsOf(r), text);
      NoBraceNoCalls(text);
    }
  }
}
