/**
 Whole conversations behind the proxy: the client appends turns, the model replies, complete or streamed, to the
 history as the ordering shim leaves it, and what the hooks deliver is appended as an assistant turn. A streamed
 reply is put together by a client that joins the deltas of all choices, as the hook itself does.
 */
module GuardRuns {
  import opened Division
  import opened Text
  import opened Json
  import opened ToolCallExtractor
  import opened RepeatGuard
  import opened OrderingShim
  import opened SuccessHook
  import opened StreamingHook
  import opened StreamLaws
  import opened HookAgreement
  import opened BraceFreeText

  datatype Event = Client(m: Message) | Model(r: Reply) | Streamed(chunks: seq<Chunk>)

  function Turn(threshold: int, history: seq<Message>, e: Event): Message {
    match e
    case Client(m) => m
    case Model(r) => AsMessage(Deliver(threshold, Shim(history), r))
    case Streamed(chunks) => AsMessage(Assemble(StreamOut(threshold, Shim(history), chunks)))
  }

  /** The history after some events. */
  function Run(threshold: int, history: seq<Message>, events: seq<Event>): seq<Message> {
    if events == [] then history
    else
      var before := Run(threshold, history, events[..|events| - 1]);
      before + [Turn(threshold, before, events[|events| - 1])]
  }

  // ---- What a reply does to the count ----

  /** The reply that the guard judges; streaming ignores native calls beside calls in the content. */
  function Heard(e: Event): Reply
    requires !e.Client?
  {
    match e case Model(r) => r case Streamed(chunks) => Preferred(Assemble(chunks))
  }

  /** The calls of the delivered turn. */
  function Sent(threshold: int, history: seq<Message>, e: Event): seq<Call>
    requires !e.Client?
  {
    match e
    case Model(r) => if Blocked(threshold, history, r) then [] else CallsOf(r)
    case Streamed(chunks) =>
      match DecisionOn(threshold, history, chunks)
      case Stop(_) => []
      case Synthesize(calls) => ReadBack(calls, Copies(chunks))
      case PassThrough => Assembled(NativeEntries(chunks))
  }

  predicate IsOnly(calls: seq<Call>, sig: Signature) {
    |calls| == 1 && SignatureOf(calls[0].name, calls[0].args) == sig
  }

  /** The reply makes a single call, with the given signature. */
  predicate MakesOnly(r: Reply, sig: Signature) {
    IsOnly(CallsOf(r), sig)
  }

  lemma {:induction false} StreamedCalls(threshold: int, history: seq<Message>, chunks: seq<Chunk>)
    ensures Native(Assemble(StreamOut(threshold, history, chunks)).calls) == Sent(threshold, history, Streamed(chunks))
  {
    hide Extract, GuardVerdict, Content, NativeEntries, Assembled, StopStream, CallStream, ReadBack, EntryCalls, Numbered,
         Native, LastFinish, DeltaCount;
    EntryCallsNative(NativeEntries(chunks));
    match DecisionOn(threshold, history, chunks)
    case Stop(text) =>
      StopReason(threshold, history, chunks, text);
      StopStreamRead(text, chunks);
      NoNativeCalls();
    case Synthesize(calls) =>
      ContentNeedsChunks(chunks);
      SynthesizedRead(chunks[0], chunks[|chunks| - 1], calls);
      NativeOfNumbered(ReadBack(calls, Copies(chunks)));
    case PassThrough =>
  }

  lemma {:induction false} NoNativeCalls()
    ensures Native([]) == []
  {
  }

  lemma {:induction false} NativeOfNumbered(calls: seq<Call>)
    ensures Native(Numbered(calls)) == calls
  {
  }

  lemma {:induction false} CountOfTurn(history: seq<Message>, d: Reply, sig: Signature)
    ensures CountRecent(history + [AsMessage(d)], sig)
         == if IsOnly(Native(d.calls), sig) then CountRecent(history, sig) + 1 else 0
  {
    hide SignatureOf, CountRecent;
    CountAppend(history, AsMessage(d), sig);
    assert |Native(d.calls)| == |d.calls|;
    assert d.calls != [] ==> Native(d.calls)[0] == Call(d.calls[0].name, d.calls[0].args);
  }

  /** What any reply does to the count: it grows iff the single call that is delivered has the signature. */
  lemma {:induction false} CountAfterReply(threshold: int, history: seq<Message>, e: Event, sig: Signature)
    requires !e.Client?
    ensures CountRecent(history + [Turn(threshold, history, e)], sig)
         == if IsOnly(Sent(threshold, Shim(history), e), sig) then CountRecent(history, sig) + 1 else 0
  {
    hide Deliver, StreamOut, Assemble, CountRecent, Shim, IsOnly, Sent, Native;
    match e
    case Model(r) =>
      CountOfTurn(history, Deliver(threshold, Shim(history), r), sig);
      ModelCalls(threshold, Shim(history), r);
    case Streamed(chunks) =>
      CountOfTurn(history, Assemble(StreamOut(threshold, Shim(history), chunks)), sig);
      StreamedCalls(threshold, Shim(history), chunks);
  }

  lemma {:induction false} ModelCalls(threshold: int, history: seq<Message>, r: Reply)
    ensures Native(Deliver(threshold, history, r).calls) == Sent(threshold, history, Model(r))
  {
    hide Deliver, Native, CallsOf, Blocked;
    DeliveredCalls(threshold, history, r);
  }

  /** The calls found in a stream's content. */
  function Embedded(chunks: seq<Chunk>): seq<Call> {
    Extract(Some(Content(chunks))).0
  }

  function OwnSignature(c: Call): Signature {
    SignatureOf(c.name, c.args)
  }

  /** The signature of a call that is put together from `m` copies of its delta. */
  function CopiedSignature(c: Call, m: nat): Signature {
    SignatureOf(c.name, Str(Times(ArgsText(c.args), m)))
  }

  /** A single call that is delivered in `m` copies looks to the guard like the call that was found. */
  predicate KeepsSignature(calls: seq<Call>, m: nat) {
    |calls| == 1 && m >= 1 ==> CopiedSignature(calls[0], m) == OwnSignature(calls[0])
  }

  /** A stream's embedded calls are delivered, and a single one under its own signature. */
  predicate CopiesFaithfully(e: Event) {
    e.Streamed? ==>
      && KeepsSignature(Embedded(e.chunks), Copies(e.chunks))
      && (Embedded(e.chunks) != [] ==> Copies(e.chunks) >= 1)
  }

  /** The guard's judgement: a reply is blocked iff its first call has been repeated `threshold` times already. */
  lemma {:induction false} BlockedIff(threshold: int, history: seq<Message>, r: Reply)
    requires threshold >= 1
    ensures Blocked(threshold, Shim(history), r) <==>
              CallsOf(r) != []
              && CountRecent(history, SignatureOf(CallsOf(r)[0].name, CallsOf(r)[0].args)) >= threshold
  {
    hide CallsOf, SignatureOf, Shim, CountRecent, GuardText;
    if CallsOf(r) != [] {
      ShimKeepsCount(history, SignatureOf(CallsOf(r)[0].name, CallsOf(r)[0].args));
    }
  }

  /** One copy keeps every signature, and so do any copies of empty arguments. */
  lemma {:induction false} OneCopyKeeps(c: Call, m: nat)
    requires c.args.Str? && (m == 1 || c.args.s == "")
    ensures CopiedSignature(c, m) == OwnSignature(c)
  {
    hide SignatureOf;
    TimesSame(c.args.s, m);
  }

  lemma {:induction false} ReadBackSignature(c: Call, m: nat)
    requires m >= 1
    ensures |ReadBack([c], m)| == 1
    ensures SignatureOf(ReadBack([c], m)[0].name, ReadBack([c], m)[0].args) == CopiedSignature(c, m)
  {
    hide SignatureOf, KeptName, Times, ArgsText;
    KeptSignature(c.name, Str(Times(ArgsText(c.args), m)));
  }

  lemma {:induction false} ReadBackOnly(calls: seq<Call>, m: nat, sig: Signature)
    requires m >= 1 && KeepsSignature(calls, m)
    ensures IsOnly(ReadBack(calls, m), sig) <==> IsOnly(calls, sig)
  {
    hide SignatureOf, KeptName, CopiedSignature;
    if |calls| == 1 {
      ReadBackSignature(calls[0], m);
      assert calls == [calls[0]];
    }
  }

  /** Copied faithfully, calls reach the history as the guard has judged them. */
  lemma {:induction false} SentOnly(threshold: int, history: seq<Message>, e: Event, sig: Signature)
    requires !e.Client? && CopiesFaithfully(e)
    ensures IsOnly(Sent(threshold, history, e), sig) <==> MakesOnly(Heard(e), sig) && !Blocked(threshold, history, Heard(e))
  {
    hide Extract, GuardVerdict, Content, NativeEntries, Assembled, ReadBack, EntryCalls, LastFinish, DeltaCount, SignatureOf,
         KeepsSignature;
    if e.Streamed? {
      SameDecision(threshold, history, e.chunks);
      if Embedded(e.chunks) != [] {
        ReadBackOnly(Embedded(e.chunks), Copies(e.chunks), sig);
      }
    }
  }

  /** The count after a reply whose calls are copied faithfully: it grows iff the call was let through. */
  lemma {:induction false} CountAfterModel(threshold: int, history: seq<Message>, e: Event, sig: Signature)
    requires threshold >= 1 && !e.Client? && CopiesFaithfully(e)
    ensures CountRecent(history + [Turn(threshold, history, e)], sig)
         == if MakesOnly(Heard(e), sig) && CountRecent(history, sig) < threshold then CountRecent(history, sig) + 1 else 0
    ensures MakesOnly(Heard(e), sig) ==>
              (Blocked(threshold, Shim(history), Heard(e)) <==> CountRecent(history, sig) >= threshold)
  {
    hide Turn, CountRecent, CallsOf, Shim, Sent, Blocked, Heard, CopiesFaithfully, SignatureOf;
    CountAfterReply(threshold, history, e, sig);
    SentOnly(threshold, Shim(history), e, sig);
    BlockedIff(threshold, history, Heard(e));
  }

  // ---- Safety ----

  ghost predicate Bounded(history: seq<Message>, threshold: int) {
    forall sig :: CountRecent(history, sig) <= threshold
  }

  /**
   The client speaks as the user, the system or a tool, not as the assistant; and a single call in the content of a
   stream keeps its signature when it is copied.
   */
  predicate Admissible(e: Event) {
    match e
    case Client(m) => m.role != "assistant"
    case Model(_) => true
    case Streamed(chunks) => KeepsSignature(Embedded(chunks), Copies(chunks))
  }

  /** Whatever single call is delivered, its signature has not reached the threshold. */
  ghost predicate SentBelow(threshold: int, history: seq<Message>, sent: seq<Call>) {
    |sent| == 1 ==> CountRecent(history, SignatureOf(sent[0].name, sent[0].args)) < threshold
  }

  lemma {:induction false} SentBoundedIff(threshold: int, history: seq<Message>, e: Event)
    requires threshold >= 1 && Bounded(history, threshold) && !e.Client?
    ensures Bounded(history + [Turn(threshold, history, e)], threshold) <==>
              SentBelow(threshold, history, Sent(threshold, Shim(history), e))
  {
    hide Turn, CountRecent, Shim, Sent, SignatureOf;
    var after, sent := history + [Turn(threshold, history, e)], Sent(threshold, Shim(history), e);
    if |sent| == 1 {
      var s0 := SignatureOf(sent[0].name, sent[0].args);
      CountAfterReply(threshold, history, e, s0);
      assert Bounded(after, threshold) ==> CountRecent(after, s0) <= threshold;
    }
    if SentBelow(threshold, history, sent) {
      forall sig
        ensures CountRecent(after, sig) <= threshold
      {
        CountAfterReply(threshold, history, e, sig);
        assert CountRecent(history, sig) <= threshold;
      }
    }
  }

  /**
   The one way in which a reply can break the bound: the content of a stream makes a single call that is let
   through, it is copied more than once, and the call with the copied arguments has reached the threshold.
   */
  predicate CopyBelow(threshold: int, history: seq<Message>, e: Event) {
    e.Streamed? ==>
      var calls, m := Embedded(e.chunks), Copies(e.chunks);
      |calls| == 1 && m >= 2 && CountRecent(history, OwnSignature(calls[0])) < threshold ==>
        CountRecent(history, CopiedSignature(calls[0], m)) < threshold
  }

  lemma {:induction false} LetThrough(threshold: int, history: seq<Message>, e: Event)
    requires threshold >= 1 && !e.Client? && (e.Streamed? ==> Embedded(e.chunks) == [])
    ensures SentBelow(threshold, history, Sent(threshold, Shim(history), e))
  {
    hide Extract, GuardVerdict, Content, NativeEntries, Assembled, EntryCalls, LastFinish, DeltaCount, SignatureOf, CountRecent,
         Shim;
    BlockedIff(threshold, history, Heard(e));
    if e.Streamed? {
      SameDecision(threshold, Shim(history), e.chunks);
    }
  }

  /** What a stream with calls in its content delivers. */
  lemma {:induction false} EmbeddedSent(threshold: int, history: seq<Message>, chunks: seq<Chunk>)
    requires threshold >= 1 && Embedded(chunks) != []
    ensures Sent(threshold, Shim(history), Streamed(chunks))
         == if CountRecent(history, OwnSignature(Embedded(chunks)[0])) < threshold then ReadBack(Embedded(chunks), Copies(chunks))
            else []
  {
    hide Extract, Content, NativeEntries, Assembled, EntryCalls, LastFinish, DeltaCount, SignatureOf, CountRecent, Shim,
         ReadBack, GuardText;
    ShimKeepsCount(history, OwnSignature(Embedded(chunks)[0]));
  }

  lemma {:induction false} SentBelowIff(threshold: int, history: seq<Message>, chunks: seq<Chunk>)
    requires threshold >= 1 && Embedded(chunks) != []
    ensures SentBelow(threshold, history, Sent(threshold, Shim(history), Streamed(chunks)))
       <==> CopyBelow(threshold, history, Streamed(chunks))
  {
    hide Embedded, Sent, CountRecent, Shim, SignatureOf, OwnSignature, CopiedSignature, Copies;
    var calls, m := Embedded(chunks), Copies(chunks);
    EmbeddedSent(threshold, history, chunks);
    EmbeddedArgs(chunks);
    if |calls| == 1 && m >= 1 {
      assert calls == [calls[0]] && calls[0] in calls;
      ReadBackSignature(calls[0], m);
      if m == 1 {
        OneCopyKeeps(calls[0], 1);
        OwnIs(calls[0]);
      }
    }
  }

  lemma {:induction false} OwnIs(c: Call)
    ensures OwnSignature(c) == SignatureOf(c.name, c.args)
  {
  }

  lemma {:induction false} EmbeddedArgs(chunks: seq<Chunk>)
    ensures forall c | c in Embedded(chunks) :: c.args.Str?
  {
    hide Extract;
    ExtractedArgs(Some(Content(chunks)));
  }

  /** Exactly when a reply keeps the bound: judged by the content of the stream and the deltas of its first chunk. */
  lemma {:induction false} ReplyBoundedIff(threshold: int, history: seq<Message>, e: Event)
    requires threshold >= 1 && Bounded(history, threshold) && !e.Client?
    ensures Bounded(history + [Turn(threshold, history, e)], threshold) <==> CopyBelow(threshold, history, e)
  {
    hide Bounded, Sent, CountRecent, Shim, SentBelow, Embedded, Turn;
    SentBoundedIff(threshold, history, e);
    if e.Streamed? && Embedded(e.chunks) != [] {
      SentBelowIff(threshold, history, e.chunks);
    } else {
      LetThrough(threshold, history, e);
    }
  }

  lemma {:induction false} StepBounded(threshold: int, history: seq<Message>, e: Event)
    requires threshold >= 1 && Bounded(history, threshold) && Admissible(e)
    ensures Bounded(history + [Turn(threshold, history, e)], threshold)
  {
    hide Bounded, CountRecent, Embedded, CopiedSignature, OwnSignature, Copies;
    match e
    case Client(m) => ClientBounded(threshold, history, m);
    case _ => ReplyBoundedIff(threshold, history, e);
  }

  lemma {:induction false} ClientBounded(threshold: int, history: seq<Message>, m: Message)
    requires threshold >= 1 && Bounded(history, threshold) && m.role != "assistant"
    ensures Bounded(history + [m], threshold)
  {
    hide CountRecent;
    forall sig
      ensures CountRecent(history + [m], sig) <= threshold
    {
      CountAppend(history, m, sig);
    }
  }

  /**
   Whatever the model and the client do, at no point of the conversation are there more than `threshold`
   uninterrupted assistant turns with the same single call.
   */
  lemma {:induction false} GuardedRunsBounded(threshold: int, history: seq<Message>, events: seq<Event>, k: nat)
    requires threshold >= 1 && forall e | e in events :: Admissible(e)
    requires forall j | 0 <= j <= |history| :: Bounded(history[..j], threshold)
    requires k <= |history| + |events|
    ensures |Run(threshold, history, events)| == |history| + |events|
    ensures Bounded(Run(threshold, history, events)[..k], threshold)
    decreases |events|, k
  {
    hide Turn, CountRecent, Admissible;
    var all := Run(threshold, history, events);
    if events == [] {
      assert all == history;
    } else {
      var n := |events| - 1;
      var before := Run(threshold, history, events[..n]);
      assert forall e | e in events[..n] :: e in events;
      GuardedRunsBounded(threshold, history, events[..n], if k <= |history| + n then k else |history| + n);
      if k <= |history| + n {
        assert all[..k] == before[..k];
      } else {
        assert before[..|history| + n] == before;
        assert events[n] in events;
        StepBounded(threshold, before, events[n]);
        assert all[..k] == all;
      }
    }
  }

  // ---- A stream that is repeated ----

  /** The conversation in which the model repeats a stream. */
  function Repeated(chunks: seq<Chunk>, k: nat): seq<Event> {
    if k == 0 then [] else Repeated(chunks, k - 1) + [Streamed(chunks)]
  }

  lemma {:induction false} OneMore(threshold: int, chunks: seq<Chunk>, k: nat)
    requires k > 0
    ensures var before := Run(threshold, [], Repeated(chunks, k - 1));
            Run(threshold, [], Repeated(chunks, k)) == before + [Turn(threshold, before, Streamed(chunks))]
  {
    hide Turn;
    var events := Repeated(chunks, k);
    assert events[..|events| - 1] == Repeated(chunks, k - 1);
  }

  lemma {:induction false} NoneYet(threshold: int, chunks: seq<Chunk>, sig: Signature)
    ensures CountRecent(Run(threshold, [], Repeated(chunks, 0)), sig) == 0
  {
  }

  /** The call that the guard looks for and the one that is delivered are not the same. */
  predicate Escapes(chunks: seq<Chunk>) {
    var calls, m := Embedded(chunks), Copies(chunks);
    |calls| == 1 && m >= 1 && CopiedSignature(calls[0], m) != OwnSignature(calls[0])
  }

  lemma {:induction false} EscapingStep(threshold: int, history: seq<Message>, chunks: seq<Chunk>, own: Signature, copied: Signature)
    requires threshold >= 1 && Escapes(chunks) && CountRecent(history, own) == 0
    requires own == OwnSignature(Embedded(chunks)[0]) && copied == CopiedSignature(Embedded(chunks)[0], Copies(chunks))
    ensures CountRecent(history + [Turn(threshold, history, Streamed(chunks))], copied) == CountRecent(history, copied) + 1
    ensures CountRecent(history + [Turn(threshold, history, Streamed(chunks))], own) == 0
  {
    hide Embedded, Sent, CountRecent, Shim, SignatureOf, OwnSignature, CopiedSignature, Copies, Turn;
    var calls := Embedded(chunks);
    EmbeddedSent(threshold, history, chunks);
    assert calls == [calls[0]];
    ReadBackSignature(calls[0], Copies(chunks));
    CountAfterReply(threshold, history, Streamed(chunks), own);
    CountAfterReply(threshold, history, Streamed(chunks), copied);
  }

  /** Such a stream is never blocked: repeated `k` times, its call stands in the history `k` times. */
  lemma {:induction false} EscapesForever(threshold: int, chunks: seq<Chunk>, own: Signature, copied: Signature, k: nat)
    requires threshold >= 1 && Escapes(chunks)
    requires own == OwnSignature(Embedded(chunks)[0]) && copied == CopiedSignature(Embedded(chunks)[0], Copies(chunks))
    ensures CountRecent(Run(threshold, [], Repeated(chunks, k)), copied) == k
    ensures CountRecent(Run(threshold, [], Repeated(chunks, k)), own) == 0
  {
    hide CountRecent, Turn, Run, Repeated, Embedded, OwnSignature, CopiedSignature;
    if k == 0 {
      NoneYet(threshold, chunks, own);
      NoneYet(threshold, chunks, copied);
    } else {
      EscapesForever(threshold, chunks, own, copied, k - 1);
      OneMore(threshold, chunks, k);
      EscapingStep(threshold, Run(threshold, [], Repeated(chunks, k - 1)), chunks, own, copied);
    }
  }

  lemma {:induction false} RepeatedBounded(threshold: int, chunks: seq<Chunk>, k: nat)
    requires threshold >= 1 && KeepsSignature(Embedded(chunks), Copies(chunks))
    ensures Bounded(Run(threshold, [], Repeated(chunks, k)), threshold)
  {
    hide CountRecent, Turn, Run, Repeated, Embedded, KeepsSignature;
    if k == 0 {
      forall sig
        ensures CountRecent(Run(threshold, [], Repeated(chunks, 0)), sig) <= threshold
      {
        NoneYet(threshold, chunks, sig);
      }
    } else {
      RepeatedBounded(threshold, chunks, k - 1);
      OneMore(threshold, chunks, k);
      StepBounded(threshold, Run(threshold, [], Repeated(chunks, k - 1)), Streamed(chunks));
    }
  }

  /**
   Exactly which streams can be repeated without end: a stream is kept within the threshold, however often it is
   repeated, iff the single call in its content, if there is one, keeps its signature when it is copied.
   */
  lemma {:induction false} RepeatedBoundedIff(threshold: int, chunks: seq<Chunk>)
    requires threshold >= 1
    ensures (forall k: nat :: Bounded(Run(threshold, [], Repeated(chunks, k)), threshold))
       <==> KeepsSignature(Embedded(chunks), Copies(chunks))
  {
    hide CountRecent, Turn, Run, Repeated, Embedded, OwnSignature, CopiedSignature, Copies;
    if KeepsSignature(Embedded(chunks), Copies(chunks)) {
      forall k: nat
        ensures Bounded(Run(threshold, [], Repeated(chunks, k)), threshold)
      {
        RepeatedBounded(threshold, chunks, k);
      }
    } else {
      var c := Embedded(chunks)[0];
      EscapesForever(threshold, chunks, OwnSignature(c), CopiedSignature(c, Copies(chunks)), threshold + 1);
      assert !Bounded(Run(threshold, [], Repeated(chunks, threshold + 1)), threshold);
    }
  }

  // ---- The exact firing rate ----

  /** The model keeps making a single call of one signature, however spelled; the client answers with tool turns. */
  predicate Insistent(events: seq<Event>, sig: Signature) {
    forall e | e in events :: Insists(e, sig)
  }

  predicate Insists(e: Event, sig: Signature) {
    if e.Client? then e.m.role == "tool" else MakesOnly(Heard(e), sig) && CopiesFaithfully(e)
  }

  function Replies(events: seq<Event>): nat {
    if events == [] then 0
    else Replies(events[..|events| - 1]) + if events[|events| - 1].Client? then 0 else 1
  }

  /** 1 for a reply of the model that is blocked, else 0. */
  function BlocksNow(threshold: int, before: seq<Message>, e: Event): nat {
    if !e.Client? && Blocked(threshold, Shim(before), Heard(e)) then 1 else 0
  }

  /** How many of the model's replies are blocked. */
  function BlockedReplies(threshold: int, history: seq<Message>, events: seq<Event>): nat {
    if events == [] then 0
    else
      var n := |events| - 1;
      BlockedReplies(threshold, history, events[..n]) + BlocksNow(threshold, Run(threshold, history, events[..n]), events[n])
  }

  /** One more emission, counted from `c` repeats of which every `n + 1`-th is blocked. */
  lemma {:induction false} NextMultiple(total: nat, n: nat)
    requires n >= 1
    ensures (total + 1) / (n + 1) == total / (n + 1) + if total % (n + 1) == n then 1 else 0
    ensures (total + 1) % (n + 1) == if total % (n + 1) == n then 0 else total % (n + 1) + 1
  {
    var q, r := total / (n + 1), total % (n + 1);
    assert total == q * (n + 1) + r;
    if r == n {
      assert total + 1 == (q + 1) * (n + 1);
      DivModUnique(total + 1, n + 1, q + 1, 0);
    } else {
      DivModUnique(total + 1, n + 1, q, r + 1);
    }
  }

  /** After `total` repetitions: how many were blocked, and how many the history counts. */
  predicate OnSchedule(threshold: nat, total: nat, blocked: nat, count: nat) {
    blocked == total / (threshold + 1) && count == total % (threshold + 1)
  }

  lemma {:induction false} ScheduleStart(threshold: nat, count: nat)
    requires count <= threshold
    ensures OnSchedule(threshold, count, 0, count)
  {
    DivModUnique(count, threshold + 1, 0, count);
  }

  /** The schedule goes on with a block exactly if the count has reached the threshold. */
  lemma {:induction false} ScheduleNext(threshold: nat, total: nat, blocked: nat, count: nat)
    requires threshold >= 1 && OnSchedule(threshold, total, blocked, count)
    ensures count <= threshold
    ensures count == threshold ==> OnSchedule(threshold, total + 1, blocked + 1, 0)
    ensures count < threshold ==> OnSchedule(threshold, total + 1, blocked, count + 1)
    ensures (total + 1) % (threshold + 1) == 0 <==> count == threshold
  {
    NextMultiple(total, threshold);
  }

  /** One event of an insistent conversation. */
  lemma {:induction false} FiringStep(threshold: nat, before: seq<Message>, e: Event, sig: Signature, total: nat, blocked: nat)
    requires threshold >= 1 && Insists(e, sig)
    requires OnSchedule(threshold, total, blocked, CountRecent(before, sig))
    ensures OnSchedule(threshold, total + if e.Client? then 0 else 1, blocked + BlocksNow(threshold, before, e),
                       CountRecent(before + [Turn(threshold, before, e)], sig))
  {
    hide OnSchedule, MakesOnly, Blocked, Deliver, CountRecent, Shim, Heard, CopiesFaithfully, StreamOut, Assemble;
    if e.Client? {
      CountAppend(before, e.m, sig);
    } else {
      CountAfterModel(threshold, before, e, sig);
      ScheduleNext(threshold, total, blocked, CountRecent(before, sig));
    }
  }

  /**
   Never early, never late: if the model insists on a call that the history has repeated `c` times already,
   then of its first `k` replies exactly `(c + k) / (threshold + 1)` are blocked.
   */
  lemma {:induction false} FiringRate(threshold: nat, history: seq<Message>, events: seq<Event>, sig: Signature)
    requires threshold >= 1 && CountRecent(history, sig) <= threshold && Insistent(events, sig)
    ensures OnSchedule(threshold, CountRecent(history, sig) + Replies(events),
                       BlockedReplies(threshold, history, events), CountRecent(Run(threshold, history, events), sig))
  {
    hide OnSchedule, BlocksNow, Turn, CountRecent, Insists;
    var c := CountRecent(history, sig);
    if events == [] {
      ScheduleStart(threshold, c);
    } else {
      var n := |events| - 1;
      assert events[n] in events && forall e | e in events[..n] :: e in events;
      FiringRate(threshold, history, events[..n], sig);
      FiringStep(threshold, Run(threshold, history, events[..n]), events[n], sig,
                 c + Replies(events[..n]), BlockedReplies(threshold, history, events[..n]));
    }
  }

  lemma {:induction false} InsistentLast(events: seq<Event>, e: Event, sig: Signature)
    requires Insistent(events + [e], sig)
    ensures Insistent(events, sig) && Insists(e, sig)
  {
    hide Insists;
    var all := events + [e];
    assert forall x | x in events :: x in all;
    assert e in all;
  }

  /** The reply that comes next is blocked iff it is number `threshold + 1`, `2 * (threshold + 1)`, and so on. */
  lemma {:induction false} FiresExactlyAtMultiples(threshold: nat, history: seq<Message>, events: seq<Event>,
                                                   sig: Signature, e: Event)
    requires threshold >= 1 && CountRecent(history, sig) <= threshold && Insistent(events + [e], sig) && !e.Client?
    ensures Blocked(threshold, Shim(Run(threshold, history, events)), Heard(e)) <==>
              (CountRecent(history, sig) + Replies(events) + 1) % (threshold + 1) == 0
  {
    hide OnSchedule, MakesOnly, Blocked, CountRecent, Shim, Run, Insistent, Heard, CopiesFaithfully, Turn, Replies, BlockedReplies;
    var before := Run(threshold, history, events);
    InsistentLast(events, e, sig);
    FiringRate(threshold, history, events, sig);
    CountAfterModel(threshold, before, e, sig);
    ScheduleNext(threshold, CountRecent(history, sig) + Replies(events), BlockedReplies(threshold, history, events),
                 CountRecent(before, sig));
  }
}
