/**
 Concrete streams and replies on which the hooks differ from each other, or change their own output.
 */
module HookWitnesses {
  import opened Text
  import opened Occurrences
  import opened Json
  import opened JsonRoundTrip
  import opened CanonicalArgs
  import opened ToolCallExtractor
  import opened Wrapping
  import opened WrappingInvariance
  import opened RepeatGuard
  import opened SuccessHook
  import opened SortedKeySets
  import opened StreamingHook
  import opened StreamLaws
  import opened HookAgreement
  import opened HookIdempotence
  import opened OrderingShim
  import opened GuardRuns

  // ---- A small call as text ----

  function SmallMembers(args: string): seq<Member> {
    [Member("name", Str("f")), Member("arguments", Str(args))]
  }

  /** The text `{"name": "f", "arguments": "..."}` */
  function SmallPayload(args: string): Payload {
    Payload(JsonText, SmallMembers(args), DumpsStyle(TokensOf(Obj(SmallMembers(args)))))
  }

  function SmallTokens(args: string): seq<Token> {
    [Punct('{'), Atom(Str("name")), Punct(':'), Atom(Str("f")), Punct(',')]
    + [Atom(Str("arguments")), Punct(':'), Atom(Str(args)), Punct('}')]
  }

  lemma {:induction false} SmallTokensExact(args: string)
    ensures TokensOf(Obj(SmallMembers(args))) == SmallTokens(args)
  {
    var ms := SmallMembers(args);
    assert ms[1..] == [ms[1]];
    assert MemberTokens([ms[1]]) == [Atom(Str("arguments")), Punct(':'), Atom(Str(args))];
    assert MemberTokens(ms) == [Atom(Str("name")), Punct(':'), Atom(Str("f"))] + [Punct(',')] + MemberTokens([ms[1]]);
  }

  /** Printable ASCII text, without quotes and backslashes, is its own escape. */
  predicate IsPlain(s: string) {
    forall i | 0 <= i < |s| :: ' ' <= s[i] <= '~' && s[i] != '"' && s[i] != '\\'
  }

  lemma {:induction false} PlainEscape(s: string)
    requires IsPlain(s)
    ensures EscapeAll(JsonText, '"', s) == s
  {
    if s != "" {
      PlainEscape(s[1..]);
      assert s == [s[0]] + s[1..];
    }
  }

  predicate SpellsWithout(t: Token, c: char) {
    match t
    case Punct(p) => p != c
    case Atom(Str(s)) => IsPlain(s) && Without(s, c)
    case _ => false
  }

  lemma {:induction false} SpellWithout(t: Token, c: char)
    requires SpellsWithout(t, c) && c != '"'
    ensures Without(Spell(JsonText, '"', t), c)
  {
    match t
    case Punct(p) =>
    case Atom(Str(s)) => PlainEscape(s);
  }

  lemma {:induction false} LayOutWithout(ts: seq<Token>, style: seq<Piece>, c: char)
    requires |ts| == |style| && c != '"'
    requires forall i | 0 <= i < |ts| :: SpellsWithout(ts[i], c) && style[i].quote == '"' && Without(style[i].gap, c)
    ensures Without(LayOut(JsonText, ts, style), c)
  {
    if ts != [] {
      hide Spell, SpellsWithout;
      SpellWithout(ts[0], c);
      LayOutWithout(ts[1..], style[1..], c);
    }
  }

  lemma {:induction false} SmallLegal(args: string)
    ensures LegalPayload(SmallPayload(args))
  {
    var ms := SmallMembers(args);
    assert ms[0].key == "name" && ms[1].key == "arguments" && |ms[0].key| != |ms[1].key|;
    assert ms[1..][1..] == [] && ms[1..][0] == ms[1] && WellFormed(ms[0].value) && WellFormed(ms[1].value);
    assert MembersWellFormed(ms[1..][1..]) && MembersWellFormed(ms[1..]);
    SmallTokensExact(args);
  }

  lemma {:induction false} SmallSpells(args: string, i: nat, c: char)
    requires (c == '<' || c == '`') && IsPlain(args) && Without(args, c) && i < |SmallTokens(args)|
    ensures SpellsWithout(SmallTokens(args)[i], c)
  {
    assert IsPlain("name") && IsPlain("arguments");
    assert Without("name", c) && Without("arguments", c);
  }

  lemma {:induction false} DumpsWithout(ts: seq<Token>, c: char)
    requires (c == '<' || c == '`') && forall i | 0 <= i < |ts| :: SpellsWithout(ts[i], c)
    ensures Without(LayOut(JsonText, ts, DumpsStyle(ts)), c)
  {
    hide SpellsWithout, LayOut;
    LayOutWithout(ts, DumpsStyle(ts), c);
  }

  lemma {:induction false} SmallWithout(args: string, c: char)
    requires (c == '<' || c == '`') && IsPlain(args) && Without(args, c)
    ensures LegalPayload(SmallPayload(args)) && Without(TextOf(SmallPayload(args)), c)
  {
    hide LegalPayload, LayOut, TokensOf, SpellsWithout, SmallTokens, DumpsStyle, Without;
    SmallLegal(args);
    SmallTokensExact(args);
    forall i | 0 <= i < |SmallTokens(args)|
      ensures SpellsWithout(SmallTokens(args)[i], c)
    {
      SmallSpells(args, i, c);
    }
    DumpsWithout(SmallTokens(args), c);
  }

  lemma {:induction false} SmallCall(args: string)
    ensures IsCall(SmallPayload(args)) && ExpectedCall(SmallPayload(args)) == Call(Str("f"), Str(args))
  {
    var ms := SmallMembers(args);
    assert ms[0].key == "name" && ms[1].key == "arguments" && |ms[0].key| != |ms[1].key|;
    assert ms[0] in SmallPayload(args).members && ms[1] in SmallPayload(args).members;
    assert Lookup(ms, "name") == Str("f") && Lookup(ms[1..], "arguments") == Str(args);
  }

  lemma {:induction false} BareExtracted(p: Payload)
    requires LegalPayload(p) && IsCall(p) && Without(TextOf(p), '<') && Without(TextOf(p), '`')
    ensures Extract(Some(TextOf(p))).0 == [ExpectedCall(p)]
  {
    hide Extract, TextOf, LegalPayload, ExpectedCall, IsCall, Without;
    assert "" + TextOf(p) + "" == TextOf(p);
    assert Without("", '<') && Without("", '`') by {
      NothingWithout();
    }
    CallInProse("", p, "");
  }

  lemma {:induction false} NothingWithout()
    ensures forall c :: Without("", c)
  {
  }

  // ---- One chunk ----

  /** A stream of one chunk: some content, and one native call without arguments. */
  function OneChunk(content: Option<string>, name: Json): seq<Chunk> {
    var delta := Delta(None, content, [CallDelta(Some(0), Some(Function(name, Some(""))))]);
    [Chunk([StreamChoice(Some(delta), None)])]
  }

  lemma {:induction false} OneChunkRead(content: Option<string>, name: Json)
    requires Truthy(name)
    ensures var chunks := OneChunk(content, name);
            && Content(chunks) == (if content.Some? then content.value else "")
            && Assembled(NativeEntries(chunks)) == [Call(name, Str(""))]
            && EntryCalls(NativeEntries(chunks)) == [ToolCall(0, name, Str(""))]
            && NativeEntries(chunks) != map[] && Copies(chunks) == 1 && Regular(chunks)
  {
    var chunks := OneChunk(content, name);
    var x, call := chunks[0].choices[0], Call(name, Str(""));
    AllChoicesOne(chunks[0]);
    ChoicesAppend([], x);
    assert [] + [x] == chunks[0].choices;
    var tc := CallDelta(Some(0), Some(Function(name, Some(""))));
    FoldAppend([], tc);
    assert [] + [tc] == [tc];
    TimesEmpty<char>(1);
    assert NativeEntries(chunks) == EntriesOf([call], 1, 1);
    EntriesInOrder([call], 1);
    RegularCount(chunks);
  }

  // ---- Both kinds of call ----

  /** With an empty history nothing is blocked. */
  lemma {:induction false} NothingBlocked(threshold: int, calls: seq<Call>)
    ensures GuardVerdict(threshold, [], calls).None?
  {
    hide SignatureOf;
  }

  /** Content that calls `f` and a native call of `g`: one hook delivers the first, the other the second. */
  lemma {:induction false} HooksDiffer(threshold: int)
    ensures LegalPayload(SmallPayload(""))
    ensures var chunks := OneChunk(Some(TextOf(SmallPayload(""))), Str("g"));
            && Regular(chunks)
            && Assemble(StreamOut(threshold, [], chunks)).calls == [ToolCall(0, Str("f"), Str(""))]
            && Deliver(threshold, [], Assemble(chunks)).calls == [ToolCall(0, Str("g"), Str(""))]
  {
    hide Extract, TextOf, LegalPayload, OneChunk, Content, NativeEntries, Assembled, EntryCalls, GuardVerdict, Regular,
         SmallPayload, ExpectedCall, IsCall, CallStream, Copies, LastFinish;
    SmallWithout("", '<');
    SmallWithout("", '`');
    var chunks, call := OneChunk(Some(TextOf(SmallPayload(""))), Str("g")), Call(Str("f"), Str(""));
    SmallCall("");
    BareExtracted(SmallPayload(""));
    OneChunkRead(Some(TextOf(SmallPayload(""))), Str("g"));
    NothingBlocked(threshold, [call]);
    NothingBlocked(threshold, CallsOf(Assemble(chunks)));
    OneReadBackCall(call);
    ContentNeedsChunks(chunks);
    CopiesOfFirst(chunks);
    SynthesizedRead(chunks[0], chunks[|chunks| - 1], [call]);
  }

  lemma {:induction false} CopiesOfFirst(chunks: seq<Chunk>)
    requires chunks != []
    ensures Copies(chunks) == DeltaCount(chunks[0].choices)
  {
  }

  lemma {:induction false} OneReadBackCall(call: Call)
    requires Truthy(call.name) && call.args == Str("")
    ensures Numbered(ReadBack([call], 1)) == [ToolCall(0, call.name, call.args)]
  {
    TimesEmpty<char>(1);
  }

  // ---- A call in the name of a blocked call ----

  /** The name of a tagged payload, as a model that wants to be quoted would choose it. */
  function TaggedName(p: Payload): string
    requires LegalPayload(p)
  {
    TOOL_CALL.open + TextOf(p) + TOOL_CALL.close
  }

  /** The guard's text quotes the name verbatim, so a call written in the name is a call in the text. */
  lemma {:induction false} GuardTextQuotesCall(p: Payload, n: nat)
    requires LegalPayload(p) && IsCall(p) && Lacks(TextOf(p), TOOL_CALL.close)
    ensures Extract(Some(GuardText(Str(TaggedName(p)), n))).0 == [ExpectedCall(p)]
  {
    hide Extract, TextOf, LegalPayload, ExpectedCall, IsCall, GuardEnd, GuardText, Lacks, Avoids, Without;
    var prose, core, end := "[tool-call guard] The tool '", TextOf(p), GuardEnd(n);
    var x := Tagged(prose, "", p, "");
    BeforeCountWithout('<');
    GuardEndWithout(n, '<');
    AvoidsWithout(prose, TOOL_CALL.open);
    LacksWithout(end, TOOL_CALL.open);
    assert [x][1..] == [];
    assert "" + core + "" == core;
    assert (prose + TOOL_CALL.open) + core + (TOOL_CALL.close + end)
        == prose + (TOOL_CALL.open + core + TOOL_CALL.close) + end;
    assert TagText(TOOL_CALL, [x], end) == prose + TaggedName(p) + end;
    GuardTextParts(Str(TaggedName(p)), n);
    assert PayloadsOf([x]) == [p];
    OneExpected(p);
    ToolCallTags([x], end);
  }

  /** A history that has called the tool of that name once. */
  function CalledOnce(name: Json): seq<Message> {
    [Message("assistant", None, [ToolCall(0, name, Str(""))])]
  }

  lemma {:induction false} CalledOnceCount(name: Json, sig: Signature)
    ensures CountRecent(CalledOnce(name), sig) == if SignatureOf(name, Str("")) == sig then 1 else 0
  {
    hide SignatureOf;
    assert CalledOnce(name)[..0] == [];
  }

  lemma {:induction false} QuotedVerdicts(name: string, other: Call)
    requires name != "" && other.name != Str(name)
    ensures GuardVerdict(1, CalledOnce(Str(name)), [Call(Str(name), Str(""))]) == Some(GuardText(Str(name), 2))
    ensures GuardVerdict(1, CalledOnce(Str(name)), [other]).None?
  {
    hide Canonical, GuardText, CountRecent;
    CalledOnceCount(Str(name), SignatureOf(Str(name), Str("")));
    CalledOnceCount(Str(name), SignatureOf(other.name, other.args));
  }

  /**
   Any call written into the name of another one breaks idempotence, in both hooks: the second run finds it in
   the text of the guard, and delivers it.
   */
  lemma {:induction false} TaggedNameNotIdempotent(p: Payload)
    requires LegalPayload(p) && IsCall(p) && Lacks(TextOf(p), TOOL_CALL.close) && ExpectedCall(p).name != Str(TaggedName(p))
    ensures var name := Str(TaggedName(p));
            var history, chunks := CalledOnce(name), OneChunk(None, name);
            var out := StreamOut(1, history, chunks);
            && DecisionOn(1, history, chunks) == Stop(GuardText(name, 2))
            && Assemble(out).calls == []
            && Assemble(StreamOut(1, history, out)).calls == Numbered(ReadBack([ExpectedCall(p)], 1))
            && StreamOut(1, history, out) != out
  {
    hide Extract, TextOf, LegalPayload, OneChunk, Content, NativeEntries, Assembled, EntryCalls, GuardVerdict, GuardText,
         ExpectedCall, IsCall, CallStream, StopStream, Copies, LastFinish, ReadBack, CalledOnce, DeltaCount, Times, Numbered;
    var name := Str(TaggedName(p));
    var history, chunks, text := CalledOnce(name), OneChunk(None, name), GuardText(name, 2);
    var out := StreamOut(1, history, chunks);
    OneChunkRead(None, name);
    ExtractNothing();
    QuotedVerdicts(TaggedName(p), ExpectedCall(p));
    GuardTextQuotesCall(p, 2);
    StopReason(1, history, chunks, text);
    CopiesOfFirst(chunks);
    TimesOnce(text);
    StopStreamParts(text, chunks);
    StopStreamRead(text, chunks);
    StreamingIdempotentIff(1, history, chunks);
    StopStreamLength(text, chunks);
    StopStreamCopies(text, chunks);
    SynthesizedRead(out[0], out[|out| - 1], [ExpectedCall(p)]);
  }

  lemma {:induction false} StopStreamCopies(text: string, chunks: seq<Chunk>)
    requires Regular(chunks) && chunks != []
    ensures StopStream(text, chunks) != [] && DeltaCount(StopStream(text, chunks)[0].choices) == 1
  {
    var out := StopStream(text, chunks);
    assert Regular(out);
    RegularCount(out);
  }

  /** The same for the hook for complete responses. */
  lemma {:induction false} TaggedNameDeliveredAgain(p: Payload)
    requires LegalPayload(p) && IsCall(p) && Lacks(TextOf(p), TOOL_CALL.close) && ExpectedCall(p).name != Str(TaggedName(p))
    ensures var name := Str(TaggedName(p));
            var history, r := CalledOnce(name), Reply(None, [ToolCall(0, name, Str(""))], None);
            var once := Deliver(1, history, r);
            && once == Reply(Some(GuardText(name, 2)), [], Some("stop"))
            && Deliver(1, history, once).calls == Numbered([ExpectedCall(p)])
  {
    hide Extract, TextOf, LegalPayload, GuardVerdict, GuardText, ExpectedCall, CalledOnce;
    var name := Str(TaggedName(p));
    QuotedVerdicts(TaggedName(p), ExpectedCall(p));
    GuardTextQuotesCall(p, 2);
    var calls := [ToolCall(0, name, Str(""))];
    assert Native(calls) == [Call(name, Str(""))];
  }

  /** A concrete stream, blocked by a concrete history, on which a second run finds the call of `f`. */
  lemma {:induction false} NotIdempotentWitness()
    ensures LegalPayload(SmallPayload(""))
    ensures var name := Str(TaggedName(SmallPayload("")));
            var history, chunks := CalledOnce(name), OneChunk(None, name);
            var out := StreamOut(1, history, chunks);
            && DecisionOn(1, history, chunks) == Stop(GuardText(name, 2))
            && Assemble(out).calls == []
            && Assemble(StreamOut(1, history, out)).calls == [ToolCall(0, Str("f"), Str(""))]
  {
    hide StreamOut, TextOf, LegalPayload, OneChunk, GuardText, CalledOnce, DecisionOn, SmallPayload, Assemble, ReadBack, ExpectedCall;
    SmallWithout("", '<');
    SmallCall("");
    LacksWithout(TextOf(SmallPayload("")), TOOL_CALL.close);
    TaggedNameNotIdempotent(SmallPayload(""));
    OneReadBackCall(Call(Str("f"), Str("")));
  }

  // ---- Several deltas in the first chunk ----

  /** A stream of one chunk with two deltas, the first one with some content. */
  function TwoDeltas(content: string): seq<Chunk> {
    [Chunk([StreamChoice(Some(Delta(None, Some(content), [])), None), StreamChoice(Some(Delta(None, None, [])), None)])]
  }

  lemma {:induction false} TwoDeltasRead(content: string)
    ensures Content(TwoDeltas(content)) == content && NativeEntries(TwoDeltas(content)) == map[]
    ensures Copies(TwoDeltas(content)) == 2
  {
    var choices := TwoDeltas(content)[0].choices;
    AllChoicesOne(TwoDeltas(content)[0]);
    assert choices == ([] + [choices[0]]) + [choices[1]] && choices[..1] == [choices[0]] && choices[..1][..0] == [];
    ChoicesAppend([], choices[0]);
    ChoicesAppend([choices[0]], choices[1]);
    assert [] + [choices[0]] == [choices[0]];
    assert DeltaCount(choices[..1]) == 1;
  }

  /** A text that starts with a letter that starts no JSON value is its own canonical form. */
  lemma {:induction false} LetterCanonical(s: string)
    requires s != "" && s[0] == 'a' && s[|s| - 1] == 'a'
    ensures Canonical(Str(s)) == s
  {
    hide LexWord, TrimLeft, TrimRight;
    NoWordAt(s);
    assert "" + s + "" == s;
    StripCore("", s, "");
  }

  /** A stream that calls `f`, from a template with two deltas. */
  function Doubling(args: string): seq<Chunk>
    requires LegalPayload(SmallPayload(args))
  {
    TwoDeltas(TextOf(SmallPayload(args)))
  }

  lemma {:induction false} DoublingRead(args: string)
    requires IsPlain(args) && Without(args, '<') && Without(args, '`')
    ensures LegalPayload(SmallPayload(args))
    ensures Embedded(Doubling(args)) == [Call(Str("f"), Str(args))] && Copies(Doubling(args)) == 2
    ensures NativeEntries(Doubling(args)) == map[]
  {
    hide Extract, TextOf, LegalPayload, SmallPayload, TwoDeltas, Content, NativeEntries, Copies, ExpectedCall;
    SmallWithout(args, '<');
    SmallWithout(args, '`');
    SmallCall(args);
    BareExtracted(SmallPayload(args));
    TwoDeltasRead(TextOf(SmallPayload(args)));
  }

  lemma {:induction false} DoubledDiffers()
    ensures CopiedSignature(Call(Str("f"), Str("a")), 2) != OwnSignature(Call(Str("f"), Str("a")))
  {
    hide Canonical;
    TimesOnce("a");
    assert Times("a", 2) == "a" + "a" == "aa";
    LetterCanonical("a");
    LetterCanonical("aa");
  }

  /**
   Copied arguments escape the guard: it looks for the arguments as the model wrote them, and the history has them
   twice. Whatever the threshold, the same single call is repeated any number of times.
   */
  lemma {:induction false} CopiedArgumentsEscape(threshold: int, k: nat)
    requires threshold >= 1
    ensures LegalPayload(SmallPayload("a"))
    ensures CountRecent(Run(threshold, [], Repeated(Doubling("a"), k)), CopiedSignature(Call(Str("f"), Str("a")), 2)) == k
  {
    hide LegalPayload, SmallPayload, Doubling, Run, Repeated, CountRecent, CopiedSignature, OwnSignature, Embedded, Copies;
    DoublingRead("a");
    DoubledDiffers();
    var c := Call(Str("f"), Str("a"));
    EscapesForever(threshold, Doubling("a"), OwnSignature(c), CopiedSignature(c, 2), k);
  }

  lemma {:induction false} RepeatedLength(chunks: seq<Chunk>, k: nat)
    ensures |Repeated(chunks, k)| == k
  {
    if k > 0 {
      RepeatedLength(chunks, k - 1);
    }
  }

  lemma {:induction false} RepeatedInsists(chunks: seq<Chunk>, sig: Signature, k: nat)
    requires Insists(Streamed(chunks), sig)
    ensures Insistent(Repeated(chunks, k), sig) && Replies(Repeated(chunks, k)) == k
  {
    hide Insists;
    if k > 0 {
      RepeatedInsists(chunks, sig, k - 1);
      RepeatedLength(chunks, k - 1);
      assert Repeated(chunks, k)[..k - 1] == Repeated(chunks, k - 1);
    }
  }

  /** Empty arguments stay empty when they are copied: the guard fires as it should, although there are two deltas. */
  lemma {:induction false} EmptyArgumentsGuarded(threshold: nat)
    requires threshold >= 1
    ensures LegalPayload(SmallPayload(""))
    ensures Copies(Doubling("")) == 2
    ensures Blocked(threshold, Shim(Run(threshold, [], Repeated(Doubling(""), threshold))), Heard(Streamed(Doubling(""))))
  {
    hide LegalPayload, SmallPayload, Doubling, Run, Repeated, CountRecent, OwnSignature, CopiedSignature, Embedded, Copies,
         Blocked, Shim, Heard, Insists, Insistent, SignatureOf, Replies;
    DoublingRead("");
    var chunks, c := Doubling(""), Call(Str("f"), Str(""));
    DoublingInsists(chunks, c);
    RepeatedInsists(chunks, OwnSignature(c), threshold);
    NothingCounted(OwnSignature(c));
    OneMoreInsists(Repeated(chunks, threshold), Streamed(chunks), OwnSignature(c));
    FiresExactlyAtMultiples(threshold, [], Repeated(chunks, threshold), OwnSignature(c), Streamed(chunks));
  }

  lemma {:induction false} NothingCounted(sig: Signature)
    ensures CountRecent([], sig) == 0
  {
  }

  lemma {:induction false} OneMoreInsists(events: seq<Event>, e: Event, sig: Signature)
    requires Insistent(events, sig) && Insists(e, sig)
    ensures Insistent(events + [e], sig)
  {
    hide Insists;
  }

  lemma {:induction false} DoublingInsists(chunks: seq<Chunk>, c: Call)
    requires Embedded(chunks) == [c] && c.args == Str("") && Copies(chunks) == 2
    ensures Insists(Streamed(chunks), OwnSignature(c))
  {
    hide Extract, Content, NativeEntries, Copies, SignatureOf, CopiedSignature, EntryCalls, LastFinish, Assembled;
    OneCopyKeeps(c, 2);
    SameDecision(1, [], chunks);
  }
}
