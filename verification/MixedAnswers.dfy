/**
 Answers that mix all four wrappings, around dicts that are calls and dicts that are none: which tier decides, and
 what it leaves.
 */
module MixedAnswers {
  import opened Text
  import opened Occurrences
  import opened Json
  import opened BraceScanner
  import opened SpanRoundTrip
  import opened ToolCallExtractor
  import opened Wrapping
  import opened WrappingInvariance
  import opened BraceFreeText

  /** Prose and what follows it: a dict in a tag of either kind, a fence with dicts in it, or a dict as it is. */
  datatype Segment =
    | CallTag(tagged: Tagged)
    | ToolsTag(tagged: Tagged)
    | InFence(fenced: Fenced)
    | Bare(before: string, payload: Payload)

  function DictsIn(s: Segment): seq<Payload> {
    match s
    case CallTag(x) => [x.payload]
    case ToolsTag(x) => [x.payload]
    case InFence(f) => f.payloads
    case Bare(_, p) => [p]
  }

  function SegmentPayloads(segs: seq<Segment>): seq<Payload> {
    if segs == [] then [] else DictsIn(segs[0]) + SegmentPayloads(segs[1..])
  }

  predicate WellPrinted(s: Segment) {
    AllLegalPayloads(DictsIn(s)) && (s.InFence? ==> |s.fenced.seps| == |s.fenced.payloads| + 1)
  }

  predicate AllWellPrinted(segs: seq<Segment>) {
    forall s | s in segs :: WellPrinted(s)
  }

  function ProseIn(s: Segment): string {
    match s
    case CallTag(x) => x.prose
    case ToolsTag(x) => x.prose
    case InFence(f) => f.before
    case Bare(before, _) => before
  }

  function TextIn(s: Segment): string
    requires WellPrinted(s)
  {
    match s
    case CallTag(x) => OneTag(TOOL_CALL, x, "")
    case ToolsTag(x) => OneTag(TOOLS, x, "")
    case InFence(f) => OneFence(f.before, "", BareText(f.payloads, f.seps), "")
    case Bare(before, p) => before + TextOf(p)
  }

  function Answer(segs: seq<Segment>, end: string): string
    requires AllWellPrinted(segs)
  {
    if segs == [] then end else TextIn(segs[0]) + Answer(segs[1..], end)
  }

  /** Prose and payloads open no tag and no fence, and a payload does not close its own tag. */
  ghost predicate LegalSegment(s: Segment) {
    && WellPrinted(s) && AllUnmarked(DictsIn(s)) && UnmarkedProse(ProseIn(s))
    && (s.CallTag? ==> LegalTagged(TOOL_CALL, [s.tagged]))
    && (s.ToolsTag? ==> LegalTagged(TOOLS, [s.tagged]))
    && (s.InFence? ==> LegalFence(s.fenced))
  }

  ghost predicate LegalAnswer(segs: seq<Segment>, end: string) {
    && AllWellPrinted(segs)
    && (forall s | s in segs :: LegalSegment(s))
    && Unmarked(end)
  }

  // ---- The tiers in isolation ----

  predicate IsTag(tools: bool, s: Segment) {
    if tools then s.ToolsTag? else s.CallTag?
  }

  function PatternOf(tools: bool): (pat: Pattern)
    ensures IsTagPattern(pat)
  {
    if tools then TOOLS else TOOL_CALL
  }

  /** The segments with tags of one kind. */
  function TagsIn(tools: bool, segs: seq<Segment>): seq<Segment> {
    if segs == [] then [] else (if IsTag(tools, segs[0]) then [segs[0]] else []) + TagsIn(tools, segs[1..])
  }

  function FencesIn(segs: seq<Segment>): seq<Segment> {
    if segs == [] then [] else (if segs[0].InFence? then [segs[0]] else []) + FencesIn(segs[1..])
  }

  /** The answer without its tags of one kind. */
  function Untagged(tools: bool, segs: seq<Segment>, end: string): string
    requires AllWellPrinted(segs)
  {
    if segs == [] then end
    else (if IsTag(tools, segs[0]) then ProseIn(segs[0]) else TextIn(segs[0])) + Untagged(tools, segs[1..], end)
  }

  // ---- No segment opens what it should not open ----

  lemma {:induction false} OtherTagsAvoid()
    ensures Avoids(TOOL_CALL.open, TOOLS.open) && Avoids(TOOL_CALL.close, TOOLS.open)
  {
    var open, close, word := TOOL_CALL.open, TOOL_CALL.close, TOOLS.open;
    forall i | 0 <= i < |open|
      ensures MismatchAt(open, i, word)
    {
      var j := if i == 0 then 5 else 0;
      assert open[i + j] != word[j];
    }
    forall i | 0 <= i < |close|
      ensures MismatchAt(close, i, word)
    {
      var j := if i == 0 then 1 else 0;
      assert close[i + j] != word[j];
    }
  }

  /** A word that opens a tag or a fence. */
  predicate IsOpener(word: string) {
    word == TOOL_CALL.open || word == TOOLS.open || word == TICKS
  }

  lemma {:induction false} OpenerShape(word: string)
    requires IsOpener(word)
    ensures word != "" && (word[0] == '<' || word[0] == '`') && Without(word, '}')
  {
  }

  lemma {:induction false} TagsAvoid(tools: bool, word: string)
    requires IsOpener(word) && word != PatternOf(tools).open
    ensures Avoids(PatternOf(tools).open, word) && Avoids(PatternOf(tools).close, word)
  {
    hide Avoids;
    if word == TICKS {
      AvoidsWithout(PatternOf(tools).open, word);
      AvoidsWithout(PatternOf(tools).close, word);
    } else {
      ToolsTagsAvoid();
      OtherTagsAvoid();
    }
  }

  lemma {:induction false} SpaceAvoids(s: string, word: string)
    requires AllSpace(s) && IsOpener(word)
    ensures Avoids(s, word)
  {
    hide IsSpace;
    SpaceNeutral(s);
    OpenerShape(word);
    AvoidsWithout(s, word);
  }

  lemma {:induction false} UnmarkedLacks(t: string, word: string)
    requires Unmarked(t) && IsOpener(word)
    ensures Lacks(t, word)
  {
    hide Lacks;
  }

  lemma {:induction false} UnmarkedAvoids(t: string, word: string)
    requires UnmarkedProse(t) && IsOpener(word)
    ensures Avoids(t, word)
  {
    hide Avoids;
  }

  lemma {:induction false} TextAvoids(p: Payload, word: string)
    requires LegalPayload(p) && Unmarked(TextOf(p)) && IsOpener(word)
    ensures Avoids(TextOf(p), word)
  {
    hide LegalPayload, TextOf, Unmarked, Avoids;
    OpenerShape(word);
    UnmarkedLacks(TextOf(p), word);
    PayloadAvoids(p, word);
  }

  lemma {:induction false} TagAvoids(tools: bool, x: Tagged, word: string)
    requires LegalPayload(x.payload) && Unmarked(TextOf(x.payload)) && UnmarkedProse(x.prose)
    requires AllSpace(x.lead) && AllSpace(x.tail) && IsOpener(word) && word != PatternOf(tools).open
    ensures Avoids(OneTag(PatternOf(tools), x, ""), word)
  {
    hide LegalPayload, TextOf, Unmarked, UnmarkedProse, Avoids, AllSpace, IsOpener, PatternOf;
    var pat, text := PatternOf(tools), TextOf(x.payload);
    TagsAvoid(tools, word);
    UnmarkedAvoids(x.prose, word);
    SpaceAvoids(x.lead, word);
    SpaceAvoids(x.tail, word);
    TextAvoids(x.payload, word);
    AvoidsConcat(x.prose, pat.open, word);
    AvoidsConcat(x.lead, text, word);
    AvoidsConcat(x.lead + text, x.tail, word);
    AvoidsConcat(x.prose + pat.open, x.lead + text + x.tail, word);
    assert pat.close + "" == pat.close;
    AvoidsConcat((x.prose + pat.open) + (x.lead + text + x.tail), pat.close, word);
  }

  lemma {:induction false} FenceAvoids(f: Fenced, word: string)
    requires LegalFence(f) && UnmarkedProse(f.before) && IsOpener(word) && word != TICKS
    ensures AllLegalPayloads(f.payloads) && |f.seps| == |f.payloads| + 1
    ensures Avoids(OneFence(f.before, "", BareText(f.payloads, f.seps), ""), word)
  {
    hide LegalPayload, TextOf, Unmarked, UnmarkedProse, Avoids, BareText, LegalSeps, HasInk;
    var bare := BareText(f.payloads, f.seps);
    OpenerShape(word);
    UnmarkedAvoids(f.before, word);
    BareUnmarked(f.payloads, f.seps);
    UnmarkedAvoids(bare, word);
    TicksAvoid(word);
    assert TICKS + "" == TICKS;
    AvoidsConcat(f.before, TICKS, word);
    AvoidsConcat(f.before + TICKS, bare, word);
    AvoidsConcat((f.before + TICKS) + bare, TICKS, word);
  }

  /** What opens a segment: nothing if the dict stands there as it is. */
  function OpenerOf(s: Segment): string {
    match s case CallTag(_) => TOOL_CALL.open case ToolsTag(_) => TOOLS.open case InFence(_) => TICKS case Bare(_, _) => ""
  }

  lemma {:induction false} LegalTag(s: Segment)
    requires LegalSegment(s) && (s.CallTag? || s.ToolsTag?)
    ensures var x := s.tagged;
            && LegalPayload(x.payload) && Unmarked(TextOf(x.payload)) && UnmarkedProse(x.prose)
            && AllSpace(x.lead) && AllSpace(x.tail)
  {
    hide LegalPayload, TextOf, Unmarked, UnmarkedProse, AllSpace, Lacks, Avoids;
    assert s.tagged in [s.tagged] && s.tagged.payload in DictsIn(s);
  }

  lemma {:induction false} SegmentAvoids(s: Segment, word: string)
    requires LegalSegment(s) && IsOpener(word) && word != OpenerOf(s)
    ensures Avoids(TextIn(s), word)
  {
    hide LegalPayload, TextOf, Unmarked, UnmarkedProse, Avoids, AllSpace, IsOpener, OneTag, OneFence, LegalFence, BareText;
    match s
    case CallTag(x) =>
      LegalTag(s);
      TagAvoids(false, x, word);
    case ToolsTag(x) =>
      LegalTag(s);
      TagAvoids(true, x, word);
    case InFence(f) =>
      FenceAvoids(f, word);
    case Bare(before, p) =>
      assert p in DictsIn(s);
      UnmarkedAvoids(before, word);
      TextAvoids(p, word);
      AvoidsConcat(before, TextOf(p), word);
  }

  lemma {:induction false} LegalTail(segs: seq<Segment>, end: string)
    requires LegalAnswer(segs, end) && segs != []
    ensures LegalAnswer(segs[1..], end) && WellPrinted(segs[0]) && LegalSegment(segs[0])
  {
    hide WellPrinted, LegalSegment, Unmarked;
    assert segs[0] in segs;
  }

  // ---- Tags: what stands between two of them is prose to their pattern ----

  function Items(tools: bool, pre: string, segs: seq<Segment>): seq<Tagged>
    requires AllWellPrinted(segs)
    decreases |segs|
  {
    if segs == [] then []
    else
      assert segs[0] in segs;
      if IsTag(tools, segs[0]) then
        var x := segs[0].tagged;
        [Tagged(pre + x.prose, x.lead, x.payload, x.tail)] + Items(tools, "", segs[1..])
      else Items(tools, pre + TextIn(segs[0]), segs[1..])
  }

  function ItemsEnd(tools: bool, pre: string, segs: seq<Segment>, end: string): string
    requires AllWellPrinted(segs)
    decreases |segs|
  {
    if segs == [] then pre + end
    else
      assert segs[0] in segs;
      if IsTag(tools, segs[0]) then ItemsEnd(tools, "", segs[1..], end) else ItemsEnd(tools, pre + TextIn(segs[0]), segs[1..], end)
  }

  lemma {:induction false} ItemsPayloads(tools: bool, pre: string, segs: seq<Segment>)
    requires AllWellPrinted(segs)
    ensures PayloadsOf(Items(tools, pre, segs)) == SegmentPayloads(TagsIn(tools, segs))
    ensures TaggedPayloads(Items(tools, pre, segs))
    decreases |segs|
  {
    hide TextIn, LegalPayload;
    if segs != [] {
      var s := segs[0];
      assert s in segs && WellPrinted(s);
      if IsTag(tools, s) {
        ItemsPayloads(tools, "", segs[1..]);
        assert s.tagged.payload in DictsIn(s);
        assert ([s] + TagsIn(tools, segs[1..]))[1..] == TagsIn(tools, segs[1..]);
      } else {
        ItemsPayloads(tools, pre + TextIn(s), segs[1..]);
        assert [] + TagsIn(tools, segs[1..]) == TagsIn(tools, segs[1..]);
      }
    }
  }

  lemma {:induction false} NothingAvoids(word: string)
    ensures Avoids("", word)
  {
  }

  lemma {:induction false} PrependTagged(pat: Pattern, x: Tagged, items: seq<Tagged>)
    requires pat.Tag? && LegalTagged(pat, items) && LegalTagged(pat, [x])
    ensures LegalTagged(pat, [x] + items)
  {
    hide LegalPayload, TextOf, Lacks, Avoids, AllSpace;
    assert x in [x];
  }

  lemma {:induction false} LongerProse(pat: Pattern, pre: string, x: Tagged)
    requires pat.Tag? && Avoids(pre, pat.open) && LegalTagged(pat, [x])
    ensures LegalTagged(pat, [Tagged(pre + x.prose, x.lead, x.payload, x.tail)])
  {
    hide LegalPayload, TextOf, Lacks, Avoids, AllSpace;
    assert x in [x];
    AvoidsConcat(pre, x.prose, pat.open);
  }

  lemma {:induction false} PatternOpens(tools: bool, s: Segment)
    ensures IsOpener(PatternOf(tools).open)
    ensures !IsTag(tools, s) ==> PatternOf(tools).open != OpenerOf(s)
  {
  }

  lemma {:induction false} ItemsLegal(tools: bool, pre: string, segs: seq<Segment>, end: string)
    requires LegalAnswer(segs, end) && Avoids(pre, PatternOf(tools).open)
    ensures LegalTagged(PatternOf(tools), Items(tools, pre, segs))
    ensures Lacks(ItemsEnd(tools, pre, segs, end), PatternOf(tools).open)
    decreases |segs|
  {
    hide TextIn, LegalSegment, LegalTagged, Avoids, Lacks, Unmarked, WellPrinted, IsOpener, OpenerOf;
    var pat := PatternOf(tools);
    if segs == [] {
      NoTagsLegal(pat);
      PatternOpens(tools, Bare("", Payload(JsonText, [], [])));
      UnmarkedLacks(end, pat.open);
      LacksBehind(pre, end, pat.open);
    } else {
      var s := segs[0];
      LegalTail(segs, end);
      PatternOpens(tools, s);
      if IsTag(tools, s) {
        NothingAvoids(pat.open);
        ItemsLegal(tools, "", segs[1..], end);
        SegmentTag(tools, s);
        LongerProse(pat, pre, s.tagged);
        PrependTagged(pat, Tagged(pre + s.tagged.prose, s.tagged.lead, s.tagged.payload, s.tagged.tail), Items(tools, "", segs[1..]));
      } else {
        SegmentAvoids(s, pat.open);
        AvoidsConcat(pre, TextIn(s), pat.open);
        ItemsLegal(tools, pre + TextIn(s), segs[1..], end);
      }
    }
  }

  lemma {:induction false} NoTagsLegal(pat: Pattern)
    requires pat.Tag?
    ensures LegalTagged(pat, [])
  {
  }

  lemma {:induction false} SegmentTag(tools: bool, s: Segment)
    requires LegalSegment(s) && IsTag(tools, s)
    ensures LegalTagged(PatternOf(tools), [s.tagged])
  {
    hide LegalTagged;
  }

  lemma {:induction false} TagInFront(pat: Pattern, pre: string, x: Tagged, rest: string)
    requires pat.Tag? && LegalPayload(x.payload)
    ensures OneTag(pat, Tagged(pre + x.prose, x.lead, x.payload, x.tail), rest) == pre + (OneTag(pat, x, "") + rest)
  {
    hide LegalPayload, TextOf;
    var inner := x.lead + TextOf(x.payload) + x.tail;
    assert pat.close + "" == pat.close;
    assert pre + x.prose + pat.open == pre + (x.prose + pat.open);
    assert (pre + (x.prose + pat.open)) + inner + (pat.close + rest) == pre + ((x.prose + pat.open) + inner + pat.close + rest);
  }

  lemma {:induction false} ItemsText(tools: bool, pre: string, segs: seq<Segment>, end: string)
    requires AllWellPrinted(segs) && TaggedPayloads(Items(tools, pre, segs))
    ensures TagText(PatternOf(tools), Items(tools, pre, segs), ItemsEnd(tools, pre, segs, end)) == pre + Answer(segs, end)
    ensures ProseOf(Items(tools, pre, segs), ItemsEnd(tools, pre, segs, end)) == pre + Untagged(tools, segs, end)
    decreases |segs|
  {
    hide OneTag, OneFence, BareText, TextOf, LegalPayload;
    if segs != [] {
      var s, rest := segs[0], segs[1..];
      assert s in segs && WellPrinted(s);
      if IsTag(tools, s) {
        var x, more := s.tagged, Items(tools, "", rest);
        assert x.payload in DictsIn(s);
        ItemsPayloads(tools, "", rest);
        ItemsText(tools, "", rest, end);
        assert ([Tagged(pre + x.prose, x.lead, x.payload, x.tail)] + more)[1..] == more;
        assert "" + Answer(rest, end) == Answer(rest, end) && "" + Untagged(tools, rest, end) == Untagged(tools, rest, end);
        TagInFront(PatternOf(tools), pre, x, Answer(rest, end));
        Assoc(pre, x.prose, Untagged(tools, rest, end));
      } else {
        ItemsText(tools, pre + TextIn(s), rest, end);
        Assoc(pre, TextIn(s), Answer(rest, end));
        Assoc(pre, TextIn(s), Untagged(tools, rest, end));
      }
    }
  }

  /** One tag pattern sees the dicts in its tags, and leaves the rest. */
  lemma {:induction false} TagTier(tools: bool, segs: seq<Segment>, end: string)
    requires LegalAnswer(segs, end)
    ensures TagCalls(PatternOf(tools), Answer(segs, end)) == Expected(SegmentPayloads(TagsIn(tools, segs)))
    ensures Removed(FinderOf(PatternOf(tools)), Answer(segs, end)) == Untagged(tools, segs, end)
  {
    hide Answer, Untagged, Items, ItemsEnd, TagText, TagCalls, Removed, Expected, Avoids, Lacks, LegalTagged, FinderOf, PayloadsOf, ProseOf,
         LegalSegment, TaggedPayloads, SegmentPayloads, TagsIn, Unmarked;
    var items, rest := Items(tools, "", segs), ItemsEnd(tools, "", segs, end);
    NothingAvoids(PatternOf(tools).open);
    ItemsPayloads(tools, "", segs);
    ItemsLegal(tools, "", segs, end);
    ItemsText(tools, "", segs, end);
    assert "" + Answer(segs, end) == Answer(segs, end) && "" + Untagged(tools, segs, end) == Untagged(tools, segs, end);
    TagCallsExact(PatternOf(tools), items, rest);
    RemovedExact(PatternOf(tools), items, rest);
  }

  // ---- Fences ----

  function Fences(pre: string, segs: seq<Segment>): seq<Fenced>
    requires AllWellPrinted(segs)
    decreases |segs|
  {
    if segs == [] then []
    else
      assert segs[0] in segs;
      match segs[0]
      case InFence(f) => [Fenced(pre + f.before, f.payloads, f.seps)] + Fences("", segs[1..])
      case _ => Fences(pre + TextIn(segs[0]), segs[1..])
  }

  function FencesEnd(pre: string, segs: seq<Segment>, end: string): string
    requires AllWellPrinted(segs)
    decreases |segs|
  {
    if segs == [] then pre + end
    else
      assert segs[0] in segs;
      if segs[0].InFence? then FencesEnd("", segs[1..], end) else FencesEnd(pre + TextIn(segs[0]), segs[1..], end)
  }

  lemma {:induction false} FencesPayloads(pre: string, segs: seq<Segment>)
    requires AllWellPrinted(segs)
    ensures PayloadsIn(Fences(pre, segs)) == SegmentPayloads(FencesIn(segs))
    ensures FencedPayloads(Fences(pre, segs))
    decreases |segs|
  {
    hide TextIn, LegalPayload;
    if segs != [] {
      var s := segs[0];
      assert s in segs && WellPrinted(s);
      if s.InFence? {
        var f, more := s.fenced, Fences("", segs[1..]);
        FencesPayloads("", segs[1..]);
        assert ([Fenced(pre + f.before, f.payloads, f.seps)] + more)[1..] == more;
        assert ([s] + FencesIn(segs[1..]))[1..] == FencesIn(segs[1..]);
      } else {
        FencesPayloads(pre + TextIn(s), segs[1..]);
        assert [] + FencesIn(segs[1..]) == FencesIn(segs[1..]);
      }
    }
  }

  lemma {:induction false} LongerBefore(pre: string, f: Fenced)
    requires Avoids(pre, TICKS) && LegalFence(f)
    ensures LegalFence(Fenced(pre + f.before, f.payloads, f.seps))
  {
    hide LegalPayload, TextOf, Avoids, LegalSeps;
    AvoidsConcat(pre, f.before, TICKS);
  }

  lemma {:induction false} SegmentFence(s: Segment)
    requires LegalSegment(s) && s.InFence?
    ensures LegalFence(s.fenced)
  {
    hide LegalFence;
  }

  lemma {:induction false} TicksOpen(s: Segment)
    ensures IsOpener(TICKS) && (!s.InFence? ==> TICKS != OpenerOf(s))
  {
  }

  lemma {:induction false} PrependFence(f: Fenced, items: seq<Fenced>)
    requires LegalFence(f) && LegalFences(items)
    ensures LegalFences([f] + items)
  {
    hide LegalFence;
  }

  lemma {:induction false} FencesLegal(pre: string, segs: seq<Segment>, end: string)
    requires LegalAnswer(segs, end) && Avoids(pre, TICKS)
    ensures LegalFences(Fences(pre, segs))
    ensures Lacks(FencesEnd(pre, segs, end), TICKS)
    decreases |segs|
  {
    hide TextIn, LegalSegment, LegalFence, Avoids, Lacks, Unmarked, WellPrinted, IsOpener, OpenerOf;
    if segs == [] {
      TicksOpen(Bare("", Payload(JsonText, [], [])));
      UnmarkedLacks(end, TICKS);
      LacksBehind(pre, end, TICKS);
    } else {
      var s := segs[0];
      LegalTail(segs, end);
      TicksOpen(s);
      if s.InFence? {
        NothingAvoids(TICKS);
        FencesLegal("", segs[1..], end);
        SegmentFence(s);
        LongerBefore(pre, s.fenced);
        PrependFence(Fenced(pre + s.fenced.before, s.fenced.payloads, s.fenced.seps), Fences("", segs[1..]));
      } else {
        SegmentAvoids(s, TICKS);
        AvoidsConcat(pre, TextIn(s), TICKS);
        FencesLegal(pre + TextIn(s), segs[1..], end);
      }
    }
  }

  lemma {:induction false} FenceInFront(pre: string, before: string, full: string, rest: string)
    ensures OneFence(pre + before, "", full, rest) == pre + (OneFence(before, "", full, "") + rest)
  {
    assert TICKS + "" == TICKS;
    assert pre + before + TICKS == pre + (before + TICKS);
    assert (pre + (before + TICKS)) + full + (TICKS + rest) == pre + ((before + TICKS) + full + TICKS + rest);
  }

  lemma {:induction false} FencesAreText(pre: string, segs: seq<Segment>, end: string)
    requires AllWellPrinted(segs) && FencedPayloads(Fences(pre, segs))
    ensures FencesText(Fences(pre, segs), FencesEnd(pre, segs, end)) == pre + Answer(segs, end)
    decreases |segs|
  {
    hide OneTag, OneFence, BareText, TextOf, LegalPayload;
    if segs != [] {
      var s, rest := segs[0], segs[1..];
      assert s in segs && WellPrinted(s);
      if s.InFence? {
        var f, more := s.fenced, Fences("", rest);
        FencesPayloads("", rest);
        FencesAreText("", rest, end);
        assert ([Fenced(pre + f.before, f.payloads, f.seps)] + more)[1..] == more;
        assert "" + Answer(rest, end) == Answer(rest, end);
        FenceInFront(pre, f.before, BareText(f.payloads, f.seps), Answer(rest, end));
      } else {
        FencesAreText(pre + TextIn(s), rest, end);
        Assoc(pre, TextIn(s), Answer(rest, end));
      }
    }
  }

  /** The fence pattern sees the dicts in fences. */
  lemma {:induction false} FenceTier(segs: seq<Segment>, end: string)
    requires LegalAnswer(segs, end)
    ensures FenceCalls(Answer(segs, end)) == Expected(SegmentPayloads(FencesIn(segs)))
  {
    hide Answer, Fences, FencesEnd, FencesText, FencedPayloads, LegalFences, Lacks, Avoids, Unmarked, LegalSegment, SegmentPayloads, FencesIn,
         Collect, CallOf, FencedObjects, Texts, LegalPayload, Expected, PayloadsIn;
    var items, rest := Fences("", segs), FencesEnd("", segs, end);
    NothingAvoids(TICKS);
    FencesPayloads("", segs);
    FencesLegal("", segs, end);
    FencesAreText("", segs, end);
    assert "" + Answer(segs, end) == Answer(segs, end);
    PayloadsInLegal(items);
    AllFences(items, rest, 0);
    CollectTexts(PayloadsIn(items));
  }

  // ---- Bare objects ----

  /** Prose without quotes and braces: the scanner sees nothing but the dicts. */
  ghost predicate NeutralProse(segs: seq<Segment>, end: string) {
    (forall s | s in segs :: Neutral(ProseIn(s))) && Neutral(end)
  }

  lemma {:induction false} ObjectsAround(a: string, core: string, b: string)
    requires Neutral(a) && Neutral(b) && Closed(core)
    ensures Closed(a + core + b) && Objects(a + core + b) == Objects(core)
  {
    hide Closed, Neutral, Objects;
    NeutralObjects(a);
    NeutralObjects(b);
    ObjectsConcat(a, core);
    ClosedConcat(a, core);
    ObjectsConcat(a + core, b);
    ClosedConcat(a + core, b);
    assert [] + Objects(core) + [] == Objects(core);
  }

  lemma {:induction false} NeutralConcat(a: string, b: string)
    requires Neutral(a) && Neutral(b)
    ensures Neutral(a + b)
  {
  }

  lemma {:induction false} TagNeutral(tools: bool)
    ensures Neutral(PatternOf(tools).open) && Neutral(PatternOf(tools).close + "") && Neutral(TICKS + "")
  {
  }

  lemma {:induction false} OneText(p: Payload)
    requires LegalPayload(p)
    ensures AllLegalPayloads([p]) && Texts([p]) == [TextOf(p)]
  {
    hide LegalPayload, TextOf;
  }

  lemma {:induction false} TagObjects(tools: bool, x: Tagged)
    requires LegalPayload(x.payload) && Neutral(x.prose) && AllSpace(x.lead) && AllSpace(x.tail)
    ensures var t := OneTag(PatternOf(tools), x, ""); Closed(t) && Objects(t) == [TextOf(x.payload)]
  {
    hide LegalPayload, TextOf, Neutral, Closed, Objects, AllSpace, PatternOf;
    var pat, text := PatternOf(tools), TextOf(x.payload);
    TagNeutral(tools);
    SpaceNeutral(x.lead);
    SpaceNeutral(x.tail);
    NeutralConcat(x.prose, pat.open);
    NeutralConcat(x.prose + pat.open, x.lead);
    NeutralConcat(x.tail, pat.close + "");
    PayloadScanned(x.payload);
    ObjectsAround((x.prose + pat.open) + x.lead, text, x.tail + (pat.close + ""));
    assert ((x.prose + pat.open) + x.lead) + text + (x.tail + (pat.close + ""))
        == (x.prose + pat.open) + (x.lead + text + x.tail) + (pat.close + "");
  }

  lemma {:induction false} FenceObjectsInside(f: Fenced)
    requires LegalFence(f) && Neutral(f.before)
    ensures AllLegalPayloads(f.payloads) && |f.seps| == |f.payloads| + 1
    ensures var t := OneFence(f.before, "", BareText(f.payloads, f.seps), ""); Closed(t) && Objects(t) == Texts(f.payloads)
  {
    hide LegalPayload, TextOf, Neutral, Closed, Objects, BareText, AllUnmarked, LegalSeps, HasInk, Avoids, Texts;
    TagNeutral(true);
    LegalSepsNeutral(f.seps);
    ObjectsOfBare(f.payloads, f.seps);
    assert TICKS + "" == TICKS;
    NeutralConcat(f.before, TICKS + "");
    ObjectsAround(f.before + (TICKS + ""), BareText(f.payloads, f.seps), TICKS + "");
  }

  lemma {:induction false} SegmentObjects(s: Segment)
    requires LegalSegment(s) && Neutral(ProseIn(s))
    ensures Closed(TextIn(s)) && Objects(TextIn(s)) == Texts(DictsIn(s))
  {
    hide LegalPayload, TextOf, Neutral, Closed, Objects, OneTag, OneFence, BareText, LegalFence, AllSpace, Unmarked, UnmarkedProse, Texts,
         LegalTagged;
    match s
    case CallTag(x) =>
      LegalTag(s);
      TagObjects(false, x);
      OneText(x.payload);
    case ToolsTag(x) =>
      LegalTag(s);
      TagObjects(true, x);
      OneText(x.payload);
    case InFence(f) =>
      FenceObjectsInside(f);
    case Bare(before, p) =>
      assert p in DictsIn(s);
      PayloadScanned(p);
      OneText(p);
      TagNeutral(true);
      NothingNeutral();
      ObjectsAround(before, TextOf(p), "");
      assert before + TextOf(p) + "" == before + TextOf(p);
  }

  lemma {:induction false} NothingNeutral()
    ensures Neutral("")
  {
  }

  lemma {:induction false} AllPayloadsLegal(segs: seq<Segment>)
    requires AllWellPrinted(segs)
    ensures AllLegalPayloads(SegmentPayloads(segs))
  {
    hide LegalPayload;
    if segs != [] {
      assert segs[0] in segs && WellPrinted(segs[0]);
      AllPayloadsLegal(segs[1..]);
    }
  }

  lemma {:induction false} AnswerObjects(segs: seq<Segment>, end: string)
    requires LegalAnswer(segs, end) && NeutralProse(segs, end) && AllLegalPayloads(SegmentPayloads(segs))
    ensures Objects(Answer(segs, end)) == Texts(SegmentPayloads(segs))
  {
    hide LegalSegment, Neutral, Closed, Objects, TextIn, ProseIn, DictsIn, WellPrinted, Texts, Unmarked;
    if segs == [] {
      NeutralObjects(end);
      NoTexts();
    } else {
      LegalTail(segs, end);
      assert segs[0] in segs;
      SegmentObjects(segs[0]);
      AllPayloadsLegal(segs[1..]);
      AnswerObjects(segs[1..], end);
      ObjectsConcat(TextIn(segs[0]), Answer(segs[1..], end));
      SegmentLegal(segs[0]);
      TextsConcat(DictsIn(segs[0]), SegmentPayloads(segs[1..]));
    }
  }

  lemma {:induction false} SegmentLegal(s: Segment)
    requires WellPrinted(s)
    ensures AllLegalPayloads(DictsIn(s))
  {
  }

  lemma {:induction false} NoTexts()
    ensures Texts([]) == []
  {
  }

  /** The scanner sees all dicts, wrapped or not. */
  lemma {:induction false} BareTier(segs: seq<Segment>, end: string)
    requires LegalAnswer(segs, end) && NeutralProse(segs, end)
    ensures BareCalls(Answer(segs, end)) == Expected(SegmentPayloads(segs))
  {
    hide LegalAnswer, NeutralProse, Answer, Objects, Texts, SegmentPayloads, Collect, CallOf, Expected, LegalPayload;
    assert AllWellPrinted(segs) by {
      LegalPrinted(segs, end);
    }
    AllPayloadsLegal(segs);
    AnswerObjects(segs, end);
    CollectTexts(SegmentPayloads(segs));
  }

  lemma {:induction false} LegalPrinted(segs: seq<Segment>, end: string)
    requires LegalAnswer(segs, end)
    ensures AllWellPrinted(segs)
  {
  }

  // ---- All tiers ----

  /** The test for blank content saves work only: blank content has no call anyway. */
  lemma {:induction false} TiersInOrder(t: string)
    ensures Extract(Some(t)) ==
      if TagCalls(TOOL_CALL, t) != [] then (TagCalls(TOOL_CALL, t), Some(Strip(Removed(FinderOf(TOOL_CALL), t))))
      else if TagCalls(TOOLS, t) != [] then (TagCalls(TOOLS, t), Some(Strip(Removed(FinderOf(TOOLS), t))))
      else if FenceCalls(t) != [] then (FenceCalls(t), Some(""))
      else if BareCalls(t) != [] then (BareCalls(t), Some(""))
      else ([], Some(t))
  {
    hide TagCalls, FenceCalls, BareCalls, Removed, Strip;
    if Strip(t) == "" {
      BlankNoCalls(t);
    }
  }

  lemma {:induction false} BlankNoCalls(t: string)
    requires Strip(t) == ""
    ensures TagCalls(TOOL_CALL, t) == [] && TagCalls(TOOLS, t) == [] && FenceCalls(t) == [] && BareCalls(t) == []
  {
    StripEmpty(t);
    assert BraceFree(t);
    NoBraceNoTagCalls(TOOL_CALL, t);
    NoBraceNoTagCalls(TOOLS, t);
    NoBraceRaws(FinderOf(Fence), t);
    NoBraceNoFenced(Raws(Candidates(FinderOf(Fence), t, 0)));
    NoBraceNoObjects(t);
  }

  /**
   Whatever mixture of wrappings and dicts: the first tier that holds a call decides, it yields its own calls and no
   others, and a dict without both keys counts nowhere. Without any call the content stays as it is.
   */
  lemma {:induction false} MixedAnswer(segs: seq<Segment>, end: string)
    requires LegalAnswer(segs, end)
    ensures var t := Answer(segs, end);
            var tagged, tools := Expected(SegmentPayloads(TagsIn(false, segs))), Expected(SegmentPayloads(TagsIn(true, segs)));
            var fenced, all := Expected(SegmentPayloads(FencesIn(segs))), Expected(SegmentPayloads(segs));
            if tagged != [] then Extract(Some(t)) == (tagged, Some(Strip(Untagged(false, segs, end))))
            else if tools != [] then Extract(Some(t)) == (tools, Some(Strip(Untagged(true, segs, end))))
            else if fenced != [] then Extract(Some(t)) == (fenced, Some(""))
            else NeutralProse(segs, end) ==> Extract(Some(t)) == if all != [] then (all, Some("")) else ([], Some(t))
  {
    hide LegalAnswer, NeutralProse, Answer, Extract, Expected, SegmentPayloads, TagsIn, FencesIn, Untagged, TagCalls, FenceCalls, BareCalls,
         Removed, Strip, FinderOf;
    assert AllWellPrinted(segs) by {
      LegalPrinted(segs, end);
    }
    TiersInOrder(Answer(segs, end));
    TagTier(false, segs, end);
    TagTier(true, segs, end);
    FenceTier(segs, end);
    if NeutralProse(segs, end) {
      BareTier(segs, end);
    }
  }
}
