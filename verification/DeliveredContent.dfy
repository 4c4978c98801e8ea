/**
 What text the hook for complete responses leaves beside the calls that it delivers.
 */
module DeliveredContent {
  import opened Text
  import opened Occurrences
  import opened Json
  import opened SpanRoundTrip
  import opened ToolCallExtractor
  import opened Wrapping
  import opened WrappingInvariance
  import opened MixedAnswers
  import opened RepeatGuard
  import opened SuccessHook

  /** A reply that is plain text. */
  function TextReply(text: string, finish: Option<string>): Reply {
    Reply(Some(text), [], finish)
  }

  /** Calls, numbered from zero, with what is left of the text: nothing at all if that is empty. */
  function CallsWith(left: string, calls: seq<Call>): Reply {
    Reply(if left == "" then None else Some(left),
          seq(|calls|, i requires 0 <= i < |calls| => ToolCall(i, calls[i].name, calls[i].args)),
          Some("tool_calls"))
  }

  lemma {:induction false} DeliverExtracted(threshold: int, history: seq<Message>, text: string, finish: Option<string>, calls: seq<Call>,
                                            left: string)
    requires Extract(Some(text)) == (calls, Some(left)) && calls != [] && !Blocked(threshold, history, TextReply(text, finish))
    ensures Deliver(threshold, history, TextReply(text, finish)) == CallsWith(left, calls)
  {
    hide Extract, GuardVerdict;
    assert Numbered(calls) == CallsWith(left, calls).calls;
  }

  /** Calls in tags of either kind are delivered beside the prose around the tags, stripped. */
  lemma {:induction false} ProseDelivered(threshold: int, history: seq<Message>, items: seq<Tagged>, end: string, finish: Option<string>)
    requires TaggedPayloads(items) && Expected(PayloadsOf(items)) != []
    ensures LegalTagged(TOOL_CALL, items) && Lacks(end, TOOL_CALL.open) ==>
              var r := TextReply(TagText(TOOL_CALL, items, end), finish);
              !Blocked(threshold, history, r) ==>
                Deliver(threshold, history, r) == CallsWith(Strip(ProseOf(items, end)), Expected(PayloadsOf(items)))
    ensures LegalTagged(TOOLS, items) && Lacks(end, TOOLS.open) && NoCallTag(items, end) ==>
              var r := TextReply(TagText(TOOLS, items, end), finish);
              !Blocked(threshold, history, r) ==>
                Deliver(threshold, history, r) == CallsWith(Strip(ProseOf(items, end)), Expected(PayloadsOf(items)))
  {
    hide Extract, Deliver, Blocked, TaggedPayloads, Expected, PayloadsOf, LegalTagged, Lacks, NoCallTag, TagText, ProseOf, Strip, CallsWith;
    CleanedIsProse(items, end);
    if LegalTagged(TOOL_CALL, items) && Lacks(end, TOOL_CALL.open) {
      var t := TagText(TOOL_CALL, items, end);
      ToolCallTags(items, end);
      if !Blocked(threshold, history, TextReply(t, finish)) {
        DeliverExtracted(threshold, history, t, finish, Expected(PayloadsOf(items)), Strip(ProseOf(items, end)));
      }
    }
    if LegalTagged(TOOLS, items) && Lacks(end, TOOLS.open) && NoCallTag(items, end) {
      var t := TagText(TOOLS, items, end);
      ToolsTags(items, end);
      if !Blocked(threshold, history, TextReply(t, finish)) {
        DeliverExtracted(threshold, history, t, finish, Expected(PayloadsOf(items)), Strip(ProseOf(items, end)));
      }
    }
  }

  /** Beside calls in fences nothing is left. */
  lemma {:induction false} FencesDelivered(threshold: int, history: seq<Message>, items: seq<Fenced>, end: string, finish: Option<string>)
    requires FencedPayloads(items) && LegalFences(items) && TaglessFences(items) && Unmarked(end)
    requires Expected(PayloadsIn(items)) != [] && !Blocked(threshold, history, TextReply(FencesText(items, end), finish))
    ensures Deliver(threshold, history, TextReply(FencesText(items, end), finish))
         == CallsWith("", Expected(PayloadsIn(items)))
  {
    hide CallsWith, Extract, Deliver, Blocked, FencedPayloads, LegalFences, TaglessFences, Unmarked, Expected, PayloadsIn, FencesText;
    FencedCallsExact(items, end);
    DeliverExtracted(threshold, history, FencesText(items, end), finish, Expected(PayloadsIn(items)), "");
  }

  /** Nor beside bare calls. */
  lemma {:induction false} BareDelivered(threshold: int, history: seq<Message>, ps: seq<Payload>, seps: seq<string>, finish: Option<string>)
    requires AllLegalPayloads(ps) && AllUnmarked(ps) && |seps| == |ps| + 1 && LegalSeps(seps)
    requires Expected(ps) != [] && !Blocked(threshold, history, TextReply(BareText(ps, seps), finish))
    ensures Deliver(threshold, history, TextReply(BareText(ps, seps), finish))
         == CallsWith("", Expected(ps))
  {
    hide CallsWith, Extract, Deliver, Blocked, AllUnmarked, LegalSeps, Expected, BareText;
    BareObjects(ps, seps);
    DeliverExtracted(threshold, history, BareText(ps, seps), finish, Expected(ps), "");
  }

  lemma {:induction false} NoCallNoVerdict(threshold: int, history: seq<Message>)
    ensures GuardVerdict(threshold, history, []).None?
  {
    hide SignatureOf, CountRecent;
  }

  /** A reply in which no call is found, or whose native calls are not blocked, is not touched. */
  lemma {:induction false} OthersUntouched(threshold: int, history: seq<Message>, r: Reply)
    requires if r.calls == [] then Extract(r.content).0 == [] else !Blocked(threshold, history, r)
    ensures Deliver(threshold, history, r) == r
  {
    hide Extract, GuardVerdict;
    NoCallNoVerdict(threshold, history);
  }

  /** Any mixture of wrappings, dicts that are calls, and dicts that are none: the text kept if nothing is blocked. */
  lemma {:induction false} MixedDelivered(threshold: int, history: seq<Message>, segs: seq<Segment>, end: string, finish: Option<string>)
    requires LegalAnswer(segs, end) && !Blocked(threshold, history, TextReply(Answer(segs, end), finish))
    ensures var r := TextReply(Answer(segs, end), finish);
            var d := Deliver(threshold, history, r);
            var tagged, tools := Expected(SegmentPayloads(TagsIn(false, segs))), Expected(SegmentPayloads(TagsIn(true, segs)));
            var fenced, all := Expected(SegmentPayloads(FencesIn(segs))), Expected(SegmentPayloads(segs));
            if tagged != [] then d == CallsWith(Strip(Untagged(false, segs, end)), tagged)
            else if tools != [] then d == CallsWith(Strip(Untagged(true, segs, end)), tools)
            else if fenced != [] then d == CallsWith("", fenced)
            else NeutralProse(segs, end) ==> d == if all != [] then CallsWith("", all) else r
  {
    hide Extract, Deliver, Blocked, LegalAnswer, NeutralProse, Answer, Expected, SegmentPayloads, TagsIn, FencesIn, Untagged, Strip, CallsWith;
    assert AllWellPrinted(segs) by {
      LegalPrinted(segs, end);
    }
    MixedAnswer(segs, end);
    var t := Answer(segs, end);
    var (calls, left) := Extract(Some(t));
    if calls == [] {
      OthersUntouched(threshold, history, TextReply(t, finish));
    } else if left.Some? {
      DeliverExtracted(threshold, history, t, finish, calls, left.value);
    }
  }
}
