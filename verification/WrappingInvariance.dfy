/**
 Four ways to wrap the same payloads, and the proof that the extractor returns the same calls for all of them.
 */
module WrappingInvariance {
  import opened Text
  import opened Occurrences
  import opened Json
  import opened BraceScanner
  import opened SpanRoundTrip
  import opened ToolCallExtractor
  import opened Wrapping

  predicate AllLegalPayloads(ps: seq<Payload>) {
    forall p | p in ps :: LegalPayload(p)
  }

  /** None of the words that open a tag or a fence. */
  predicate Unmarked(t: string) {
    Lacks(t, TOOL_CALL.open) && Lacks(t, TOOLS.open) && Lacks(t, TICKS)
  }

  /** The same, whatever follows the text. */
  ghost predicate UnmarkedProse(t: string) {
    Avoids(t, TOOL_CALL.open) && Avoids(t, TOOLS.open) && Avoids(t, TICKS)
  }

  predicate AllUnmarked(ps: seq<Payload>)
    requires AllLegalPayloads(ps)
  {
    forall p | p in ps :: Unmarked(TextOf(p))
  }

  /** The calls among the payloads, in order. */
  function Expected(ps: seq<Payload>): seq<Call> {
    if ps == [] then []
    else (if IsCall(ps[0]) then [ExpectedCall(ps[0])] else []) + Expected(ps[1..])
  }

  function Texts(ps: seq<Payload>): seq<string>
    requires AllLegalPayloads(ps)
  {
    seq(|ps|, i requires 0 <= i < |ps| => TextOf(ps[i]))
  }

  // ---- The four wrappings ----

  /** Prose, then white space around a payload inside its tag. */
  datatype Tagged = Tagged(prose: string, lead: string, payload: Payload, tail: string)

  predicate TaggedPayloads(items: seq<Tagged>) {
    forall x | x in items :: LegalPayload(x.payload)
  }

  /** The prose opens no tag, and the payload does not close it. */
  ghost predicate LegalTagged(pat: Pattern, items: seq<Tagged>)
    requires pat.Tag?
  {
    forall x | x in items ::
      && LegalPayload(x.payload) && Lacks(TextOf(x.payload), pat.close)
      && Avoids(x.prose, pat.open) && AllSpace(x.lead) && AllSpace(x.tail)
  }

  /** Nothing in a text with `<tools>` tags opens a `<tool_call>` tag. */
  ghost predicate NoCallTag(items: seq<Tagged>, end: string) {
    && (forall x | x in items ::
          LegalPayload(x.payload) && Lacks(TextOf(x.payload), TOOL_CALL.open) && Avoids(x.prose, TOOL_CALL.open))
    && Lacks(end, TOOL_CALL.open)
  }

  /** A tagged payload, followed by more text. */
  function OneTag(pat: Pattern, x: Tagged, rest: string): string
    requires pat.Tag? && LegalPayload(x.payload)
  {
    (x.prose + pat.open) + (x.lead + TextOf(x.payload) + x.tail) + (pat.close + rest)
  }

  /** One tag for each payload, with prose around them. */
  function TagText(pat: Pattern, items: seq<Tagged>, end: string): string
    requires pat.Tag? && TaggedPayloads(items)
  {
    if items == [] then end else OneTag(pat, items[0], TagText(pat, items[1..], end))
  }

  /** Payloads with text free of quotes and braces around them. */
  function BareText(ps: seq<Payload>, seps: seq<string>): string
    requires AllLegalPayloads(ps) && |seps| == |ps| + 1
  {
    if ps == [] then seps[0] else seps[0] + TextOf(ps[0]) + BareText(ps[1..], seps[1..])
  }

  ghost predicate LegalSeps(seps: seq<string>) {
    forall s | s in seps :: Neutral(s) && UnmarkedProse(s)
  }

  predicate IsLanguage(lang: string) {
    lang == "" || lang == "json" || lang == "python"
  }

  /** Prose, then payloads in a code fence. A language behind the backticks is part of the text before the first. */
  datatype Fenced = Fenced(before: string, payloads: seq<Payload>, seps: seq<string>)

  predicate FencedPayloads(items: seq<Fenced>) {
    forall x | x in items :: AllLegalPayloads(x.payloads) && |x.seps| == |x.payloads| + 1
  }

  /** There is more than white space behind the language. A fence without is matched together with what follows. */
  predicate HasInk(x: Fenced)
    requires x.seps != []
  {
    x.payloads != [] || !AllSpace(x.seps[0][|Language(x.seps[0], 0)|..])
  }

  ghost predicate LegalFence(x: Fenced) {
    && AllLegalPayloads(x.payloads) && AllUnmarked(x.payloads)
    && |x.seps| == |x.payloads| + 1 && LegalSeps(x.seps) && Avoids(x.before, TICKS) && HasInk(x)
  }

  ghost predicate LegalFences(items: seq<Fenced>) {
    forall x | x in items :: LegalFence(x)
  }

  /** No prose in front of a fence opens a tag. */
  ghost predicate TaglessFences(items: seq<Fenced>) {
    forall x | x in items :: Avoids(x.before, TOOL_CALL.open) && Avoids(x.before, TOOLS.open)
  }

  /** One fence behind the other. */
  function FencesText(items: seq<Fenced>, end: string): string
    requires FencedPayloads(items)
  {
    if items == [] then end
    else
      assert items[0] in items;
      OneFence(items[0].before, "", BareText(items[0].payloads, items[0].seps), FencesText(items[1..], end))
  }

  function PayloadsIn(items: seq<Fenced>): seq<Payload> {
    if items == [] then [] else items[0].payloads + PayloadsIn(items[1..])
  }

  function OneFence(before: string, lang: string, full: string, after: string): string {
    (before + (TICKS + lang)) + full + (TICKS + after)
  }

  // ---- Objects of composed texts ----

  lemma {:induction false} ObjectsConcat(p: string, q: string)
    requires Closed(p)
    ensures Objects(p + q) == Objects(p) + Objects(q)
  {
    hide Spans, Closed, Increasing, IsObjectSpan;
    SpansOfConcat(p, q);
    SpansInside(p);
    SpansInside(q);
    var n := |Spans(p)|;
    forall i | 0 <= i < |Spans(p + q)|
      ensures Objects(p + q)[i] == (Objects(p) + Objects(q))[i]
    {
      if i < n {
        assert Spans(p + q)[i] == Spans(p)[i];
      } else {
        assert Spans(p + q)[i] == (Spans(q)[i - n].0 + |p|, Spans(q)[i - n].1 + |p|);
      }
    }
  }

  lemma {:induction false} NoReportUpTo(p: string, q: string, k: nat)
    requires Without(q, '}') && k <= |q|
    ensures SpansUpTo(p + q, |p| + k) == Spans(p)
  {
    if k == 0 {
      PrefixRun(p, q, |p|);
    } else {
      NoReportUpTo(p, q, k - 1);
      assert (p + q)[|p| + k - 1] == q[k - 1];
    }
  }

  /** Text without closing braces adds no object to what is in front of it. */
  lemma {:induction false} ObjectsTail(p: string, q: string)
    requires Without(q, '}')
    ensures Objects(p + q) == Objects(p)
  {
    NoReportUpTo(p, q, |q|);
    SpansInside(p);
    SpansInside(p + q);
    forall i | 0 <= i < |Spans(p)|
      ensures Objects(p + q)[i] == Objects(p)[i]
    {
      var (s, e) := Spans(p)[i];
      assert (p + q)[s..e] == p[s..e];
    }
  }

  lemma {:induction false} SpaceNeutral(s: string)
    requires AllSpace(s)
    ensures Neutral(s) && Without(s, '}') && Without(s, '<') && Without(s, '`')
  {
  }

  lemma {:induction false} ObjectsBehindSpace(lead: string, t: string)
    requires AllSpace(lead)
    ensures Objects(lead + t) == Objects(t)
  {
    SpaceNeutral(lead);
    NeutralBalanced(lead);
    ObjectsConcat(lead, t);
    assert Objects(lead) == [];
    assert [] + Objects(t) == Objects(t);
  }

  /** Stripping a text keeps its objects. */
  lemma {:induction false} ObjectsOfStrip(t: string)
    ensures Objects(Strip(t)) == Objects(t)
  {
    var lead, tail := StripShape(t);
    SpaceNeutral(tail);
    Assoc(lead, Strip(t), tail);
    ObjectsBehindSpace(lead, Strip(t) + tail);
    ObjectsTail(Strip(t), tail);
  }

  lemma {:induction false} ClosedConcat(p: string, q: string)
    requires Closed(p) && Closed(q)
    ensures Closed(p + q)
  {
    hide ModeAt, DepthAt;
    SuffixRun(p, q, |q|);
  }

  lemma {:induction false} ObjectsOfBare(ps: seq<Payload>, seps: seq<string>)
    requires AllLegalPayloads(ps) && |seps| == |ps| + 1 && forall s | s in seps :: Neutral(s)
    ensures Objects(BareText(ps, seps)) == Texts(ps) && Closed(BareText(ps, seps))
  {
    hide TextOf, LegalPayload, Neutral, Without, Closed, Objects;
    assert seps[0] in seps;
    NeutralObjects(seps[0]);
    if ps != [] {
      assert ps[0] in ps;
      var text, rest := TextOf(ps[0]), BareText(ps[1..], seps[1..]);
      PayloadScanned(ps[0]);
      ObjectsOfBare(ps[1..], seps[1..]);
      ObjectsConcat(text, rest);
      ObjectsConcat(seps[0], text + rest);
      ClosedConcat(text, rest);
      ClosedConcat(seps[0], text + rest);
      Assoc(seps[0], text, rest);
      TextsStep(ps);
    }
  }

  lemma {:induction false} LegalSepsNeutral(seps: seq<string>)
    requires LegalSeps(seps)
    ensures forall s | s in seps :: Neutral(s)
  {
    hide Neutral, Avoids;
  }

  lemma {:induction false} NeutralObjects(t: string)
    requires Neutral(t)
    ensures Closed(t) && Objects(t) == []
  {
    NeutralBalanced(t);
  }

  lemma {:induction false} TextsStep(ps: seq<Payload>)
    requires AllLegalPayloads(ps) && ps != []
    ensures ps[0] in ps && Texts(ps) == [] + ([TextOf(ps[0])] + Texts(ps[1..]))
  {
    hide TextOf, LegalPayload;
    assert ps[0] in ps;
  }

  lemma {:induction false} CollectTexts(ps: seq<Payload>)
    requires AllLegalPayloads(ps)
    ensures Collect(CallOf, Texts(ps)) == Expected(ps)
  {
    hide LegalPayload, TextOf, CallOf, IsCall, ExpectedCall;
    if ps != [] {
      assert ps[0] in ps;
      PayloadCall(ps[0]);
      CollectTexts(ps[1..]);
      assert Texts(ps)[1..] == Texts(ps[1..]);
    }
  }

  // ---- Matching the patterns ----

  lemma {:induction false} NoMatchFrom(pat: Pattern, t: string, from: nat)
    requires from <= |t| && forall q | from <= q <= |t| :: MatchAt(pat, t, q).None?
    ensures FirstMatch(pat, t, from).None?
    decreases |t| - from
  {
    if from < |t| {
      NoMatchFrom(pat, t, from + 1);
    }
  }

  function Opener(pat: Pattern): string {
    if pat.Tag? then pat.open else TICKS
  }

  lemma {:induction false} NoMatchWithout(pat: Pattern, t: string, p: nat)
    requires p <= |t| && !StartsAt(t, p, Opener(pat))
    ensures MatchAt(pat, t, p).None?
  {
  }

  lemma {:induction false} FirstMatchIs(pat: Pattern, t: string, from: nat, p: nat)
    requires from <= p <= |t| && MatchAt(pat, t, p).Some?
    requires NoneStarts(t, from, p, Opener(pat))
    ensures FirstMatch(pat, t, from) == MatchAt(pat, t, p)
    decreases p - from
  {
    hide MatchAt, StartsAt;
    if from < p {
      NoMatchWithout(pat, t, from);
      FirstMatchIs(pat, t, from + 1, p);
    }
  }

  lemma {:induction false} NoMatchIn(pat: Pattern, t: string)
    requires Lacks(t, Opener(pat))
    ensures FirstMatch(pat, t, 0).None?
  {
    hide StartsAt, MatchAt;
    forall q | 0 <= q <= |t|
      ensures MatchAt(pat, t, q).None?
    {
      NoMatchWithout(pat, t, q);
    }
    NoMatchFrom(pat, t, 0);
  }

  lemma {:induction false} FindAt(t: string, word: string, from: nat, c: nat)
    requires from <= c && word != "" && StartsAt(t, c, word)
    requires c + |word| <= |t| && forall k | from <= k < c :: !StartsAt(t, k, word)
    ensures Find(t, word, from) == Some(c)
    decreases c - from
  {
    hide StartsAt;
    if from < c {
      FindAt(t, word, from + 1, c);
    }
  }

  lemma {:induction false} GroupEndAt(t: string, g: nat, e: nat, c: nat)
    requires g < e <= c <= |t| && !IsSpace(t[e - 1]) && forall i | e <= i < c :: IsSpace(t[i])
    ensures GroupEnd(t, g, c) == e
    decreases c
  {
    if e < c {
      GroupEndAt(t, g, e, c - 1);
    }
  }

  lemma {:induction false} LazyGroupAt(t: string, close: string, lo: nat, g: nat, c: nat)
    requires lo <= g < c && g < |t| && close != "" && StartsAt(t, c, close)
    requires !IsSpace(t[g]) && forall i | lo <= i < g :: IsSpace(t[i])
    requires NoneStarts(t, g + 1, c, close)
    ensures LazyGroup(t, close, lo, SkipSpace(t, lo)) == Some((g, c))
  {
    SkipSpaceTo(t, lo, g);
    FindAt(t, close, g + 1, c);
  }

  // ---- Tags ----

  /** A tag pattern whose two tags start with `<` and hold no `}`, as `TOOL_CALL` and `TOOLS` do. */
  predicate IsTagPattern(pat: Pattern) {
    && pat.Tag? && pat.open != "" && pat.open[0] == '<' && pat.close != "" && pat.close[0] == '<'
    && Without(pat.open, '}') && Without(pat.close, '}')
  }

  lemma {:induction false} Slice(a: string, b: string, c: string)
    ensures (a + b + c)[|a|..|a| + |b|] == b && (a + b + c)[|a| + |b|..] == c
  {
  }

  /** The word does not start in `t[lo..hi]`. */
  ghost predicate NoneStarts(t: string, lo: nat, hi: nat, word: string) {
    forall i | lo <= i < hi :: !StartsAt(t, i, word)
  }

  lemma {:induction false} NoneStartsIn(front: string, a: string, last: string, word: string)
    requires Avoids(a, word)
    ensures NoneStarts(front + a + last, |front|, |front| + |a|, word)
  {
    hide StartsAt, Avoids;
    Assoc(front, a, last);
    forall i | |front| <= i < |front| + |a|
      ensures !StartsAt(front + a + last, i, word)
    {
      NotStarting(a, last, i - |front|, word);
      StartsInTail(front, a + last, i - |front|, word);
    }
  }

  /** A tag stands at `p` around the trimmed text `t[g..e]`, with its closing tag at `c`. */
  ghost predicate TagAt(pat: Pattern, t: string, p: nat, g: nat, e: nat, c: nat)
    requires pat.Tag?
  {
    && StartsAt(t, p, pat.open) && StartsAt(t, c, pat.close)
    && p + |pat.open| <= g < e <= c
    && (forall i | p + |pat.open| <= i < g :: IsSpace(t[i])) && (forall i | e <= i < c :: IsSpace(t[i]))
    && !IsSpace(t[g]) && !IsSpace(t[e - 1])
    && NoneStarts(t, g + 1, c, pat.close) && NoneStarts(t, 0, p, pat.open)
  }

  lemma {:induction false} TagMatchHere(pat: Pattern, t: string, p: nat, g: nat, e: nat, c: nat)
    requires IsTagPattern(pat) && TagAt(pat, t, p, g, e, c)
    ensures MatchAt(pat, t, p) == Some(Match(p, g, e, c + |pat.close|))
  {
    hide LazyGroup, SkipSpace, GroupEnd;
    assert c + |pat.close| <= |t|;
    LazyGroupAt(t, pat.close, p + |pat.open|, g, c);
    GroupEndAt(t, g, e, c);
  }

  lemma {:induction false} TagInside(pat: Pattern, t: string, p: nat, g: nat, e: nat, c: nat)
    requires pat.Tag? && TagAt(pat, t, p, g, e, c)
    ensures p <= |t|
  {
  }

  lemma {:induction false} TagMatch(pat: Pattern, t: string, p: nat, g: nat, e: nat, c: nat)
    requires IsTagPattern(pat) && TagAt(pat, t, p, g, e, c)
    ensures FirstMatch(pat, t, 0) == Some(Match(p, g, e, c + |pat.close|))
  {
    hide StartsAt, MatchAt;
    TagMatchHere(pat, t, p, g, e, c);
    assert p <= |t| by {
      TagInside(pat, t, p, g, e, c);
    }
    FirstMatchIs(pat, t, 0, p);
  }

  lemma {:induction false} OneTagAt(pat: Pattern, x: Tagged, rest: string)
    requires IsTagPattern(pat) && LegalTagged(pat, [x])
    ensures LegalPayload(x.payload)
    ensures var g := |x.prose + pat.open + x.lead|;
            var e := g + |TextOf(x.payload)|;
            TagAt(pat, OneTag(pat, x, rest), |x.prose|, g, e, e + |x.tail|)
  {
    hide TagAt, TextOf, Lacks, Avoids;
    assert x in [x];
    PayloadScanned(x.payload);
    PiecesAt(pat, x.prose, x.lead, TextOf(x.payload), x.tail, rest);
  }

  /** The closing tag does not occur before its place. */
  lemma {:induction false} ClosedOnce(close: string, front: string, core: string, tail: string, last: string)
    requires close != "" && close[0] == '<' && Without(close, '}')
    requires Lacks(core, close) && core != "" && core[|core| - 1] == '}' && AllSpace(tail)
    ensures NoneStarts(front + (core + tail) + last, |front|, |front| + |core + tail|, close)
  {
    hide StartsAt, Lacks, Avoids, NoneStarts;
    AvoidsClosed(core, close);
    SpaceNeutral(tail);
    AvoidsWithout(tail, close);
    AvoidsConcat(core, tail, close);
    NoneStartsIn(front, core + tail, last, close);
  }

  lemma {:induction false} NoneEarlier(t: string, lo: nat, hi: nat, lo': nat, hi': nat, word: string)
    requires NoneStarts(t, lo, hi, word) && lo <= lo' && hi' <= hi
    ensures NoneStarts(t, lo', hi', word)
  {
    hide StartsAt;
  }

  /** The shape of one tag, but for the words that must not occur. */
  lemma {:induction false} ShapeAt(pat: Pattern, prose: string, lead: string, core: string, tail: string, rest: string)
    requires pat.Tag? && AllSpace(lead) && AllSpace(tail) && core != "" && core[0] == '{' && core[|core| - 1] == '}'
    ensures var t, p, g := (prose + pat.open) + (lead + core + tail) + (pat.close + rest), |prose|, |prose + pat.open + lead|;
            var e, c := g + |core|, g + |core| + |tail|;
            && StartsAt(t, p, pat.open) && StartsAt(t, c, pat.close)
            && (forall i | p + |pat.open| <= i < g :: IsSpace(t[i])) && (forall i | e <= i < c :: IsSpace(t[i]))
            && !IsSpace(t[g]) && !IsSpace(t[e - 1])
  {
    hide StartsAt, IsSpace, AllSpace;
    var inner, last, lo := lead + core + tail, pat.close + rest, |prose + pat.open|;
    var t := (prose + pat.open) + inner + last;
    StartsInFront(prose, pat.open, inner, last);
    StartsBehind((prose + pat.open) + inner, pat.close, rest);
    Slice(prose + pat.open, inner, last);
    InnerShape(lead, core, tail, t, lo);
  }

  lemma {:induction false} PiecesAt(pat: Pattern, prose: string, lead: string, core: string, tail: string, rest: string)
    requires IsTagPattern(pat) && Avoids(prose, pat.open) && Lacks(core, pat.close)
    requires AllSpace(lead) && AllSpace(tail) && core != "" && core[0] == '{' && core[|core| - 1] == '}'
    ensures var g := |prose + pat.open + lead|;
            TagAt(pat, (prose + pat.open) + (lead + core + tail) + (pat.close + rest), |prose|, g, g + |core|, g + |core| + |tail|)
  {
    hide StartsAt, Avoids, Lacks, NoneStarts, IsSpace;
    var inner, last, front := lead + core + tail, pat.close + rest, prose + pat.open + lead;
    var t := (prose + pat.open) + inner + last;
    ShapeAt(pat, prose, lead, core, tail, rest);
    Regrouped(prose, pat.open, lead, core, tail, last);
    ClosedOnce(pat.close, front, core, tail, last);
    NoneEarlier(t, |front|, |front| + |core + tail|, |front| + 1, |front| + |core| + |tail|, pat.close);
    NoneStartsIn("", prose, pat.open + inner + last, pat.open);
  }

  lemma {:induction false} Regrouped(prose: string, open: string, lead: string, core: string, tail: string, last: string)
    ensures (prose + open) + (lead + core + tail) + last == (prose + open + lead) + (core + tail) + last
    ensures (prose + open) + (lead + core + tail) + last == "" + prose + (open + (lead + core + tail) + last)
  {
  }

  lemma {:induction false} StartsInFront(prose: string, word: string, inner: string, last: string)
    ensures StartsAt((prose + word) + inner + last, |prose|, word)
  {
    Assoc(prose + word, inner, last);
    StartsAtSlice(prose, word, inner + last);
  }

  lemma {:induction false} StartsBehind(head: string, word: string, rest: string)
    ensures StartsAt(head + (word + rest), |head|, word)
    ensures (head + (word + rest))[|head| + |word|..] == rest
  {
    Assoc(head, word, rest);
    StartsAtSlice(head, word, rest);
    Slice(head, word, rest);
  }

  lemma {:induction false} SpacesAt(t: string, lo: nat, s: string)
    requires lo + |s| <= |t| && t[lo..lo + |s|] == s && AllSpace(s)
    ensures forall i | lo <= i < lo + |s| :: IsSpace(t[i])
  {
    hide IsSpace;
    forall i | lo <= i < lo + |s|
      ensures IsSpace(t[i])
    {
      assert t[i] == t[lo..lo + |s|][i - lo];
    }
  }

  lemma {:induction false} CharAt(t: string, lo: nat, s: string, k: nat)
    requires lo + |s| <= |t| && t[lo..lo + |s|] == s && k < |s|
    ensures t[lo + k] == s[k]
  {
    assert t[lo + k] == t[lo..lo + |s|][k];
  }

  lemma {:induction false} SubSlice(t: string, lo: nat, u: string, i: nat, j: nat)
    requires lo + |u| <= |t| && t[lo..lo + |u|] == u && i <= j <= |u|
    ensures t[lo + i..lo + j] == u[i..j]
  {
    forall k | 0 <= k < j - i
      ensures t[lo + i..lo + j][k] == u[i..j][k]
    {
      CharAt(t, lo, u, i + k);
    }
  }

  lemma {:induction false} Parts(t: string, lo: nat, a: string, b: string, c: string)
    requires lo + |a + b + c| <= |t| && t[lo..lo + |a + b + c|] == a + b + c
    ensures t[lo..lo + |a|] == a && t[lo + |a|..lo + |a| + |b|] == b && t[lo + |a| + |b|..lo + |a| + |b| + |c|] == c
  {
    var u := a + b + c;
    Slice(a, b, c);
    SubSlice(t, lo, u, 0, |a|);
    SubSlice(t, lo, u, |a|, |a| + |b|);
    SubSlice(t, lo, u, |a| + |b|, |u|);
    assert u[0..|a|] == a;
  }

  /** Where `t` holds a trimmed text with white space around it. */
  lemma {:induction false} InnerShape(lead: string, core: string, tail: string, t: string, lo: nat)
    requires AllSpace(lead) && AllSpace(tail) && core != "" && core[0] == '{' && core[|core| - 1] == '}'
    requires lo + |lead + core + tail| <= |t| && t[lo..lo + |lead + core + tail|] == lead + core + tail
    ensures var g, e, c := lo + |lead|, lo + |lead| + |core|, lo + |lead| + |core| + |tail|;
            && (forall i | lo <= i < g :: IsSpace(t[i])) && (forall i | e <= i < c :: IsSpace(t[i]))
            && !IsSpace(t[g]) && !IsSpace(t[e - 1])
  {
    hide AllSpace;
    var g := lo + |lead|;
    Parts(t, lo, lead, core, tail);
    SpacesAt(t, lo, lead);
    SpacesAt(t, g + |core|, tail);
    CharAt(t, g, core, 0);
    CharAt(t, g, core, |core| - 1);
  }

  function TaggedTexts(items: seq<Tagged>): seq<string>
    requires TaggedPayloads(items)
  {
    seq(|items|, i requires 0 <= i < |items| => TextOf(items[i].payload))
  }

  lemma {:induction false} RawsPrepend(c: Candidate, cs: seq<Candidate>)
    ensures Raws([c] + cs) == [c.raw] + Raws(cs)
  {
  }

  lemma {:induction false} CandidatesStep(find: Finder, t: string, off: nat, m: Match, raw: string, rest: string)
    requires find(t) == Some(m) && Within(m, t) && raw == t[m.groupStart..m.groupEnd] && rest == t[m.end..]
    ensures Raws(Candidates(find, t, off)) == [raw] + Raws(Candidates(find, rest, off + m.end))
  {
    RawsPrepend(Candidate(off + m.start, off + m.end, raw), Candidates(find, rest, off + m.end));
  }

  lemma {:induction false} NoCandidates(find: Finder, t: string, off: nat)
    requires find(t).None?
    ensures Raws(Candidates(find, t, off)) == []
  {
  }

  function TagMatchOf(pat: Pattern, x: Tagged): Match
    requires pat.Tag? && LegalPayload(x.payload)
  {
    var g := |x.prose + pat.open + x.lead|;
    var c := g + |TextOf(x.payload)| + |x.tail|;
    Match(|x.prose|, g, g + |TextOf(x.payload)|, c + |pat.close|)
  }

  lemma {:induction false} FindsTag(pat: Pattern, x: Tagged, rest: string)
    requires IsTagPattern(pat) && LegalTagged(pat, [x]) && LegalPayload(x.payload)
    ensures FirstMatch(pat, OneTag(pat, x, rest), 0) == Some(TagMatchOf(pat, x))
  {
    hide OneTag, TagAt, FirstMatch, StartsAt, LegalPayload, TextOf;
    var t, m := OneTag(pat, x, rest), TagMatchOf(pat, x);
    assert TagAt(pat, t, m.start, m.groupStart, m.groupEnd, m.end - |pat.close|) by {
      OneTagAt(pat, x, rest);
    }
    TagMatch(pat, t, m.start, m.groupStart, m.groupEnd, m.end - |pat.close|);
  }

  lemma {:induction false} FinderFinds(pat: Pattern, t: string)
    ensures FinderOf(pat)(t) == FirstMatch(pat, t, 0)
  {
  }

  lemma {:induction false} OneTagRaw(find: Finder, pat: Pattern, x: Tagged, rest: string, off: nat)
    requires IsTagPattern(pat) && LegalPayload(x.payload)
    requires find(OneTag(pat, x, rest)) == Some(TagMatchOf(pat, x))
    ensures Raws(Candidates(find, OneTag(pat, x, rest), off))
         == [TextOf(x.payload)] + Raws(Candidates(find, rest, off + TagMatchOf(pat, x).end))
  {
    hide Candidates, TextOf;
    PayloadScanned(x.payload);
    TagPieces(x.prose + pat.open, x.lead, TextOf(x.payload), x.tail, pat.close, rest);
    CandidatesStep(find, OneTag(pat, x, rest), off, TagMatchOf(pat, x), TextOf(x.payload), rest);
  }

  /** A finder that finds every tag finds the payloads of a tagged text, one by one. */
  lemma {:induction false} TagRaws(find: Finder, pat: Pattern, items: seq<Tagged>, end: string, off: nat)
    requires IsTagPattern(pat) && TaggedPayloads(items) && LegalTagged(pat, items) && find(end).None?
    requires forall x: Tagged, rest: string | LegalPayload(x.payload) && LegalTagged(pat, [x]) ::
               find(OneTag(pat, x, rest)) == Some(TagMatchOf(pat, x))
    ensures Raws(Candidates(find, TagText(pat, items, end), off)) == TaggedTexts(items)
    decreases |items|
  {
    hide OneTag, Candidates, TextOf, LegalPayload, TagMatchOf, Lacks, Avoids;
    if items == [] {
      NoCandidates(find, end, off);
    } else {
      var x, rest := items[0], TagText(pat, items[1..], end);
      assert x in items;
      assert LegalTagged(pat, [x]);
      OneTagRaw(find, pat, x, rest, off);
      TagRaws(find, pat, items[1..], end, off + TagMatchOf(pat, x).end);
      assert TaggedTexts(items) == [TextOf(x.payload)] + TaggedTexts(items[1..]);
    }
  }

  lemma {:induction false} TagPieces(front: string, lead: string, core: string, tail: string, close: string, rest: string)
    ensures var t, g := front + (lead + core + tail) + (close + rest), |front + lead|;
            && t[g..g + |core|] == core
            && t[g + |core| + |tail| + |close|..] == rest
  {
    var inner := lead + core + tail;
    var t := front + inner + (close + rest);
    Slice(lead, core, tail);
    Slice(front, inner, close + rest);
    assert t[|front| + |lead|..|front| + |lead| + |core|] == t[|front|..|front| + |inner|][|lead|..|lead| + |core|];
    StartsBehind(front + inner, close, rest);
  }

  function PayloadsOf(items: seq<Tagged>): seq<Payload> {
    seq(|items|, i requires 0 <= i < |items| => items[i].payload)
  }

  lemma {:induction false} TagCallsExact(pat: Pattern, items: seq<Tagged>, end: string)
    requires IsTagPattern(pat) && TaggedPayloads(items) && LegalTagged(pat, items) && Lacks(end, pat.open)
    ensures TagCalls(pat, TagText(pat, items, end)) == Expected(PayloadsOf(items))
  {
    hide OneTag, TextOf, Expected, Lacks, Avoids, TagText, FinderOf, Candidates, CallOf, Collect, LegalPayload;
    NoMatchIn(pat, end);
    FinderFinds(pat, end);
    forall x: Tagged, rest: string | LegalPayload(x.payload) && LegalTagged(pat, [x])
      ensures FinderOf(pat)(OneTag(pat, x, rest)) == Some(TagMatchOf(pat, x))
    {
      FindsTag(pat, x, rest);
      FinderFinds(pat, OneTag(pat, x, rest));
    }
    TagRaws(FinderOf(pat), pat, items, end, 0);
    var ps := PayloadsOf(items);
    forall p | p in ps
      ensures LegalPayload(p)
    {
      var i :| 0 <= i < |ps| && ps[i] == p;
      assert items[i] in items;
    }
    assert Texts(ps) == TaggedTexts(items);
    CollectTexts(ps);
  }

  lemma {:induction false} PayloadAvoids(p: Payload, word: string)
    requires LegalPayload(p) && Lacks(TextOf(p), word) && Without(word, '}')
    ensures Avoids(TextOf(p), word)
  {
    hide TextOf, LegalPayload, Lacks;
    PayloadScanned(p);
    AvoidsClosed(TextOf(p), word);
  }

  /** A `<tools>` tag is no `<tool_call>` tag. */
  lemma {:induction false} ToolsTagsAvoid()
    ensures Avoids(TOOLS.open, TOOL_CALL.open) && Avoids(TOOLS.close, TOOL_CALL.open)
  {
    var open, close, word := TOOLS.open, TOOLS.close, TOOL_CALL.open;
    forall i | 0 <= i < |open|
      ensures MismatchAt(open, i, word)
    {
      var j := if i == 0 then 5 else 0;
      assert open[i + j] != word[j];
    }
    forall i | 0 <= i < |close|
      ensures MismatchAt(close, i, word)
    {
      var j := if i == 0 then 1 else 0;
      assert close[i + j] != word[j];
    }
  }

  lemma {:induction false} ToolsLackCallTag(items: seq<Tagged>, end: string)
    requires TaggedPayloads(items) && LegalTagged(TOOLS, items) && NoCallTag(items, end)
    ensures Lacks(TagText(TOOLS, items, end), TOOL_CALL.open)
    decreases |items|
  {
    if items != [] {
      hide TextOf, LegalPayload, Lacks, Avoids;
      var x, rest, word := items[0], TagText(TOOLS, items[1..], end), TOOL_CALL.open;
      assert x in items;
      ToolsLackCallTag(items[1..], end);
      ToolsTagsAvoid();
      SpaceNeutral(x.lead);
      SpaceNeutral(x.tail);
      AvoidsWithout(x.lead, word);
      AvoidsWithout(x.tail, word);
      var text := TextOf(x.payload);
      PayloadAvoids(x.payload, word);
      AvoidsConcat(x.prose, TOOLS.open, word);
      AvoidsConcat(x.lead, text, word);
      AvoidsConcat(x.lead + text, x.tail, word);
      AvoidsConcat(x.prose + TOOLS.open, x.lead + text + x.tail, word);
      LacksBehind(TOOLS.close, rest, word);
      LacksBehind((x.prose + TOOLS.open) + (x.lead + text + x.tail), TOOLS.close + rest, word);
    }
  }

  lemma {:induction false} NoCallTagInTools(items: seq<Tagged>, end: string)
    requires TaggedPayloads(items) && LegalTagged(TOOLS, items) && NoCallTag(items, end)
    ensures TagCalls(TOOL_CALL, TagText(TOOLS, items, end)) == []
  {
    hide Lacks, TagText;
    ToolsLackCallTag(items, end);
    NoTagCalls(TOOL_CALL, TagText(TOOLS, items, end));
  }

  lemma {:induction false} TagTextNotBlank(pat: Pattern, items: seq<Tagged>, end: string)
    requires IsTagPattern(pat) && TaggedPayloads(items) && items != []
    ensures Strip(TagText(pat, items, end)) != ""
  {
    var t := TagText(pat, items, end);
    assert t[|items[0].prose|] == '<';
    if Strip(t) == "" {
      StripEmpty(t);
    }
  }

  /** The prose around the tags. */
  function ProseOf(items: seq<Tagged>, end: string): string {
    if items == [] then end else items[0].prose + ProseOf(items[1..], end)
  }

  lemma {:induction false} RemovedStep(find: Finder, pat: Pattern, x: Tagged, rest: string)
    requires IsTagPattern(pat) && LegalPayload(x.payload)
    requires find(OneTag(pat, x, rest)) == Some(TagMatchOf(pat, x))
    ensures Removed(find, OneTag(pat, x, rest)) == x.prose + Removed(find, rest)
  {
    hide TextOf, LegalPayload;
    PayloadScanned(x.payload);
    var t, m := OneTag(pat, x, rest), TagMatchOf(pat, x);
    TagPieces(x.prose + pat.open, x.lead, TextOf(x.payload), x.tail, pat.close, rest);
    assert t[..m.start] == x.prose && t[m.end..] == rest;
  }

  /** Without its tags, a tagged text is the prose around them. */
  lemma {:induction false} TagsRemoved(find: Finder, pat: Pattern, items: seq<Tagged>, end: string)
    requires IsTagPattern(pat) && TaggedPayloads(items) && LegalTagged(pat, items) && find(end).None?
    requires forall x: Tagged, rest: string | LegalPayload(x.payload) && LegalTagged(pat, [x]) ::
               find(OneTag(pat, x, rest)) == Some(TagMatchOf(pat, x))
    ensures Removed(find, TagText(pat, items, end)) == ProseOf(items, end)
    decreases |items|
  {
    hide OneTag, TextOf, LegalPayload, TagMatchOf, Lacks, Avoids;
    if items == [] {
    } else {
      var x, rest := items[0], TagText(pat, items[1..], end);
      assert x in items;
      assert LegalTagged(pat, [x]);
      RemovedStep(find, pat, x, rest);
      TagsRemoved(find, pat, items[1..], end);
    }
  }

  /** The content that is left of tagged calls is the prose around them. */
  lemma {:induction false} CleanedIsProse(items: seq<Tagged>, end: string)
    requires TaggedPayloads(items) && Expected(PayloadsOf(items)) != []
    ensures LegalTagged(TOOL_CALL, items) && Lacks(end, TOOL_CALL.open) ==>
              Extract(Some(TagText(TOOL_CALL, items, end))).1 == Some(Strip(ProseOf(items, end)))
    ensures LegalTagged(TOOLS, items) && Lacks(end, TOOLS.open) && NoCallTag(items, end) ==>
              Extract(Some(TagText(TOOLS, items, end))).1 == Some(Strip(ProseOf(items, end)))
  {
    hide TagText, TagCalls, FenceCalls, BareCalls, Strip, Removed, LegalTagged, Lacks, ProseOf, FinderOf, NoCallTag, TaggedPayloads,
         Expected, PayloadsOf;
    if LegalTagged(TOOL_CALL, items) && Lacks(end, TOOL_CALL.open) {
      CleanedOf(TOOL_CALL, items, end);
    }
    if LegalTagged(TOOLS, items) && Lacks(end, TOOLS.open) && NoCallTag(items, end) {
      CleanedOf(TOOLS, items, end);
      NoCallTagInTools(items, end);
    }
  }

  lemma {:induction false} CleanedOf(pat: Pattern, items: seq<Tagged>, end: string)
    requires IsTagPattern(pat) && TaggedPayloads(items) && LegalTagged(pat, items) && Lacks(end, pat.open)
    requires Expected(PayloadsOf(items)) != []
    ensures Strip(TagText(pat, items, end)) != "" && TagCalls(pat, TagText(pat, items, end)) != []
    ensures Removed(FinderOf(pat), TagText(pat, items, end)) == ProseOf(items, end)
  {
    hide OneTag, TextOf, TagText, Lacks, Avoids, FinderOf, TagCalls, LegalPayload, Removed, Strip, ProseOf, TagMatchOf;
    NothingExpected();
    TagTextNotBlank(pat, items, end);
    TagCallsExact(pat, items, end);
    RemovedExact(pat, items, end);
  }

  lemma {:induction false} RemovedExact(pat: Pattern, items: seq<Tagged>, end: string)
    requires IsTagPattern(pat) && TaggedPayloads(items) && LegalTagged(pat, items) && Lacks(end, pat.open)
    ensures Removed(FinderOf(pat), TagText(pat, items, end)) == ProseOf(items, end)
  {
    hide OneTag, TextOf, TagText, Lacks, Avoids, FinderOf, LegalPayload, Removed, ProseOf, TagMatchOf;
    NoMatchIn(pat, end);
    FinderFinds(pat, end);
    forall x: Tagged, rest: string | LegalPayload(x.payload) && LegalTagged(pat, [x])
      ensures FinderOf(pat)(OneTag(pat, x, rest)) == Some(TagMatchOf(pat, x))
    {
      FindsTag(pat, x, rest);
      FinderFinds(pat, OneTag(pat, x, rest));
    }
    TagsRemoved(FinderOf(pat), pat, items, end);
  }

  /** Calls in `<tool_call>` tags. */
  lemma {:induction false} ToolCallTags(items: seq<Tagged>, end: string)
    requires TaggedPayloads(items) && LegalTagged(TOOL_CALL, items) && Lacks(end, TOOL_CALL.open)
    requires Expected(PayloadsOf(items)) != []
    ensures Extract(Some(TagText(TOOL_CALL, items, end))).0 == Expected(PayloadsOf(items))
  {
    hide TagText, TagCalls, FenceCalls, BareCalls, Strip, Removed, Lacks, LegalTagged, FinderOf, TaggedPayloads, Expected, PayloadsOf;
    NothingExpected();
    TagTextNotBlank(TOOL_CALL, items, end);
    TagCallsExact(TOOL_CALL, items, end);
  }

  /** Calls in `<tools>` tags. */
  lemma {:induction false} ToolsTags(items: seq<Tagged>, end: string)
    requires TaggedPayloads(items) && LegalTagged(TOOLS, items) && Lacks(end, TOOLS.open) && NoCallTag(items, end)
    requires Expected(PayloadsOf(items)) != []
    ensures Extract(Some(TagText(TOOLS, items, end))).0 == Expected(PayloadsOf(items))
  {
    hide TagText, TagCalls, FenceCalls, BareCalls, Strip, Removed, Lacks, LegalTagged, NoCallTag, FinderOf, TaggedPayloads, Expected,
         PayloadsOf;
    NothingExpected();
    TagTextNotBlank(TOOLS, items, end);
    NoCallTagInTools(items, end);
    TagCallsExact(TOOLS, items, end);
  }

  // ---- Fences and bare objects ----

  lemma {:induction false} BareAvoids(ps: seq<Payload>, seps: seq<string>, word: string)
    requires AllLegalPayloads(ps) && |seps| == |ps| + 1 && Without(word, '}')
    requires (forall p | p in ps :: Lacks(TextOf(p), word)) && forall s | s in seps :: Avoids(s, word)
    ensures Avoids(BareText(ps, seps), word)
  {
    hide TextOf, LegalPayload, Lacks, Avoids;
    assert seps[0] in seps;
    if ps != [] {
      assert ps[0] in ps;
      PayloadAvoids(ps[0], word);
      BareAvoids(ps[1..], seps[1..], word);
      AvoidsConcat(seps[0], TextOf(ps[0]), word);
      AvoidsConcat(seps[0] + TextOf(ps[0]), BareText(ps[1..], seps[1..]), word);
    }
  }

  lemma {:induction false} BareUnmarked(ps: seq<Payload>, seps: seq<string>)
    requires AllLegalPayloads(ps) && AllUnmarked(ps) && |seps| == |ps| + 1 && LegalSeps(seps)
    ensures UnmarkedProse(BareText(ps, seps)) && Unmarked(BareText(ps, seps))
  {
    hide TextOf, LegalPayload, Lacks, Avoids, BareText, Neutral;
    BareAvoids(ps, seps, TOOL_CALL.open);
    BareAvoids(ps, seps, TOOLS.open);
    BareAvoids(ps, seps, TICKS);
    AvoidsLacks(BareText(ps, seps), TOOL_CALL.open);
    AvoidsLacks(BareText(ps, seps), TOOLS.open);
    AvoidsLacks(BareText(ps, seps), TICKS);
  }

  lemma {:induction false} BareBrace(ps: seq<Payload>, seps: seq<string>) returns (i: nat)
    requires AllLegalPayloads(ps) && |seps| == |ps| + 1 && ps != []
    ensures i < |BareText(ps, seps)| && BareText(ps, seps)[i] == '{'
  {
    hide TextOf, LegalPayload;
    assert ps[0] in ps;
    PayloadScanned(ps[0]);
    i := |seps[0]|;
  }

  lemma {:induction false} NoTagCalls(pat: Pattern, t: string)
    requires pat.Tag? && Lacks(t, pat.open)
    ensures TagCalls(pat, t) == []
  {
    NoMatchIn(pat, t);
  }

  lemma {:induction false} NoFenceCalls(t: string)
    requires Lacks(t, TICKS)
    ensures FenceCalls(t) == []
  {
    NoMatchIn(Fence, t);
  }

  lemma {:induction false} NotBlank(t: string, i: nat)
    requires i < |t| && !IsSpace(t[i])
    ensures Strip(t) != ""
  {
    if Strip(t) == "" {
      StripEmpty(t);
    }
  }

  /** Calls as bare objects in prose; nothing of the prose is left. */
  lemma {:induction false} BareObjects(ps: seq<Payload>, seps: seq<string>)
    requires AllLegalPayloads(ps) && AllUnmarked(ps) && |seps| == |ps| + 1 && LegalSeps(seps)
    requires Expected(ps) != []
    ensures Extract(Some(BareText(ps, seps))) == (Expected(ps), Some(""))
  {
    hide BareText, TagCalls, FenceCalls, Strip, Removed, Lacks, Avoids, LegalSeps, FinderOf, CallOf, Collect, Objects;
    var t := BareText(ps, seps);
    NothingExpected();
    BareUnmarked(ps, seps);
    var i := BareBrace(ps, seps);
    NotBlank(t, i);
    NoTagCalls(TOOL_CALL, t);
    NoTagCalls(TOOLS, t);
    NoFenceCalls(t);
    LegalSepsNeutral(seps);
    ObjectsOfBare(ps, seps);
    CollectTexts(ps);
  }

  /** A fence with language `lang` stands at `p`, its first character that is no white space at `g`, its end at `c`. */
  ghost predicate FenceAt(t: string, p: nat, lang: string, g: nat, c: nat) {
    && StartsAt(t, p, TICKS) && StartsAt(t, c, TICKS)
    && Language(t, p + 3) == lang && p + 3 + |lang| <= g < c
    && (forall i | p + 3 + |lang| <= i < g :: IsSpace(t[i])) && !IsSpace(t[g])
    && NoneStarts(t, g + 1, c, TICKS) && NoneStarts(t, 0, p, TICKS)
  }

  lemma {:induction false} FenceMatches(t: string, p: nat, lang: string, g: nat, c: nat)
    requires FenceAt(t, p, lang, g, c)
    ensures FirstMatch(Fence, t, 0) == Some(Match(p, g, c, c + 3))
  {
    hide Language, LazyGroup, SkipSpace, MatchAt, FirstMatch;
    assert c + 3 <= |t| && p <= |t|;
    LazyGroupAt(t, TICKS, p + 3 + |lang|, g, c);
    FenceMatchHere(t, p, lang, g, c);
    FirstMatchIs(Fence, t, 0, p);
  }

  lemma {:induction false} FenceMatchHere(t: string, p: nat, lang: string, g: nat, c: nat)
    requires FenceAt(t, p, lang, g, c)
    requires LazyGroup(t, TICKS, p + 3 + |lang|, SkipSpace(t, p + 3 + |lang|)) == Some((g, c))
    ensures MatchAt(Fence, t, p) == Some(Match(p, g, c, c + 3))
  {
    hide LazyGroup, SkipSpace, Language;
  }

  lemma {:induction false} OneFenceAt(before: string, lang: string, full: string, after: string, g: nat)
    requires IsLanguage(lang) && (lang == "" ==> Language(full, 0) == "") && g < |full|
    requires Avoids(before, TICKS) && Avoids(full, TICKS)
    requires !IsSpace(full[g]) && forall i | 0 <= i < g :: IsSpace(full[i])
    ensures var lo := |before| + 3 + |lang|;
            FenceAt(OneFence(before, lang, full, after), |before|, lang, lo + g, lo + |full|)
  {
    hide Language, IsSpace, StartsAt, Avoids, NoneStarts;
    var t := OneFence(before, lang, full, after);
    var mid, last := TICKS + lang, TICKS + after;
    StartsInFront(before, mid, full, last);
    SplitStart(t, |before|, TICKS, lang);
    StartsBehind((before + mid) + full, TICKS, after);
    Slice(before + mid, full, last);
    SpacesAt(t, |before + mid|, full[..g]);
    CharAt(t, |before + mid|, full, g);
    LanguageHere(before, lang, full, after);
    NoneStartsIn(before + mid, full, last, TICKS);
    NoneEarlier(t, |before + mid|, |before + mid| + |full|, |before + mid| + g + 1, |before + mid| + |full|, TICKS);
    FrontGrouped(before, mid, full + last, full, last);
    NoneStartsIn("", before, mid + (full + last), TICKS);
  }

  lemma {:induction false} FrontGrouped(before: string, mid: string, more: string, full: string, last: string)
    requires more == full + last
    ensures (before + mid) + full + last == "" + before + (mid + more)
  {
  }

  /** The language word found behind the opening backticks is the one written there. */
  lemma {:induction false} LanguageHere(before: string, lang: string, full: string, after: string)
    requires IsLanguage(lang) && (lang == "" ==> Language(full, 0) == "")
    ensures Language(OneFence(before, lang, full, after), |before| + 3) == lang
  {
    hide StartsAt;
    var t, a := OneFence(before, lang, full, after), |before| + 3;
    var head, rest := before + TICKS, lang + (full + (TICKS + after));
    assert t == head + rest;
    StartsInTail(head, rest, 0, "json");
    StartsInTail(head, rest, 0, "python");
    if lang == "" {
      assert rest == full + (TICKS + after);
      WordBeforeTicks(full, after, "json");
      WordBeforeTicks(full, after, "python");
    } else {
      StartsAtSlice("", lang, full + (TICKS + after));
      assert "" + lang + (full + (TICKS + after)) == rest;
      StartsAtChar(rest, 0, "json", 0);
      StartsAtChar(rest, 0, "python", 0);
    }
  }

  /** A word without backticks in front of the closing backticks stands in the text before them. */
  lemma {:induction false} WordBeforeTicks(full: string, after: string, w: string)
    requires Without(w, '`')
    ensures StartsAt(full + (TICKS + after), 0, w) ==> StartsAt(full, 0, w)
  {
    var t := full + (TICKS + after);
    assert t[|full|] == '`';
    if StartsAt(t, 0, w) {
      if |full| < |w| {
        StartsAtChar(t, 0, w, |full|);
        assert false;
      }
      assert t[0..|w|] == full[0..|w|];
    }
  }

  lemma {:induction false} SplitStart(t: string, p: nat, a: string, b: string)
    requires StartsAt(t, p, a + b)
    ensures StartsAt(t, p, a) && StartsAt(t, p + |a|, b)
  {
    var both := t[p..p + |a + b|];
    assert t[p..p + |a|] == both[..|a|];
    assert t[p + |a|..p + |a| + |b|] == both[|a|..];
  }

  /** The fence is matched first: its raw text is what follows the white space behind the language. */
  lemma {:induction false} FenceCandidate(before: string, lang: string, full: string, rest: string, g: nat, off: nat)
      returns (off': nat)
    requires IsLanguage(lang) && (lang == "" ==> Language(full, 0) == "") && g < |full|
    requires Avoids(before, TICKS) && Avoids(full, TICKS)
    requires !IsSpace(full[g]) && forall i | 0 <= i < g :: IsSpace(full[i])
    ensures Raws(Candidates(FinderOf(Fence), OneFence(before, lang, full, rest), off))
         == [full[g..]] + Raws(Candidates(FinderOf(Fence), rest, off'))
  {
    hide OneFence, FenceAt, FirstMatch, FinderOf, Raws, Candidates;
    var t, lo := OneFence(before, lang, full, rest), |before| + 3 + |lang|;
    OneFenceAt(before, lang, full, rest, g);
    FenceMatches(t, |before|, lang, lo + g, lo + |full|);
    FinderFinds(Fence, t);
    FenceRaw(FinderOf(Fence), before, lang, full, rest, g, off);
    off' := off + (lo + |full| + 3);
  }

  lemma {:induction false} FenceRaw(find: Finder, before: string, lang: string, full: string, rest: string, g: nat, off: nat)
    requires g < |full|
    requires var lo := |before| + 3 + |lang|;
             find(OneFence(before, lang, full, rest)) == Some(Match(|before|, lo + g, lo + |full|, lo + |full| + 3))
    ensures Raws(Candidates(find, OneFence(before, lang, full, rest), off))
         == [full[g..]] + Raws(Candidates(find, rest, off + (|before| + 3 + |lang| + |full| + 3)))
  {
    var t, lo := OneFence(before, lang, full, rest), |before| + 3 + |lang|;
    Slice(before + (TICKS + lang), full, TICKS + rest);
    assert t[lo + g..lo + |full|] == t[lo..lo + |full|][g..];
    StartsBehind((before + (TICKS + lang)) + full, TICKS, rest);
    CandidatesStep(find, t, off, Match(|before|, lo + g, lo + |full|, lo + |full| + 3), full[g..], rest);
  }

  lemma {:induction false} FirstInk(t: string, i: nat) returns (g: nat)
    requires i < |t| && !IsSpace(t[i])
    ensures g < |t| && !IsSpace(t[g]) && forall k | 0 <= k < g :: IsSpace(t[k])
  {
    g := 0;
    while IsSpace(t[g])
      decreases i - g
      invariant g <= i && forall k | 0 <= k < g :: IsSpace(t[k])
    {
      g := g + 1;
    }
  }

  lemma {:induction false} FenceTierWins(t: string)
    requires Strip(t) != "" && TagCalls(TOOL_CALL, t) == [] && TagCalls(TOOLS, t) == [] && FenceCalls(t) != []
    ensures Extract(Some(t)) == (FenceCalls(t), Some(""))
  {
    hide TagCalls, FenceCalls, BareCalls, Strip;
  }

  lemma {:induction false} FencedObjectsStep(body: string, more: seq<string>)
    ensures FencedObjects([body] + more) == Objects(body) + FencedObjects(more)
  {
    hide Objects;
    ObjectsOfStrip(body);
    assert ([body] + more)[1..] == more;
  }

  /** The objects of the fences in a text. */
  function FenceObjects(t: string, off: nat): seq<string> {
    FencedObjects(Raws(Candidates(FinderOf(Fence), t, off)))
  }

  /** A code fence behind a language word contributes its payloads. */
  lemma {:induction false} LanguageFence(before: string, lang: string, ps: seq<Payload>, seps: seq<string>, rest: string, off: nat)
      returns (off': nat)
    requires AllLegalPayloads(ps) && AllUnmarked(ps) && |seps| == |ps| + 1 && LegalSeps(seps)
    requires IsLanguage(lang) && (lang == "" ==> Language(BareText(ps, seps), 0) == "") && Avoids(before, TICKS)
    requires ps != [] || !AllSpace(seps[0])
    ensures FenceObjects(OneFence(before, lang, BareText(ps, seps), rest), off) == Texts(ps) + FenceObjects(rest, off')
  {
    hide BareText, OneFence, Texts, Objects, Raws, Candidates, FinderOf, Language, LegalPayload, Neutral, FencedObjects,
         Avoids, Lacks;
    var bare := BareText(ps, seps);
    BareUnmarked(ps, seps);
    var i := BareInk(ps, seps);
    var g := FirstInk(bare, i);
    off' := FenceCandidate(before, lang, bare, rest, g, off);
    BehindSpace(bare, g);
    ObjectsOfBare(ps, seps);
    FencedObjectsStep(bare[g..], Raws(Candidates(FinderOf(Fence), rest, off')));
  }

  lemma {:induction false} BareInk(ps: seq<Payload>, seps: seq<string>) returns (i: nat)
    requires AllLegalPayloads(ps) && |seps| == |ps| + 1 && (ps != [] || !AllSpace(seps[0]))
    ensures i < |BareText(ps, seps)| && !IsSpace(BareText(ps, seps)[i])
  {
    hide IsSpace, TextOf, LegalPayload;
    if ps != [] {
      i := BareBrace(ps, seps);
      BraceIsInk();
    } else {
      i :| 0 <= i < |seps[0]| && !IsSpace(seps[0][i]);
    }
  }

  lemma {:induction false} BraceIsInk()
    ensures !IsSpace('{')
  {
  }

  /** The text before the first payload without a word at its start. */
  function Shortened(seps: seq<string>, word: string): seq<string>
    requires seps != [] && |word| <= |seps[0]|
  {
    [seps[0][|word|..]] + seps[1..]
  }

  lemma {:induction false} WordInFront(ps: seq<Payload>, seps: seq<string>, word: string)
    requires AllLegalPayloads(ps) && |seps| == |ps| + 1
    requires StartsAt(BareText(ps, seps), 0, word) && Without(word, '{')
    ensures |word| <= |seps[0]| && seps[0][..|word|] == word
  {
    hide TextOf, LegalPayload;
    var all := BareText(ps, seps);
    if ps != [] {
      assert ps[0] in ps;
      PayloadScanned(ps[0]);
      assert all == seps[0] + TextOf(ps[0]) + BareText(ps[1..], seps[1..]);
      assert all[|seps[0]|] == '{';
      if |word| > |seps[0]| {
        StartsAtChar(all, 0, word, |seps[0]|);
        assert false;
      }
    }
    assert all[0..|word|] == seps[0][..|word|];
  }

  lemma {:induction false} BareShortened(ps: seq<Payload>, seps: seq<string>, word: string)
    requires AllLegalPayloads(ps) && |seps| == |ps| + 1 && LegalSeps(seps)
    requires StartsAt(BareText(ps, seps), 0, word) && Without(word, '{')
    ensures |word| <= |seps[0]| && seps[0][..|word|] == word && LegalSeps(Shortened(seps, word))
    ensures BareText(ps, seps) == word + BareText(ps, Shortened(seps, word))
  {
    hide TextOf, LegalPayload, Avoids;
    WordInFront(ps, seps, word);
    var tail, seps' := seps[0][|word|..], Shortened(seps, word);
    assert seps[0] in seps && seps[0] == word + tail && seps'[1..] == seps[1..];
    if ps != [] {
      var text, rest := TextOf(ps[0]), BareText(ps[1..], seps[1..]);
      assert word + tail + text + rest == word + (tail + text + rest);
    }
    AvoidsTail(seps[0], |word|, TOOL_CALL.open);
    AvoidsTail(seps[0], |word|, TOOLS.open);
    AvoidsTail(seps[0], |word|, TICKS);
    forall x | x in seps'
      ensures Neutral(x) && UnmarkedProse(x)
    {
      if x != tail {
        assert x in seps;
      }
    }
  }

  /** The language of a fence stands in the text before its first payload. */
  lemma {:induction false} LanguageInFront(ps: seq<Payload>, seps: seq<string>)
    requires AllLegalPayloads(ps) && |seps| == |ps| + 1
    ensures var lang := Language(BareText(ps, seps), 0);
            StartsAt(BareText(ps, seps), 0, lang) && Without(lang, '{') && IsLanguage(lang)
    ensures ps == [] ==> Language(BareText(ps, seps), 0) == Language(seps[0], 0)
  {
    hide TextOf, LegalPayload;
  }

  /** Whatever language is written behind the backticks. */
  lemma {:induction false} AnyFence(x: Fenced, rest: string, off: nat) returns (off': nat)
    requires LegalFence(x)
    ensures FenceObjects(OneFence(x.before, "", BareText(x.payloads, x.seps), rest), off)
         == Texts(x.payloads) + FenceObjects(rest, off')
  {
    hide BareText, LegalPayload, StartsAt, OneFence, FenceObjects, Texts, Language, Avoids, LegalSeps, AllSpace;
    var lang := Language(BareText(x.payloads, x.seps), 0);
    LanguageInFront(x.payloads, x.seps);
    if lang == "" {
      assert x.seps[0][0..] == x.seps[0];
      off' := LanguageFence(x.before, "", x.payloads, x.seps, rest, off);
    } else {
      BareShortened(x.payloads, x.seps, lang);
      var seps := Shortened(x.seps, lang);
      off' := LanguageFence(x.before, lang, x.payloads, seps, rest, off);
      FenceMoves(x.before, lang, BareText(x.payloads, seps), rest);
    }
  }

  lemma {:induction false} PayloadsInLegal(items: seq<Fenced>)
    requires FencedPayloads(items)
    ensures AllLegalPayloads(PayloadsIn(items))
  {
    if items != [] {
      hide LegalPayload;
      assert items[0] in items;
      PayloadsInLegal(items[1..]);
    }
  }

  lemma {:induction false} NoFenceObjects(t: string, off: nat)
    requires Lacks(t, TICKS)
    ensures FenceObjects(t, off) == []
  {
    NoMatchIn(Fence, t);
  }

  lemma {:induction false} AllFences(items: seq<Fenced>, end: string, off: nat)
    requires FencedPayloads(items) && LegalFences(items) && Lacks(end, TICKS) && AllLegalPayloads(PayloadsIn(items))
    ensures FenceObjects(FencesText(items, end), off) == Texts(PayloadsIn(items))
    decreases |items|
  {
    hide LegalFence, FenceObjects, OneFence, BareText, LegalPayload, TextOf, Lacks;
    if items == [] {
      NoFenceObjects(end, off);
    } else {
      assert items[0] in items;
      PayloadsInLegal(items[1..]);
      var off' := AnyFence(items[0], FencesText(items[1..], end), off);
      AllFences(items[1..], end, off');
      TextsConcat(items[0].payloads, PayloadsIn(items[1..]));
    }
  }

  lemma {:induction false} TextsConcat(a: seq<Payload>, b: seq<Payload>)
    requires AllLegalPayloads(a) && AllLegalPayloads(b) && AllLegalPayloads(a + b)
    ensures Texts(a + b) == Texts(a) + Texts(b)
  {
    hide TextOf, LegalPayload;
  }

  lemma {:induction false} FencesTagless(items: seq<Fenced>, end: string, word: string)
    requires FencedPayloads(items) && LegalFences(items) && TaglessFences(items) && Lacks(end, word)
    requires word == TOOL_CALL.open || word == TOOLS.open
    ensures Lacks(FencesText(items, end), word)
  {
    if items != [] {
      hide BareText, LegalPayload, TextOf, Lacks, Avoids, LegalSeps, HasInk;
      var x, rest := items[0], FencesText(items[1..], end);
      assert x in items;
      FencesTagless(items[1..], end, word);
      BareUnmarked(x.payloads, x.seps);
      var bare := BareText(x.payloads, x.seps);
      TicksAvoid(word);
      assert TICKS + "" == TICKS;
      AvoidsConcat(x.before, TICKS, word);
      AvoidsConcat(x.before + TICKS, bare, word);
      LacksBehind(TICKS, rest, word);
      LacksBehind((x.before + TICKS) + bare, TICKS + rest, word);
    }
  }

  lemma {:induction false} TicksAvoid(word: string)
    requires word != "" && word[0] == '<'
    ensures Avoids(TICKS, word)
  {
    AvoidsWithout(TICKS, word);
  }

  lemma {:induction false} NothingExpected()
    ensures Expected([]) == [] && PayloadsOf([]) == [] && PayloadsIn([]) == []
  {
  }

  lemma {:induction false} FencesNotBlank(items: seq<Fenced>, end: string)
    requires items != [] && FencedPayloads(items)
    ensures Strip(FencesText(items, end)) != ""
  {
    hide BareText, Strip, LegalPayload, TextOf;
    var x := items[0];
    var t := FencesText(items, end);
    assert t[|x.before|] == '`';
    NotBlank(t, |x.before|);
  }

  /** Calls in any number of code fences, whatever languages they name; nothing of the prose is left. */
  lemma {:induction false} FencedCallsExact(items: seq<Fenced>, end: string)
    requires FencedPayloads(items) && LegalFences(items) && TaglessFences(items) && Unmarked(end)
    requires Expected(PayloadsIn(items)) != []
    ensures Extract(Some(FencesText(items, end))) == (Expected(PayloadsIn(items)), Some(""))
  {
    hide FencesText, LegalFence, Lacks, Strip, TagCalls, Extract, CallOf, Collect, Texts, FencedObjects, LegalPayload,
         TaglessFences;
    var t := FencesText(items, end);
    NothingExpected();
    PayloadsInLegal(items);
    AllFences(items, end, 0);
    CollectTexts(PayloadsIn(items));
    FencesNotBlank(items, end);
    FencesTagless(items, end, TOOL_CALL.open);
    FencesTagless(items, end, TOOLS.open);
    NoTagCalls(TOOL_CALL, t);
    NoTagCalls(TOOLS, t);
    FenceTierWins(t);
  }

  lemma {:induction false} FenceMoves(before: string, lang: string, full: string, after: string)
    ensures OneFence(before, "", lang + full, after) == OneFence(before, lang, full, after)
  {
    assert TICKS + "" == TICKS;
  }

  lemma {:induction false} BehindSpace(t: string, g: nat)
    requires g <= |t| && forall i | 0 <= i < g :: IsSpace(t[i])
    ensures Objects(t[g..]) == Objects(t)
  {
    assert t == t[..g] + t[g..];
    ObjectsBehindSpace(t[..g], t[g..]);
  }

  /** Payloads and prose that open and close no tag and no fence. */
  ghost predicate LegalEverywhere(items: seq<Tagged>, end: string) {
    && TaggedPayloads(items) && LegalTagged(TOOL_CALL, items) && LegalTagged(TOOLS, items) && NoCallTag(items, end)
    && (forall x | x in items :: LegalPayload(x.payload) && Unmarked(TextOf(x.payload))) && Unmarked(end)
  }

  /** The wrapping does not matter: the same payloads give the same calls in the same order, however wrapped. */
  lemma {:induction false} SameCallsHoweverWrapped(items: seq<Tagged>, fences: seq<Fenced>, end: string, seps: seq<string>)
    requires LegalEverywhere(items, end) && Expected(PayloadsOf(items)) != []
    requires FencedPayloads(fences) && LegalFences(fences) && TaglessFences(fences) && PayloadsIn(fences) == PayloadsOf(items)
    requires |seps| == |items| + 1 && LegalSeps(seps)
    ensures var ps := PayloadsOf(items);
            && AllLegalPayloads(ps)
            && Extract(Some(TagText(TOOL_CALL, items, end))).0 == Expected(ps)
            && Extract(Some(TagText(TOOLS, items, end))).0 == Expected(ps)
            && Extract(Some(FencesText(fences, end))).0 == Expected(ps)
            && Extract(Some(BareText(ps, seps))).0 == Expected(ps)
  {
    hide Extract, TagText, FencesText, BareText, Expected, Neutral, LegalPayload, TextOf, Lacks, LegalFence, LegalTagged,
         LegalSeps, NoCallTag;
    var ps := PayloadsOf(items);
    forall p | p in ps
      ensures LegalPayload(p) && Unmarked(TextOf(p))
    {
      var i :| 0 <= i < |ps| && ps[i] == p;
      assert items[i] in items;
    }
    ToolCallTags(items, end);
    ToolsTags(items, end);
    FencedCallsExact(fences, end);
    BareObjects(ps, seps);
  }

  // ---- One call, letter by letter ----

  /** No character that a tag or a fence starts with. */
  predicate Harmless(t: string) {
    Without(t, '<') && Without(t, '`')
  }

  lemma {:induction false} HarmlessUnmarked(t: string)
    requires Harmless(t)
    ensures Unmarked(t) && UnmarkedProse(t)
  {
    AvoidsWithout(t, TOOL_CALL.open);
    AvoidsWithout(t, TOOLS.open);
    AvoidsWithout(t, TICKS);
    LacksWithout(t, TOOL_CALL.open);
    LacksWithout(t, TOOLS.open);
    LacksWithout(t, TICKS);
  }

  lemma {:induction false} OneExpected(p: Payload)
    requires IsCall(p)
    ensures Expected([p]) == [ExpectedCall(p)]
  {
    hide IsCall, ExpectedCall;
    assert [p][1..] == [];
  }

  lemma {:induction false} OneTagged(pat: Pattern, x: Tagged, end: string)
    requires IsTagPattern(pat) && LegalPayload(x.payload) && IsCall(x.payload) && Harmless(x.prose) && Harmless(TextOf(x.payload))
    requires AllSpace(x.lead) && AllSpace(x.tail) && Harmless(end)
    ensures TaggedPayloads([x]) && LegalTagged(pat, [x]) && Lacks(end, pat.open)
    ensures NoCallTag([x], end) && Expected(PayloadsOf([x])) == [ExpectedCall(x.payload)]
    ensures TagText(pat, [x], end) == x.prose + pat.open + x.lead + TextOf(x.payload) + x.tail + pat.close + end
  {
    hide LegalPayload, IsCall, TextOf, Lacks, Avoids, ExpectedCall, AllSpace;
    var text := TextOf(x.payload);
    LacksWithout(text, pat.close);
    LacksWithout(end, pat.open);
    AvoidsWithout(x.prose, pat.open);
    HarmlessUnmarked(text);
    HarmlessUnmarked(x.prose);
    HarmlessUnmarked(end);
    assert PayloadsOf([x]) == [x.payload];
    OneExpected(x.payload);
    assert [x][1..] == [];
    assert (x.prose + pat.open) + (x.lead + text + x.tail) + (pat.close + end)
        == x.prose + pat.open + x.lead + text + x.tail + pat.close + end;
  }

  /** A call between `<tool_call>` tags, or between `<tools>` tags. */
  lemma {:induction false} CallInTags(prose: string, lead: string, p: Payload, tail: string, end: string)
    requires LegalPayload(p) && IsCall(p) && Harmless(TextOf(p)) && Harmless(prose) && Harmless(end) && AllSpace(lead) && AllSpace(tail)
    ensures Extract(Some(prose + "<tool_call>" + lead + TextOf(p) + tail + "</tool_call>" + end)).0 == [ExpectedCall(p)]
    ensures Extract(Some(prose + "<tools>" + lead + TextOf(p) + tail + "</tools>" + end)).0 == [ExpectedCall(p)]
  {
    hide Extract, LegalPayload, IsCall, TextOf, TagText, Expected, ExpectedCall, Lacks, LegalTagged, NoCallTag, TaggedPayloads, PayloadsOf,
         AllSpace, Harmless;
    var x := Tagged(prose, lead, p, tail);
    OneTagged(TOOL_CALL, x, end);
    ToolCallTags([x], end);
    OneTagged(TOOLS, x, end);
    ToolsTags([x], end);
  }

  lemma {:induction false} LanguageHarmless(lang: string, lead: string, tail: string)
    requires (lang == "" || lang == "json" || lang == "python") && AllSpace(lead) && AllSpace(tail)
    ensures LegalSeps([lang + lead, tail])
  {
    hide IsSpace;
    SpaceNeutral(lead);
    SpaceNeutral(tail);
    HarmlessUnmarked(lang + lead);
    HarmlessUnmarked(tail);
  }

  lemma {:induction false} OneBare(p: Payload, before: string, after: string)
    requires LegalPayload(p)
    ensures AllLegalPayloads([p]) && BareText([p], [before, after]) == before + TextOf(p) + after
  {
    hide LegalPayload, TextOf;
    assert [p][1..] == [] && [before, after][1..] == [after] && BareText([], [after]) == after;
  }

  /** A call in a fence, with or without a language behind the backticks. */
  lemma {:induction false} CallInFence(prose: string, lang: string, lead: string, p: Payload, tail: string, end: string)
    requires LegalPayload(p) && IsCall(p) && Harmless(TextOf(p)) && Harmless(prose) && Harmless(end) && AllSpace(lead) && AllSpace(tail)
    requires lang == "" || lang == "json" || lang == "python"
    ensures Extract(Some(prose + "```" + lang + lead + TextOf(p) + tail + "```" + end)) == ([ExpectedCall(p)], Some(""))
  {
    hide Extract, LegalPayload, IsCall, TextOf, Expected, ExpectedCall, Lacks, Avoids, BareText, LegalSeps, AllSpace, Harmless;
    var f := Fenced(prose, [p], [lang + lead, tail]);
    var bare := lang + lead + TextOf(p) + tail;
    HarmlessUnmarked(prose);
    HarmlessUnmarked(end);
    HarmlessUnmarked(TextOf(p));
    LanguageHarmless(lang, lead, tail);
    OneBare(p, lang + lead, tail);
    OneExpected(p);
    assert [f][1..] == [] && FencedPayloads([f]);
    assert PayloadsIn([f]) == [p] + [] == [p];
    FencedCallsExact([f], end);
    assert FencesText([f], end) == OneFence(prose, "", bare, end);
    FenceFlat(prose, lang + lead, TextOf(p), tail, end);
    Assoc(prose + "```", lang, lead);
  }

  lemma {:induction false} FenceFlat(prose: string, before: string, text: string, tail: string, end: string)
    ensures OneFence(prose, "", before + text + tail, end) == prose + "```" + before + text + tail + "```" + end
  {
    assert TICKS + "" == "```";
  }

  /** A call as it is, in prose without quotes and braces. */
  lemma {:induction false} CallInProse(prose: string, p: Payload, end: string)
    requires LegalPayload(p) && IsCall(p) && Harmless(TextOf(p)) && Harmless(prose) && Harmless(end) && Neutral(prose) && Neutral(end)
    ensures Extract(Some(prose + TextOf(p) + end)) == ([ExpectedCall(p)], Some(""))
  {
    hide Extract, LegalPayload, IsCall, TextOf, Expected, ExpectedCall, Lacks, Avoids, BareText, Harmless, Neutral;
    HarmlessUnmarked(prose);
    HarmlessUnmarked(end);
    HarmlessUnmarked(TextOf(p));
    OneBare(p, prose, end);
    OneExpected(p);
    BareObjects([p], [prose, end]);
  }
}
