/**
 Extraction of tool calls from model text: `<tool_call>` tags, `<tools>` tags, code fences, bare objects, in
 this order; the first of them that holds a valid call wins.
 */
module ToolCallExtractor {
  import opened Text
  import opened Json
  import opened BraceScanner

  /** A tool call: its name, and its arguments as text (or whatever a native call carries in their place). */
  datatype Call = Call(name: Json, args: Json)

  // ---- The three regular expressions ----

  /**
   `Tag(open, close)` is `open\s*(.+?)\s*close`, and `Fence` is three backticks, optionally `json` or `python`,
   then `\s*(.+?)` and three backticks, with `.` matching every character.
   */
  datatype Pattern = Tag(open: string, close: string) | Fence

  const TOOL_CALL := Tag("<tool_call>", "</tool_call>")
  const TOOLS := Tag("<tools>", "</tools>")
  const TICKS := "```"

  datatype Match = Match(start: nat, groupStart: nat, groupEnd: nat, end: nat)

  /**
   The lazy group behind a greedy `\s*`: the group starts as far right as the white space allows (`hi`), and
   earlier, down to `lo`, only if no closing text follows otherwise. Yields the group's start and the closing text's.
   */
  function LazyGroup(t: string, close: string, lo: nat, hi: nat): (r: Option<(nat, nat)>)
    requires lo <= hi <= |t|
    ensures r.Some? ==> lo <= r.value.0 <= hi && r.value.0 < r.value.1 && StartsAt(t, r.value.1, close)
    decreases hi
  {
    match Find(t, close, hi + 1)
    case Some(c) => Some((hi, c))
    case None => if lo < hi then LazyGroup(t, close, lo, hi - 1) else None
  }

  /** The end of a lazy group that a greedy `\s*` follows: white space at its end is left out, but it is never empty. */
  function GroupEnd(t: string, g: nat, c: nat): (e: nat)
    requires g < c <= |t|
    ensures g < e <= c
    decreases c
  {
    if g + 1 < c && IsSpace(t[c - 1]) then GroupEnd(t, g, c - 1) else c
  }

  function Language(t: string, p: nat): string {
    if StartsAt(t, p, "json") then "json" else if StartsAt(t, p, "python") then "python" else ""
  }

  function FenceMatch(t: string, p: nat, from: nat): (r: Option<Match>)
    requires p < from <= |t|
    ensures r.Some? ==> p == r.value.start <= r.value.groupStart < r.value.groupEnd <= r.value.end <= |t|
  {
    match LazyGroup(t, TICKS, from, SkipSpace(t, from))
    case Some((g, c)) => Some(Match(p, g, c, c + |TICKS|))
    case None => None
  }

  function TagMatchAt(open: string, close: string, t: string, p: nat): (r: Option<Match>)
    requires p <= |t|
    ensures r.Some? ==> p == r.value.start <= r.value.groupStart < r.value.groupEnd <= r.value.end <= |t|
  {
    if !StartsAt(t, p, open) then None
    else
      var lo := p + |open|;
      match LazyGroup(t, close, lo, SkipSpace(t, lo))
      case Some((g, c)) => Some(Match(p, g, GroupEnd(t, g, c), c + |close|))
      case None => None
  }

  function FenceMatchAt(t: string, p: nat): (r: Option<Match>)
    requires p <= |t|
    ensures r.Some? ==> p == r.value.start <= r.value.groupStart < r.value.groupEnd <= r.value.end <= |t|
  {
    if !StartsAt(t, p, TICKS) then None
    else
      var a := p + |TICKS|;
      var lang := Language(t, a);
      match FenceMatch(t, p, a + |lang|)
      case Some(m) => Some(m)
      case None => if lang == "" then None else FenceMatch(t, p, a)
  }

  function MatchAt(pat: Pattern, t: string, p: nat): (r: Option<Match>)
    requires p <= |t|
    ensures r.Some? ==> p == r.value.start <= r.value.groupStart < r.value.groupEnd <= r.value.end <= |t|
  {
    match pat case Tag(open, close) => TagMatchAt(open, close, t, p) case Fence => FenceMatchAt(t, p)
  }

  function FirstMatch(pat: Pattern, t: string, from: nat): (r: Option<Match>)
    requires from <= |t|
    ensures r.Some? ==> from <= r.value.start <= r.value.groupStart < r.value.groupEnd <= r.value.end <= |t|
    decreases |t| - from
  {
    match MatchAt(pat, t, from)
    case Some(m) => Some(m)
    case None => if from < |t| then FirstMatch(pat, t, from + 1) else None
  }

  /** `search`: the first match, if any. */
  type Finder = string -> Option<Match>

  function FinderOf(pat: Pattern): Finder {
    (t: string) => FirstMatch(pat, t, 0)
  }

  predicate Within(m: Match, t: string) {
    m.start <= m.groupStart < m.groupEnd <= m.end <= |t|
  }

  datatype Candidate = Candidate(start: nat, end: nat, raw: string)

  /** `finditer`: every match, each searched for behind the one before. `off` is where `t` starts in the content. */
  function Candidates(find: Finder, t: string, off: nat): seq<Candidate>
    decreases |t|
  {
    match find(t)
    case None => []
    case Some(m) =>
      if !Within(m, t) then []
      else [Candidate(off + m.start, off + m.end, t[m.groupStart..m.groupEnd])] + Candidates(find, t[m.end..], off + m.end)
  }

  /** `sub("", t)`: the text without its matches. */
  function Removed(find: Finder, t: string): string
    decreases |t|
  {
    match find(t)
    case None => t
    case Some(m) => if !Within(m, t) then t else t[..m.start] + Removed(find, t[m.end..])
  }

  /** The test in the two functions above never fails: a match lies within the text searched. */
  lemma {:induction false} MatchWithin(pat: Pattern, t: string)
    ensures FinderOf(pat)(t).Some? ==> Within(FinderOf(pat)(t).value, t)
  {
  }

  ghost predicate InOrder(cs: seq<Candidate>, off: nat) {
    && (forall c | c in cs :: off <= c.start < c.end)
    && forall i, j | 0 <= i < j < |cs| :: cs[i].end <= cs[j].start
  }

  lemma {:induction false} NothingInOrder(off: nat)
    ensures InOrder([], off)
  {
  }

  lemma {:induction false} InOrderPrepend(c: Candidate, cs: seq<Candidate>, off: nat)
    requires off <= c.start < c.end && InOrder(cs, c.end)
    ensures InOrder([c] + cs, off)
  {
  }

  /** Matches come in order, so sorting them by their start leaves them as they are. */
  lemma {:induction false} CandidatesInOrder(find: Finder, t: string, off: nat)
    ensures InOrder(Candidates(find, t, off), off)
    decreases |t|
  {
    hide InOrder;
    NothingInOrder(off);
    match find(t)
    case None =>
    case Some(m) =>
      if Within(m, t) {
        CandidatesInOrder(find, t[m.end..], off + m.end);
        InOrderPrepend(Candidate(off + m.start, off + m.end, t[m.groupStart..m.groupEnd]),
                       Candidates(find, t[m.end..], off + m.end), off);
      }
  }

  // ---- One candidate ----

  /** `_try_parse_obj`: JSON first, then a Python literal; only dicts are kept. */
  function TryParseObj(s: string): Option<Json> {
    TryParsers(Strip(s))
  }

  function TryParsers(core: string): Option<Json> {
    if core == "" then None
    else
      match DictOnly(Parse(JsonText, core))
      case Some(v) => Some(v)
      case None => DictOnly(Parse(PythonText, core))
  }

  function DictOnly(v: Option<Json>): Option<Json> {
    match v case Some(Obj(_)) => v case _ => None
  }

  /** `_normalize_call`: a dict with a name and arguments; arguments that are no string are dumped as JSON. */
  function NormalizeCall(obj: Option<Json>): Option<Call> {
    match obj
    case Some(Obj(members)) =>
      if !HasKey(members, "name") || !HasKey(members, "arguments") then None
      else
        var args := Lookup(members, "arguments");
        Some(Call(Lookup(members, "name"), if args.Str? then args else Str(Dumps(args))))
    case _ => None
  }

  function CallOf(raw: string): Option<Call> {
    NormalizeCall(TryParseObj(raw))
  }

  /** What `parse` makes of each raw text, in order, without the failures. */
  function Collect(parse: string -> Option<Call>, raws: seq<string>): seq<Call> {
    if raws == [] then []
    else Found(parse(raws[0])) + Collect(parse, raws[1..])
  }

  function Found(call: Option<Call>): seq<Call> {
    match call case Some(c) => [c] case None => []
  }

  // ---- The four tiers ----

  function Raws(cs: seq<Candidate>): seq<string> {
    seq(|cs|, i requires 0 <= i < |cs| => cs[i].raw)
  }

  /** The texts of the top-level objects. */
  function Objects(t: string): seq<string> {
    SpansExact(t);
    SpansInside(t);
    seq(|Spans(t)|, i requires 0 <= i < |Spans(t)| => t[Spans(t)[i].0..Spans(t)[i].1])
  }

  lemma {:induction false} SpansInside(t: string)
    ensures forall i | 0 <= i < |Spans(t)| :: Spans(t)[i].0 < Spans(t)[i].1 <= |t|
  {
    SpansExact(t);
    forall i | 0 <= i < |Spans(t)|
      ensures Spans(t)[i].0 < Spans(t)[i].1 <= |t|
    {
      var (s, e) := Spans(t)[i];
      assert (s, e) in Spans(t);
    }
  }

  function TagCalls(pat: Pattern, t: string): seq<Call> {
    Collect(CallOf, Raws(Candidates(FinderOf(pat), t, 0)))
  }

  /** The objects of all fences, each fence stripped first. */
  function FencedObjects(bodies: seq<string>): seq<string> {
    if bodies == [] then [] else Objects(Strip(bodies[0])) + FencedObjects(bodies[1..])
  }

  function FenceCalls(t: string): seq<Call> {
    Collect(CallOf, FencedObjects(Raws(Candidates(FinderOf(Fence), t, 0))))
  }

  function BareCalls(t: string): seq<Call> {
    Collect(CallOf, Objects(t))
  }

  /** `_extract_tool_calls`: the calls and the content that is left. */
  function Extract(content: Option<string>): (seq<Call>, Option<string>) {
    if content.None? || Strip(content.value) == "" then ([], content)
    else
      var work := content.value;
      if TagCalls(TOOL_CALL, work) != [] then (TagCalls(TOOL_CALL, work), Some(Strip(Removed(FinderOf(TOOL_CALL), work))))
      else if TagCalls(TOOLS, work) != [] then (TagCalls(TOOLS, work), Some(Strip(Removed(FinderOf(TOOLS), work))))
      else if FenceCalls(work) != [] then (FenceCalls(work), Some(""))
      else if BareCalls(work) != [] then (BareCalls(work), Some(""))
      else ([], content)
  }

  // ---- The loops ----

  lemma {:induction false} CollectAppend(parse: string -> Option<Call>, raws: seq<string>, more: seq<string>)
    ensures Collect(parse, raws + more) == Collect(parse, raws) + Collect(parse, more)
  {
    if raws == [] {
      assert raws + more == more;
    } else {
      TailOfConcat(raws, more);
      CollectAppend(parse, raws[1..], more);
      Assoc(Found(parse(raws[0])), Collect(parse, raws[1..]), Collect(parse, more));
    }
  }

  lemma {:induction false} FencedObjectsAppend(bodies: seq<string>, body: string)
    ensures FencedObjects(bodies + [body]) == FencedObjects(bodies) + Objects(Strip(body))
  {
    if bodies == [] {
      assert [] + [body] == [body] && [body][1..] == [];
    } else {
      TailOfConcat(bodies, [body]);
      FencedObjectsAppend(bodies[1..], body);
      Assoc(Objects(Strip(bodies[0])), FencedObjects(bodies[1..]), Objects(Strip(body)));
    }
  }

  method ParseEach(parse: string -> Option<Call>, raws: seq<string>) returns (calls: seq<Call>)
    ensures calls == Collect(parse, raws)
  {
    calls := [];
    var i := 0;
    while i < |raws|
      invariant i <= |raws|
      invariant calls == Collect(parse, raws[..i])
    {
      assert raws[..i + 1] == raws[..i] + [raws[i]];
      CollectAppend(parse, raws[..i], [raws[i]]);
      var n := parse(raws[i]);
      if n.Some? {
        calls := calls + [n.value];
      }
      i := i + 1;
    }
    assert raws[..i] == raws;
  }

  method ParseObjects(parse: string -> Option<Call>, body: string) returns (calls: seq<Call>)
    ensures calls == Collect(parse, Objects(body))
  {
    var spans := BalancedObjectSpans(body);
    SpansInside(body);
    ghost var raws := Objects(body);
    calls := [];
    var i := 0;
    while i < |spans|
      invariant i <= |spans|
      invariant calls == Collect(parse, raws[..i])
    {
      assert raws[..i + 1] == raws[..i] + [raws[i]];
      CollectAppend(parse, raws[..i], [raws[i]]);
      var n := parse(body[spans[i].0..spans[i].1]);
      if n.Some? {
        calls := calls + [n.value];
      }
      i := i + 1;
    }
    assert raws[..i] == raws;
  }

  method ParseFences(parse: string -> Option<Call>, bodies: seq<string>) returns (calls: seq<Call>)
    ensures calls == Collect(parse, FencedObjects(bodies))
  {
    calls := [];
    var i := 0;
    while i < |bodies|
      invariant i <= |bodies|
      invariant calls == Collect(parse, FencedObjects(bodies[..i]))
    {
      assert bodies[..i + 1] == bodies[..i] + [bodies[i]];
      FencedObjectsAppend(bodies[..i], bodies[i]);
      CollectAppend(parse, FencedObjects(bodies[..i]), Objects(Strip(bodies[i])));
      var more := ParseObjects(parse, Strip(bodies[i]));
      calls := calls + more;
      i := i + 1;
    }
    assert bodies[..i] == bodies;
  }

  method ExtractToolCalls(content: Option<string>) returns (calls: seq<Call>, cleaned: Option<string>)
    ensures (calls, cleaned) == Extract(content)
  {
    if content.None? || Strip(content.value) == "" {
      return [], content;
    }
    var work := content.value;
    calls := ParseEach(CallOf, Raws(Candidates(FinderOf(TOOL_CALL), work, 0)));
    if calls != [] {
      return calls, Some(Strip(Removed(FinderOf(TOOL_CALL), work)));
    }
    calls := ParseEach(CallOf, Raws(Candidates(FinderOf(TOOLS), work, 0)));
    if calls != [] {
      return calls, Some(Strip(Removed(FinderOf(TOOLS), work)));
    }
    calls := ParseFences(CallOf, Raws(Candidates(FinderOf(Fence), work, 0)));
    if calls != [] {
      return calls, Some("");
    }
    calls := ParseObjects(CallOf, work);
    if calls != [] {
      return calls, Some("");
    }
    return [], content;
  }
}
