/**
 Dicts printed as JSON or as Python literals, in any layout, and what the extractor makes of one of them: the
 call it stands for, or nothing if it lacks one of the two keys.
 */
module Wrapping {
  import opened Text
  import opened Json
  import opened JsonRoundTrip
  import opened BraceScanner
  import opened SpanRoundTrip
  import opened ToolCallExtractor

  // ---- Token lists whose braces match ----

  function TokenWeight(t: Token): int {
    if t == Punct('{') then 1 else if t == Punct('}') then -1 else 0
  }

  function Net(ts: seq<Token>): int {
    if ts == [] then 0 else TokenWeight(ts[0]) + Net(ts[1..])
  }

  /** Started at depth `d`, the tokens never close a brace that is not open. */
  predicate Stays(ts: seq<Token>, d: int) {
    ts == [] || (d + TokenWeight(ts[0]) >= 0 && Stays(ts[1..], d + TokenWeight(ts[0])))
  }

  lemma {:induction false} NetAppend(a: seq<Token>, b: seq<Token>)
    ensures Net(a + b) == Net(a) + Net(b)
  {
    if a == [] {
      assert a + b == b;
    } else {
      TailOfConcat(a, b);
      NetAppend(a[1..], b);
    }
  }

  lemma {:induction false} StaysAppend(a: seq<Token>, b: seq<Token>, d: int)
    requires Stays(a, d) && Stays(b, d + Net(a))
    ensures Stays(a + b, d) && Net(a + b) == Net(a) + Net(b)
  {
    NetAppend(a, b);
    if a == [] {
      assert a + b == b;
    } else {
      var d' := d + TokenWeight(a[0]);
      TailOfConcat(a, b);
      assert d' + Net(a[1..]) == d + Net(a);
      StaysAppend(a[1..], b, d');
    }
  }

  lemma {:induction false} StaysAround(open: Token, ts: seq<Token>, close: Token, d: int)
    requires d >= 0 && TokenWeight(open) >= 0 && TokenWeight(open) + TokenWeight(close) == 0
    requires Stays(ts, d + TokenWeight(open)) && Net(ts) == 0
    ensures Stays([open] + ts + [close], d) && Net([open] + ts + [close]) == 0
  {
    assert [open][1..] == [] && [close][1..] == [];
    StaysAppend([open], ts, d);
    StaysAppend([open] + ts, [close], d);
  }

  lemma {:induction false} ValueStays(v: Json, d: nat)
    ensures Stays(TokensOf(v), d) && Net(TokensOf(v)) == 0
    decreases v, 0
  {
    match v
    case Arr(items) =>
      ItemsStay(items, d);
      StaysAround(Punct('['), ItemTokens(items), Punct(']'), d);
    case Obj(members) =>
      MembersStay(members, d + 1);
      StaysAround(Punct('{'), MemberTokens(members), Punct('}'), d);
    case _ =>
      assert TokensOf(v)[1..] == [];
  }

  lemma {:induction false} CommaStays(d: nat)
    ensures Stays([Punct(',')], d) && Net([Punct(',')]) == 0
  {
    assert [Punct(',')][1..] == [];
  }

  lemma {:induction false} KeyStays(k: string, d: nat)
    ensures Stays([Atom(Str(k)), Punct(':')], d) && Net([Atom(Str(k)), Punct(':')]) == 0
  {
    assert [Atom(Str(k)), Punct(':')][1..] == [Punct(':')] && [Punct(':')][1..] == [];
  }

  lemma {:induction false} ItemsStay(items: seq<Json>, d: nat)
    ensures Stays(ItemTokens(items), d) && Net(ItemTokens(items)) == 0
    decreases items, 1
  {
    if items != [] {
      hide TokensOf, Net, Stays;
      ValueStays(items[0], d);
      ItemsStay(items[1..], d);
      CommaStays(d);
      StaysAppend(TokensOf(items[0]), [Punct(',')], d);
      StaysAppend(TokensOf(items[0]) + [Punct(',')], ItemTokens(items[1..]), d);
    }
  }

  lemma {:induction false} MembersStay(members: seq<Member>, d: nat)
    ensures Stays(MemberTokens(members), d) && Net(MemberTokens(members)) == 0
    decreases members, 1
  {
    if members != [] {
      hide TokensOf, Net, Stays;
      var head := [Atom(Str(members[0].key)), Punct(':')];
      var value := TokensOf(members[0].value);
      ValueStays(members[0].value, d);
      MembersStay(members[1..], d);
      KeyStays(members[0].key, d);
      CommaStays(d);
      StaysAppend(head, value, d);
      StaysAppend(head + value, [Punct(',')], d);
      StaysAppend(head + value + [Punct(',')], MemberTokens(members[1..]), d);
    }
  }

  // ---- Printed tokens and the scanner ----

  lemma {:induction false} QuietRaw(t: string, q: char, s: string)
    requires QuietUntil(t, Quoted(q)) && q !in s && '\\' !in s
    ensures QuietUntil(t + s, Quoted(q))
    decreases |s|
  {
    if s == "" {
      assert t + s == t;
    } else {
      QuietStep(t, Quoted(q), s[0]);
      QuietRaw(t + [s[0]], q, s[1..]);
      assert t + [s[0]] + s[1..] == t + s;
    }
  }

  lemma {:induction false} QuietEscape(t: string, q: char, c: char, s: string)
    requires QuietUntil(t, Quoted(q)) && q !in s && '\\' !in s
    ensures QuietUntil(t + (['\\', c] + s), Quoted(q))
  {
    QuietStep(t, Quoted(q), '\\');
    QuietStep(t + ['\\'], Escaped(q), c);
    QuietRaw(t + ['\\'] + [c], q, s);
    assert t + ['\\'] + [c] + s == t + (['\\', c] + s);
  }

  lemma {:induction false} Hex4Plain(u: nat)
    requires u < 0x1_0000
    ensures forall c | c in Hex4(u) :: c != '\'' && c != '"' && c != '\\'
  {
  }

  lemma {:induction false} QuietUnit(t: string, q: char, u: nat)
    requires QuietUntil(t, Quoted(q)) && IsQuote(q) && u < 0x1_0000
    ensures QuietUntil(t + ("\\u" + Hex4(u)), Quoted(q))
  {
    Hex4Plain(u);
    QuietEscape(t, q, 'u', Hex4(u));
  }

  lemma {:induction false} QuietUnicode(t: string, q: char, c: char)
    requires QuietUntil(t, Quoted(q)) && IsQuote(q)
    ensures QuietUntil(t + ("\\u" + UnicodeTail(c)), Quoted(q))
  {
    hide Hex4, QuietUntil;
    var u := c as int;
    if u < 0x1_0000 {
      QuietUnit(t, q, u);
    } else {
      var h, l := 0xD800 + (u - 0x1_0000) / 0x400, 0xDC00 + (u - 0x1_0000) % 0x400;
      QuietUnit(t, q, h);
      QuietUnit(t + ("\\u" + Hex4(h)), q, l);
      assert t + ("\\u" + Hex4(h)) + ("\\u" + Hex4(l)) == t + ("\\u" + UnicodeTail(c));
    }
  }

  lemma {:induction false} QuietChar(t: string, d: Dialect, q: char, c: char)
    requires QuietUntil(t, Quoted(q)) && IsQuote(q)
    ensures QuietUntil(t + EscapeChar(d, q, c), Quoted(q))
  {
    var e := EscapeChar(d, q, c);
    if e == "\\u" + UnicodeTail(c) {
      QuietUnicode(t, q, c);
    } else if e == [c] && c != q && c != '\\' {
      QuietRaw(t, q, e);
    } else {
      assert e[0] == '\\' && |e| == 2;
      QuietEscape(t, q, e[1], "");
      assert ['\\', e[1]] + "" == e;
    }
  }

  lemma {:induction false} QuietString(t: string, d: Dialect, q: char, s: string)
    requires QuietUntil(t, Quoted(q)) && IsQuote(q)
    ensures QuietUntil(t + EscapeAll(d, q, s), Quoted(q))
    decreases |s|
  {
    if s == "" {
      assert t + "" == t;
    } else {
      QuietChar(t, d, q, s[0]);
      QuietString(t + EscapeChar(d, q, s[0]), d, q, s[1..]);
      Assoc(t, EscapeChar(d, q, s[0]), EscapeAll(d, q, s[1..]));
    }
  }

  /** A printed token ends outside strings, changes the depth by its weight, and does not dip below. */
  ghost predicate Moves(t: string, net: int) {
    && ModeAt(t, |t|) == Code && DepthAt(t, |t|) == net
    && forall k | 0 <= k < |t| :: DepthAt(t, k) >= 0
  }

  lemma {:induction false} IntTextNeutral(n: int)
    ensures Neutral(IntText(n))
  {
    var m := if n < 0 then -n else n;
    assert forall i | 0 <= i < |NatText(m)| :: IsDigit(NatText(m)[i]);
  }

  lemma {:induction false} SpellMoves(d: Dialect, q: char, t: Token)
    requires Printable(t) && IsQuote(q)
    ensures Moves(Spell(d, q, t), TokenWeight(t))
  {
    hide EscapeAll, IntText;
    match t
    case Punct(c) =>
      assert DepthAt([c], 1) == Weight(Code, c);
      assert ModeAt([c], 1) == Code;
    case Atom(Str(s)) =>
      QuietStep("", Code, q);
      assert "" + [q] == [q];
      QuietString([q], d, q, s);
      QuietStep([q] + EscapeAll(d, q, s), Quoted(q), q);
    case Atom(Int(n)) =>
      IntTextNeutral(n);
      NeutralBalanced(IntText(n));
    case Atom(v) =>
      NeutralBalanced(Word(d, v));
  }

  lemma {:induction false} GapNeutral(d: Dialect, gap: string)
    requires IsGapText(d, gap)
    ensures Neutral(gap)
  {
  }

  lemma {:induction false} PieceMoves(d: Dialect, p: Piece, t: Token)
    requires Printable(t) && IsGapText(d, p.gap) && OpensString(d, p.quote)
    ensures Moves(p.gap + Spell(d, p.quote, t), TokenWeight(t))
  {
    hide Spell, ModeAt, TokenWeight;
    GapNeutral(d, p.gap);
    NeutralBalanced(p.gap);
    SpellMoves(d, p.quote, t);
    var s := Spell(d, p.quote, t);
    SuffixRun(p.gap, s, |s|);
    forall k | 0 <= k < |p.gap + s|
      ensures DepthAt(p.gap + s, k) >= 0
    {
      if k <= |p.gap| {
        PrefixRun(p.gap, s, k);
      } else {
        SuffixRun(p.gap, s, k - |p.gap|);
      }
    }
  }

  /** Started at depth `d`, the text never goes below zero. */
  ghost predicate StaysText(t: string, d: int) {
    forall k | 0 <= k <= |t| :: d + DepthAt(t, k) >= 0
  }

  lemma {:induction false} StaysTextConcat(p: string, q: string, d: int)
    requires ModeAt(p, |p|) == Code && StaysText(p, d) && StaysText(q, d + DepthAt(p, |p|))
    ensures StaysText(p + q, d)
  {
    forall k | 0 <= k <= |p + q|
      ensures d + DepthAt(p + q, k) >= 0
    {
      if k <= |p| {
        PrefixRun(p, q, k);
      } else {
        SuffixRun(p, q, k - |p|);
      }
    }
  }

  lemma {:induction false} NothingStays(d: nat)
    ensures ModeAt("", 0) == Code && DepthAt("", 0) == 0 && StaysText("", d)
  {
  }

  lemma {:induction false} MovesStays(t: string, net: int, d: nat)
    requires Moves(t, net) && d + net >= 0
    ensures ModeAt(t, |t|) == Code && DepthAt(t, |t|) == net && StaysText(t, d)
  {
    hide ModeAt, DepthAt;
  }

  lemma {:induction false} StaysStep(head: string, rest: string, net: int, more: int, d: nat)
    requires Moves(head, net) && d + net >= 0
    requires ModeAt(rest, |rest|) == Code && DepthAt(rest, |rest|) == more && StaysText(rest, d + net)
    ensures var t := head + rest;
            ModeAt(t, |t|) == Code && DepthAt(t, |t|) == net + more && StaysText(t, d)
  {
    hide ModeAt, DepthAt, StaysText, Moves;
    MovesStays(head, net, d);
    SuffixRun(head, rest, |rest|);
    StaysTextConcat(head, rest, d);
  }

  lemma {:induction false} FirstMoves(d: Dialect, ts: seq<Token>, style: seq<Piece>)
    requires |ts| == |style| > 0 && LegalStyle(d, style) && forall t | t in ts :: Printable(t)
    ensures Moves(style[0].gap + Spell(d, style[0].quote, ts[0]), TokenWeight(ts[0]))
    ensures LegalStyle(d, style[1..]) && forall t | t in ts[1..] :: Printable(t)
  {
    hide Moves, Spell, TokenWeight, Printable, IsGapText, OpensString;
    assert style[0] in style && ts[0] in ts;
    PieceMoves(d, style[0], ts[0]);
  }

  lemma {:induction false} LayOutStays(d: Dialect, ts: seq<Token>, style: seq<Piece>, depth: nat)
    requires |ts| == |style| && LegalStyle(d, style) && (forall t | t in ts :: Printable(t)) && Stays(ts, depth)
    ensures ModeAt(LayOut(d, ts, style), |LayOut(d, ts, style)|) == Code
    ensures DepthAt(LayOut(d, ts, style), |LayOut(d, ts, style)|) == Net(ts)
    ensures StaysText(LayOut(d, ts, style), depth)
  {
    if ts == [] {
      NothingStays(depth);
    } else {
      hide ModeAt, DepthAt, StaysText, Moves, Spell, TokenWeight, LegalStyle, Printable;
      FirstMoves(d, ts, style);
      LayOutStays(d, ts[1..], style[1..], depth + TokenWeight(ts[0]));
      StaysStep(style[0].gap + Spell(d, style[0].quote, ts[0]), LayOut(d, ts[1..], style[1..]),
                TokenWeight(ts[0]), Net(ts[1..]), depth);
    }
  }

  lemma {:induction false} LayOutSplit(d: Dialect, ts: seq<Token>, style: seq<Piece>, last: Token, p: Piece)
    requires |ts| == |style|
    ensures LayOut(d, ts + [last], style + [p]) == LayOut(d, ts, style) + (p.gap + Spell(d, p.quote, last))
  {
    if ts == [] {
      assert ts + [last] == [last] && style + [p] == [p];
      assert [last][1..] == [] && [p][1..] == [];
    } else {
      TailOfConcat(ts, [last]);
      TailOfConcat(style, [p]);
      LayOutSplit(d, ts[1..], style[1..], last, p);
      Assoc(style[0].gap + Spell(d, style[0].quote, ts[0]), LayOut(d, ts[1..], style[1..]), p.gap + Spell(d, p.quote, last));
    }
  }

  // ---- Payloads ----

  datatype Payload = Payload(dialect: Dialect, members: seq<Member>, style: seq<Piece>)

  /** A printed dict. */
  predicate LegalPayload(p: Payload) {
    && WellFormed(Obj(p.members))
    && |p.style| == |TokensOf(Obj(p.members))| && LegalStyle(p.dialect, p.style) && p.style[0].gap == ""
  }

  function TextOf(p: Payload): string
    requires LegalPayload(p)
  {
    LayOut(p.dialect, TokensOf(Obj(p.members)), p.style)
  }

  /** A dict is a call iff it has both keys. */
  predicate IsCall(p: Payload) {
    && (exists m :: m in p.members && m.key == "name")
    && (exists m :: m in p.members && m.key == "arguments")
  }

  /** The call that such a dict stands for. */
  function ExpectedCall(p: Payload): Call {
    var args := Lookup(p.members, "arguments");
    Call(Lookup(p.members, "name"), if args.Str? then args else Str(Dumps(args)))
  }

  lemma {:induction false} BracesAround(whole: string, body: string, gap: string)
    requires whole + "" == "" + ("{" + (body + (gap + "}") + ""))
    ensures whole == "{" + (body + gap) + "}"
  {
    assert whole + "" == whole;
  }

  /** A text laid out from tokens between braces. */
  lemma {:induction false} BracedLayout(d: Dialect, ms: seq<Token>, style: seq<Piece>)
    requires |style| == |ms| + 2 && style[0].gap == ""
    ensures LayOut(d, [Punct('{')] + ms + [Punct('}')], style)
         == "{" + (LayOut(d, ms, style[1..|ms| + 1]) + style[|ms| + 1].gap) + "}"
  {
    hide LayOut;
    var inner, last := style[1..|ms| + 1], style[|ms| + 1];
    var ts := [Punct('{')] + ms + [Punct('}')];
    assert ts[1..] == ms + [Punct('}')] && style[1..] == inner + [last];
    LayOutSplit(d, ms, inner, Punct('}'), last);
    LayOutFirst(d, ts, style, "");
    BracesAround(LayOut(d, ts, style), LayOut(d, ms, inner), last.gap);
  }

  lemma {:induction false} LayOutBalanced(d: Dialect, ts: seq<Token>, style: seq<Piece>, gap: string)
    requires |ts| == |style| && LegalStyle(d, style) && (forall t | t in ts :: Printable(t)) && Stays(ts, 0) && Net(ts) == 0
    requires IsGapText(d, gap)
    ensures Balanced(LayOut(d, ts, style) + gap)
  {
    hide ModeAt, DepthAt, LayOut, Stays, Net;
    LayOutStays(d, ts, style, 0);
    GapNeutral(d, gap);
    NeutralBalanced(gap);
    BalancedConcat(LayOut(d, ts, style), gap);
  }

  /** The text of a payload is an opening brace, a text whose braces match, and a closing brace. */
  lemma {:induction false} PayloadShape(p: Payload) returns (inner: string)
    requires LegalPayload(p)
    ensures TextOf(p) == "{" + inner + "}" && Balanced(inner)
  {
    hide LayOut, Balanced, Stays, Net, MemberTokens, IsGapText, OpensString, WellFormed;
    var ms, n := MemberTokens(p.members), |p.style|;
    var style := p.style[1..n - 1];
    assert p.style[n - 1] in p.style && forall x | x in style :: x in p.style;
    BracedLayout(p.dialect, ms, p.style);
    inner := LayOut(p.dialect, ms, style) + p.style[n - 1].gap;
    MembersStay(p.members, 0);
    MembersSpaced(p.members);
    LayOutBalanced(p.dialect, ms, style, p.style[n - 1].gap);
  }

  lemma {:induction false} PayloadScanned(p: Payload)
    requires LegalPayload(p)
    ensures Closed(TextOf(p)) && Objects(TextOf(p)) == [TextOf(p)]
    ensures Strip(TextOf(p)) == TextOf(p) && |TextOf(p)| >= 2 && TextOf(p)[0] == '{' && TextOf(p)[|TextOf(p)| - 1] == '}'
  {
    var inner := PayloadShape(p);
    BalancedWrap(inner);
    assert "" + TextOf(p) + "" == TextOf(p);
    StripCore("", TextOf(p), "");
    assert TextOf(p)[0..|TextOf(p)|] == TextOf(p);
  }

  lemma {:induction false} TryParseGives(core: string, v: Json)
    requires core != "" && v.Obj?
    requires Parse(JsonText, core) == Some(v) || (Parse(JsonText, core).None? && Parse(PythonText, core) == Some(v))
    ensures TryParsers(core) == Some(v)
  {
    hide Parse;
  }

  /** Whatever its layout, a printed dict is read back. */
  lemma {:induction false} PayloadRead(p: Payload)
    requires LegalPayload(p)
    ensures TryParseObj(TextOf(p)) == Some(Obj(p.members))
  {
    hide Parse, TokensOf, LayOut, TryParsers;
    var text, v := TextOf(p), Obj(p.members);
    PayloadScanned(p);
    assert text + "" == text;
    ParseOfLayout(p.dialect, v, p.style, "");
    if p.dialect.PythonText? {
      PythonReadAsJson(v, p.style);
    }
    TryParseGives(text, v);
  }

  lemma {:induction false} HasKeyIff(members: seq<Member>, k: string)
    ensures HasKey(members, k) <==> exists m :: m in members && m.key == k
  {
    if m :| m in members && m.key == k {
      var i :| 0 <= i < |members| && members[i] == m;
    }
  }

  /** It is taken as the call it stands for, or, without one of the two keys, as no call. */
  lemma {:induction false} PayloadCall(p: Payload)
    requires LegalPayload(p)
    ensures CallOf(TextOf(p)) == if IsCall(p) then Some(ExpectedCall(p)) else None
  {
    hide TryParseObj, LegalPayload, TextOf, HasKey;
    PayloadRead(p);
    HasKeyIff(p.members, "name");
    HasKeyIff(p.members, "arguments");
  }

  lemma {:induction false} LookupFinds(members: seq<Member>, m: Member)
    requires DistinctKeys(members) && m in members
    ensures Lookup(members, m.key) == m.value
  {
    if members[0] != m {
      assert m in members[1..];
      var i :| 0 <= i < |members[1..]| && members[1..][i] == m;
      assert members[0].key != members[1 + i].key;
      LookupFinds(members[1..], m);
    }
  }

  /** The same without the help of any function on dicts: what is a call, and what it carries. */
  lemma {:induction false} CallIff(p: Payload)
    requires LegalPayload(p)
    ensures CallOf(TextOf(p)).Some? <==>
              (exists m :: m in p.members && m.key == "name") && (exists m :: m in p.members && m.key == "arguments")
    ensures CallOf(TextOf(p)).Some? ==> forall m | m in p.members ::
              var call := CallOf(TextOf(p)).value;
              && (m.key == "name" ==> call.name == m.value)
              && (m.key == "arguments" && m.value.Str? ==> call.args == m.value)
              && (m.key == "arguments" && !m.value.Str? ==> call.args.Str? && Loads(call.args.s) == Some(m.value))
  {
    hide CallOf, TextOf, Loads, Lookup, Dumps;
    PayloadCall(p);
    forall m | m in p.members
      ensures Lookup(p.members, m.key) == m.value && Loads(Dumps(m.value)) == Some(m.value)
    {
      LookupFinds(p.members, m);
      MemberForm(p.members, m);
      LoadsOfDumps(m.value);
    }
  }

  lemma {:induction false} MemberForm(members: seq<Member>, m: Member)
    requires MembersWellFormed(members) && m in members
    ensures WellFormed(m.value)
  {
    if members[0] != m {
      MemberForm(members[1..], m);
    }
  }
}
