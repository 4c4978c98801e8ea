/**
 Text without an opening brace holds no tool call, whatever tags or fences it has; and what is extracted
 always carries its arguments as text.
 */
module BraceFreeText {
  import opened Text
  import opened Json
  import opened JsonRoundTrip
  import opened BraceScanner
  import opened ToolCallExtractor

  predicate BraceFree(t: string) {
    Without(t, '{')
  }

  lemma {:induction false} LexStringTail(unescape: Unescaper, raw: char -> bool, q: char, s: string)
    requires BraceFree(s)
    ensures LexString(unescape, raw, q, s).Some? ==> BraceFree(LexString(unescape, raw, q, s).value.1)
    decreases |s|
  {
    if s != "" && s[0] != q {
      if s[0] == '\\' {
        var r := unescape(s[1..]);
        if r.Some? && r.value.1 < |s| {
          LexStringTail(unescape, raw, q, s[1 + r.value.1..]);
        }
      } else if raw(s[0]) {
        LexStringTail(unescape, raw, q, s[1..]);
      }
    }
  }

  lemma {:induction false} LexBraceFree(d: Dialect, s: string)
    requires BraceFree(s)
    ensures Lex(d, s).Some? ==> Punct('{') !in Lex(d, s).value
    decreases |s|
  {
    if s == "" {
    } else if IsGap(d, s[0]) || IsPunct(s[0]) {
      LexBraceFree(d, s[1..]);
    } else if OpensString(d, s[0]) {
      LexStringTail(UnescaperOf(d), RawOf(d), s[0], s[1..]);
      var r := LexString(UnescaperOf(d), RawOf(d), s[0], s[1..]);
      if r.Some? {
        LexBraceFree(d, r.value.1);
      }
    } else if s[0] == '-' || IsDigit(s[0]) {
      var r := LexInt(s);
      if r.Some? {
        LexBraceFree(d, s[r.value.1..]);
      }
    } else {
      var r := LexWord(d, s);
      if r.Some? {
        LexBraceFree(d, s[|Word(d, r.value)|..]);
      }
    }
  }

  lemma {:induction false} NoBraceNoDict(d: Dialect, s: string)
    requires BraceFree(s)
    ensures DictOnly(Parse(d, s)).None?
  {
    LexBraceFree(d, s);
    LexAtomsScalar(d, s);
    if Lex(d, s).Some? {
      FirstTokenDecides(d, Lex(d, s).value);
    }
  }

  lemma {:induction false} FirstTokenDecides(d: Dialect, ts: seq<Token>)
    requires AtomsScalar(ts) && (ts == [] || ts[0] != Punct('{'))
    ensures ParseValue(d, ts).Some? ==> !ParseValue(d, ts).value.0.Obj?
  {
    hide ParseItems, ParseMembers;
    if ts != [] {
      assert ts[0] in ts;
    }
  }

  lemma {:induction false} FirstTokenAt(d: Dialect, s: string)
    requires s != "" && !IsGap(d, s[0]) && s[0] != '{' && Lex(d, s).Some?
    ensures Lex(d, s).value != [] && Lex(d, s).value[0] != Punct('{')
  {
    hide LexString, LexInt, LexWord;
  }

  lemma {:induction false} OtherFirstNoDict(d: Dialect, s: string)
    requires s != "" && !IsSpace(s[0]) && s[0] != '{'
    ensures DictOnly(Parse(d, s)).None?
  {
    hide Lex, ParseValue;
    LexAtomsScalar(d, s);
    if Lex(d, s).Some? {
      FirstTokenAt(d, s);
      FirstTokenDecides(d, Lex(d, s).value);
    }
  }

  /** A candidate whose first character is no opening brace, such as a list or a number, is no call. */
  lemma {:induction false} OnlyDictsAreCalls(raw: string)
    requires Strip(raw) == "" || Strip(raw)[0] != '{'
    ensures CallOf(raw).None?
  {
    hide Parse, Strip, IsSpace;
    var lead, tail := StripShape(raw);
    if Strip(raw) != "" {
      OtherFirstNoDict(JsonText, Strip(raw));
      OtherFirstNoDict(PythonText, Strip(raw));
    }
  }

  lemma {:induction false} StripBraceFree(s: string)
    requires BraceFree(s)
    ensures BraceFree(Strip(s))
  {
    var lead, tail := StripShape(s);
    forall i | 0 <= i < |Strip(s)|
      ensures Strip(s)[i] != '{'
    {
      assert s[|lead| + i] == Strip(s)[i];
    }
  }

  lemma {:induction false} NoBraceNoCall(raw: string)
    requires BraceFree(raw)
    ensures CallOf(raw).None?
  {
    StripBraceFree(raw);
    NoBraceNoDict(JsonText, Strip(raw));
    NoBraceNoDict(PythonText, Strip(raw));
  }

  lemma {:induction false} CollectNone(parse: string -> Option<Call>, raws: seq<string>)
    requires forall raw | raw in raws :: parse(raw).None?
    ensures Collect(parse, raws) == []
  {
    if raws != [] {
      CollectNone(parse, raws[1..]);
    }
  }

  lemma {:induction false} RawsBraceFree(find: Finder, t: string, off: nat)
    requires BraceFree(t)
    ensures forall c | c in Candidates(find, t, off) :: BraceFree(c.raw)
    decreases |t|
  {
    match find(t)
    case None =>
    case Some(m) =>
      if Within(m, t) {
        RawsBraceFree(find, t[m.end..], off + m.end);
      }
  }

  lemma {:induction false} NeverOpens(t: string, k: nat)
    requires BraceFree(t) && k <= |t|
    ensures StartAt(t, k) == -1 && SpansUpTo(t, k) == []
  {
    if k > 0 {
      NeverOpens(t, k - 1);
    }
  }

  lemma {:induction false} NoBraceNoObjects(t: string)
    requires BraceFree(t)
    ensures Objects(t) == []
  {
    NeverOpens(t, |t|);
  }

  lemma {:induction false} NoBraceNoFenced(bodies: seq<string>)
    requires forall b | b in bodies :: BraceFree(b)
    ensures FencedObjects(bodies) == []
  {
    if bodies != [] {
      StripBraceFree(bodies[0]);
      NoBraceNoObjects(Strip(bodies[0]));
      NoBraceNoFenced(bodies[1..]);
    }
  }

  lemma {:induction false} NoBraceRaws(find: Finder, t: string)
    requires BraceFree(t)
    ensures forall r | r in Raws(Candidates(find, t, 0)) :: BraceFree(r)
  {
    RawsBraceFree(find, t, 0);
  }

  lemma {:induction false} NoBraceNoTagCalls(pat: Pattern, t: string)
    requires BraceFree(t)
    ensures TagCalls(pat, t) == []
  {
    NoBraceRaws(FinderOf(pat), t);
    NoneAmong(Raws(Candidates(FinderOf(pat), t, 0)));
  }

  lemma {:induction false} NoneAmong(raws: seq<string>)
    requires forall r | r in raws :: BraceFree(r)
    ensures Collect(CallOf, raws) == []
  {
    forall r | r in raws
      ensures CallOf(r).None?
    {
      NoBraceNoCall(r);
    }
    CollectNone(CallOf, raws);
  }

  /** Without an opening brace there is no call, in any tier. */
  lemma {:induction false} NoBraceNoCalls(t: string)
    requires BraceFree(t)
    ensures Extract(Some(t)) == ([], Some(t))
  {
    NoBraceNoTagCalls(TOOL_CALL, t);
    NoBraceNoTagCalls(TOOLS, t);
    NoBraceRaws(FinderOf(Fence), t);
    NoBraceNoFenced(Raws(Candidates(FinderOf(Fence), t, 0)));
    NoBraceNoObjects(t);
  }

  // ---- Arguments are text ----

  lemma {:induction false} CollectedArgs(parse: string -> Option<Call>, raws: seq<string>)
    requires forall raw | raw in raws :: parse(raw).Some? ==> parse(raw).value.args.Str?
    ensures forall c | c in Collect(parse, raws) :: c.args.Str?
  {
    if raws != [] {
      CollectedArgs(parse, raws[1..]);
    }
  }

  lemma {:induction false} CallArgs(raws: seq<string>)
    ensures forall c | c in Collect(CallOf, raws) :: c.args.Str?
  {
    forall raw | raw in raws
      ensures CallOf(raw).Some? ==> CallOf(raw).value.args.Str?
    {
      NormalizedArgs(TryParseObj(raw));
    }
    CollectedArgs(CallOf, raws);
  }

  lemma {:induction false} NormalizedArgs(obj: Option<Json>)
    ensures NormalizeCall(obj).Some? ==> NormalizeCall(obj).value.args.Str?
  {
  }

  lemma {:induction false} ExtractedArgs(content: Option<string>)
    ensures forall c | c in Extract(content).0 :: c.args.Str?
  {
    if content.Some? {
      var t := content.value;
      CallArgs(Raws(Candidates(FinderOf(TOOL_CALL), t, 0)));
      CallArgs(Raws(Candidates(FinderOf(TOOLS), t, 0)));
      CallArgs(FencedObjects(Raws(Candidates(FinderOf(Fence), t, 0))));
      CallArgs(Objects(t));
    }
  }
}
