/**
 The scanner that finds top-level `{...}` objects in model output.

 `ModeAt` and `DepthAt` describe a text position by position; `IsObjectSpan` says, without mentioning the
 scanner's variables, what a top-level object is; `BalancedObjectSpans` is the loop.
 */
module BraceScanner {
  import opened Text

  type Span = (nat, nat)

  /** Outside every string, inside a string, or just after a backslash inside a string. */
  datatype Mode = Code | Quoted(quote: char) | Escaped(quote: char)

  predicate IsQuote(c: char) {
    c == '\'' || c == '"'
  }

  predicate IsBrace(c: char) {
    c == '{' || c == '}'
  }

  function NextMode(m: Mode, c: char): Mode {
    match m
    case Escaped(q) => Quoted(q)
    case Quoted(q) => if c == '\\' then Escaped(q) else if c == q then Code else m
    case Code => if IsQuote(c) then Quoted(c) else Code
  }

  /** What one character adds to the brace depth. */
  function Weight(m: Mode, c: char): int {
    if m != Code then 0 else if c == '{' then 1 else if c == '}' then -1 else 0
  }

  function ModeAt(t: string, k: nat): Mode
    requires k <= |t|
  {
    if k == 0 then Code else NextMode(ModeAt(t, k - 1), t[k - 1])
  }

  /** Unquoted `{` minus unquoted `}` among the first `k` characters; it may be negative. */
  function DepthAt(t: string, k: nat): int
    requires k <= |t|
  {
    if k == 0 then 0 else DepthAt(t, k - 1) + Weight(ModeAt(t, k - 1), t[k - 1])
  }

  /** `t[s..e]` runs from an unquoted `{` at depth zero to the first later position where the depth is zero again. */
  ghost predicate IsObjectSpan(t: string, s: nat, e: nat) {
    && s < e <= |t|
    && ModeAt(t, s) == Code && t[s] == '{' && DepthAt(t, s) == 0
    && DepthAt(t, e) == 0
    && forall k | s < k < e :: DepthAt(t, k) >= 1
  }

  /** The scanner's `start` variable after `k` characters. */
  function StartAt(t: string, k: nat): int
    requires k <= |t|
    decreases k, 1
  {
    if k == 0 then -1
    else if ModeAt(t, k - 1) == Code && t[k - 1] == '{' && DepthAt(t, k - 1) == 0 then k - 1
    else if Reports(t, k) then -1
    else StartAt(t, k - 1)
  }

  /** Does reading character `k - 1` make the scanner report a span? */
  predicate Reports(t: string, k: nat)
    requires 0 < k <= |t|
    decreases k, 0
  {
    ModeAt(t, k - 1) == Code && t[k - 1] == '}' && DepthAt(t, k) == 0 && StartAt(t, k - 1) >= 0
  }

  function SpansUpTo(t: string, k: nat): seq<Span>
    requires k <= |t|
  {
    if k == 0 then []
    else SpansUpTo(t, k - 1) + if Reports(t, k) then [(StartAt(t, k - 1) as nat, k)] else []
  }

  function Spans(t: string): seq<Span> {
    SpansUpTo(t, |t|)
  }

  ghost predicate Increasing(spans: seq<Span>) {
    && (forall i | 0 <= i < |spans| :: spans[i].0 < spans[i].1)
    && forall i, j | 0 <= i < j < |spans| :: spans[i].1 <= spans[j].0
  }

  // ---- The scanner's variables ----

  /** `start >= 0` exactly when `depth >= 1`, so the test `start >= 0` next to `depth == 0` never decides anything. */
  lemma {:induction false} StartTracksDepth(t: string, k: nat)
    requires k <= |t|
    ensures StartAt(t, k) >= 0 <==> DepthAt(t, k) >= 1
    ensures StartAt(t, k) >= 0 ==>
              var s := StartAt(t, k);
              && s < k && ModeAt(t, s) == Code && t[s] == '{' && DepthAt(t, s) == 0
              && forall j | s < j <= k :: DepthAt(t, j) >= 1
    ensures k > 0 ==> (Reports(t, k) <==> ModeAt(t, k - 1) == Code && t[k - 1] == '}' && DepthAt(t, k) == 0)
  {
    if k > 0 {
      StartTracksDepth(t, k - 1);
    }
  }

  /** Once a span has been opened at `s`, `start` stays `s` while the depth stays positive. */
  lemma {:induction false} StartStays(t: string, s: nat, k: nat)
    requires s < k <= |t|
    requires ModeAt(t, s) == Code && t[s] == '{' && DepthAt(t, s) == 0
    requires forall j | s < j <= k :: DepthAt(t, j) >= 1
    ensures StartAt(t, k) == s
  {
    if k > s + 1 {
      StartStays(t, s, k - 1);
    }
  }

  lemma {:induction false} SpansUpToExact(t: string, k: nat)
    requires k <= |t|
    ensures forall s: nat, e: nat :: (s, e) in SpansUpTo(t, k) <==> e <= k && IsObjectSpan(t, s, e)
  {
    if k > 0 {
      SpansUpToExact(t, k - 1);
      StartTracksDepth(t, k - 1);
      StartTracksDepth(t, k);
      forall s: nat, e: nat
        ensures (s, e) in SpansUpTo(t, k) <==> e <= k && IsObjectSpan(t, s, e)
      {
        if e == k && IsObjectSpan(t, s, e) && s + 1 < k {
          StartStays(t, s, k - 1);
        }
      }
    }
  }

  lemma {:induction false} SpansUpToIncreasing(t: string, k: nat)
    requires k <= |t|
    ensures Increasing(SpansUpTo(t, k))
    ensures forall i | 0 <= i < |SpansUpTo(t, k)| ::
              SpansUpTo(t, k)[i].1 <= if StartAt(t, k) >= 0 then StartAt(t, k) else k
  {
    if k > 0 {
      SpansUpToIncreasing(t, k - 1);
      StartTracksDepth(t, k - 1);
      StartTracksDepth(t, k);
    }
  }

  /** Soundness and completeness, for every text: a span is reported iff it is a top-level object. */
  lemma {:induction false} SpansExact(t: string)
    ensures forall s: nat, e: nat :: (s, e) in Spans(t) <==> IsObjectSpan(t, s, e)
    ensures Increasing(Spans(t))
  {
    SpansUpToExact(t, |t|);
    SpansUpToIncreasing(t, |t|);
  }

  // ---- The loop ----

  method BalancedObjectSpans(text: string) returns (spans: seq<Span>)
    ensures spans == Spans(text)
    ensures forall s: nat, e: nat :: (s, e) in spans <==> IsObjectSpan(text, s, e)
    ensures Increasing(spans)
  {
    spans := [];
    var depth, start := 0, -1;
    var inStr, escape := false, false;
    var strQuote: Option<char> := None;
    var i := 0;
    while i < |text|
      invariant i <= |text|
      invariant spans == SpansUpTo(text, i)
      invariant depth == DepthAt(text, i) && start == StartAt(text, i)
      invariant match ModeAt(text, i)
                case Code => !inStr && !escape
                case Quoted(q) => inStr && !escape && strQuote == Some(q)
                case Escaped(q) => inStr && escape && strQuote == Some(q)
    {
      var ch := text[i];
      i := i + 1;
      if escape {
        escape := false;
        continue;
      }
      if inStr {
        if ch == '\\' {
          escape := true;
        } else if Some(ch) == strQuote {
          inStr := false;
        }
        continue;
      }
      if ch == '\'' || ch == '"' {
        inStr := true;
        strQuote := Some(ch);
        continue;
      }
      if ch == '{' {
        if depth == 0 {
          start := i - 1;
        }
        depth := depth + 1;
      } else if ch == '}' {
        depth := depth - 1;
        if depth == 0 && start >= 0 {
          spans := spans + [(start, i)];
          start := -1;
        }
      }
    }
    SpansExact(text);
  }

  // ---- Texts in context ----

  /** The text ends outside every string, with every brace matched. */
  predicate Closed(t: string) {
    ModeAt(t, |t|) == Code && DepthAt(t, |t|) == 0
  }

  lemma {:induction false} PrefixRun(p: string, q: string, k: nat)
    requires k <= |p|
    ensures ModeAt(p + q, k) == ModeAt(p, k) && DepthAt(p + q, k) == DepthAt(p, k) && StartAt(p + q, k) == StartAt(p, k)
    ensures SpansUpTo(p + q, k) == SpansUpTo(p, k)
  {
    if k > 0 {
      PrefixRun(p, q, k - 1);
    }
  }

  /** After a text that ends outside strings, the scan of what follows is a scan from scratch, shifted in depth. */
  lemma {:induction false} SuffixRun(p: string, q: string, k: nat)
    requires ModeAt(p, |p|) == Code && k <= |q|
    ensures ModeAt(p + q, |p| + k) == ModeAt(q, k)
    ensures DepthAt(p + q, |p| + k) == DepthAt(p, |p|) + DepthAt(q, k)
  {
    if k == 0 {
      PrefixRun(p, q, |p|);
    } else {
      SuffixRun(p, q, k - 1);
      assert (p + q)[|p| + k - 1] == q[k - 1];
    }
  }

  lemma {:induction false} MiddleAt(p: string, obj: string, q: string, k: nat)
    requires ModeAt(p, |p|) == Code && k <= |obj|
    ensures ModeAt(p + obj + q, |p| + k) == ModeAt(obj, k)
    ensures DepthAt(p + obj + q, |p| + k) == DepthAt(p, |p|) + DepthAt(obj, k)
  {
    PrefixRun(p + obj, q, |p| + k);
    SuffixRun(p, obj, k);
  }

  /** An object stays one behind a closed text, whatever follows it. */
  lemma {:induction false} ObjectInContext(p: string, obj: string, q: string)
    requires Closed(p) && IsObjectSpan(obj, 0, |obj|)
    ensures IsObjectSpan(p + obj + q, |p|, |p| + |obj|)
  {
    var t := p + obj + q;
    MiddleAt(p, obj, q, 0);
    MiddleAt(p, obj, q, |obj|);
    assert t[|p|] == obj[0];
    forall k | |p| < k < |p| + |obj|
      ensures DepthAt(t, k) >= 1
    {
      MiddleAt(p, obj, q, k - |p|);
    }
  }

  /** And it is one on its own. */
  lemma {:induction false} ObjectAlone(p: string, obj: string, q: string)
    requires Closed(p) && IsObjectSpan(p + obj + q, |p|, |p| + |obj|)
    ensures IsObjectSpan(obj, 0, |obj|)
  {
    var t := p + obj + q;
    MiddleAt(p, obj, q, 0);
    MiddleAt(p, obj, q, |obj|);
    assert t[|p|] == obj[0];
    forall k | 0 < k < |obj|
      ensures DepthAt(obj, k) >= 1
    {
      MiddleAt(p, obj, q, k);
    }
  }

  /** Rescanning the text of a reported span reports exactly that text. */
  lemma {:induction false} SpanLocality(t: string, s: nat, e: nat)
    requires (s, e) in Spans(t)
    ensures s < e <= |t| && IsObjectSpan(t[s..e], 0, e - s)
    ensures Spans(t[s..e]) == [(0, e - s)]
  {
    SpansExact(t);
    var p, obj, q := t[..s], t[s..e], t[e..];
    assert t == p + obj + q == p + (obj + q);
    PrefixRun(p, obj + q, s);
    ObjectAlone(p, obj, q);
    OneObjectOneSpan(obj);
  }

  lemma {:induction false} OneObjectOneSpan(obj: string)
    requires IsObjectSpan(obj, 0, |obj|)
    ensures Spans(obj) == [(0, |obj|)]
  {
    SpansExact(obj);
    var spans := Spans(obj);
    assert (0, |obj|) in spans;
    forall i | 0 <= i < |spans|
      ensures spans[i] == (0, |obj|)
    {
      var (s, e) := spans[i];
      assert (s, e) in spans;
      assert IsObjectSpan(obj, s, e);
    }
    assert |spans| > 1 ==> spans[0].1 <= spans[1].0;
  }

  /**
   Exactly when an object is found, whatever stands in front of it: iff that text ends outside strings and
   leaves the depth at zero. A stray `}`, an unclosed `{` or an odd quote, such as an apostrophe, hides it.
   */
  lemma {:induction false} ReportedIffClosed(p: string, obj: string, q: string)
    requires IsObjectSpan(obj, 0, |obj|)
    ensures (|p|, |p| + |obj|) in Spans(p + obj + q) <==> ModeAt(p, |p|) == Code && DepthAt(p, |p|) == 0
  {
    hide ModeAt, DepthAt, StartAt;
    var t := p + obj + q;
    SpansExact(t);
    Assoc(p, obj, q);
    PrefixRun(p, obj + q, |p|);
    if ModeAt(p, |p|) == Code && DepthAt(p, |p|) == 0 {
      ObjectInContext(p, obj, q);
    }
  }

  /** A stray closing brace makes the scanner miss the object after it. */
  lemma {:induction false} StrayBraceHidesObject()
    ensures Spans("{}") == [(0, 2)] && Spans("}{}") == []
  {
    assert DepthAt("{}", 1) == 1;
    assert DepthAt("{}", 2) == 0;
    assert DepthAt("}{}", 1) == -1;
    assert DepthAt("}{}", 2) == 0;
    assert DepthAt("}{}", 3) == -1;
    assert SpansUpTo("}{}", 1) == [] && SpansUpTo("}{}", 2) == [];
    OneObjectOneSpan("{}");
  }

  lemma {:induction false} InsideString(p: string, q: char, rest: string, k: nat)
    requires ModeAt(p, |p|) == Code && IsQuote(q) && k <= |rest|
    requires forall i | 0 <= i < |rest| :: rest[i] != q && rest[i] != '\\'
    ensures ModeAt(p + [q] + rest, |p| + 1 + k) == Quoted(q) && SpansUpTo(p + [q] + rest, |p| + 1 + k) == Spans(p)
  {
    var t := p + [q] + rest;
    if k == 0 {
      Assoc(p, [q], rest);
      PrefixRun(p, [q] + rest, |p|);
      assert t[|p|] == q;
    } else {
      InsideString(p, q, rest, k - 1);
      assert t[|p| + k] == rest[k - 1];
    }
  }

  /** Behind a quote that is never closed, such as an apostrophe, nothing is found any more. */
  lemma {:induction false} OddQuoteHidesRest(p: string, q: char, rest: string)
    requires ModeAt(p, |p|) == Code && IsQuote(q)
    requires forall i | 0 <= i < |rest| :: rest[i] != q && rest[i] != '\\'
    ensures Spans(p + [q] + rest) == Spans(p)
  {
    InsideString(p, q, rest, |rest|);
  }

  /** So an apostrophe makes the scanner miss the object after it. */
  lemma {:induction false} ApostropheHidesObject(t: string)
    requires t == "'{}"
    ensures Spans(t) == []
  {
    assert t == "" + ['\''] + "{}";
    OddQuoteHidesRest("", '\'', "{}");
  }

  function Shift(spans: seq<Span>, off: nat): (r: seq<Span>)
    ensures |r| == |spans|
    ensures forall i | 0 <= i < |r| :: r[i] == (spans[i].0 + off, spans[i].1 + off)
  {
    seq(|spans|, i requires 0 <= i < |spans| => (spans[i].0 + off, spans[i].1 + off))
  }

  lemma {:induction false} StartAtLeast(t: string, k: nat)
    requires k <= |t|
    ensures StartAt(t, k) >= -1
  {
    if k > 0 {
      StartAtLeast(t, k - 1);
    }
  }

  lemma {:induction false} SameReport(p: string, q: string, k: nat)
    requires Closed(p) && 0 < k <= |q|
    requires StartAt(p + q, |p| + k - 1) == if StartAt(q, k - 1) >= 0 then |p| + StartAt(q, k - 1) else -1
    ensures Reports(p + q, |p| + k) <==> Reports(q, k)
    ensures StartAt(p + q, |p| + k) == if StartAt(q, k) >= 0 then |p| + StartAt(q, k) else -1
  {
    hide ModeAt, DepthAt;
    SuffixRun(p, q, k - 1);
    SuffixRun(p, q, k);
    assert (p + q)[|p| + k - 1] == q[k - 1];
    StartAtLeast(q, k - 1);
  }

  lemma {:induction false} ShiftedStep(p: string, q: string, k: nat)
    requires 0 < k <= |q| && (Reports(p + q, |p| + k) <==> Reports(q, k))
    requires StartAt(p + q, |p| + k - 1) == if StartAt(q, k - 1) >= 0 then |p| + StartAt(q, k - 1) else -1
    requires SpansUpTo(p + q, |p| + k - 1) == Spans(p) + Shift(SpansUpTo(q, k - 1), |p|)
    ensures SpansUpTo(p + q, |p| + k) == Spans(p) + Shift(SpansUpTo(q, k), |p|)
  {
    hide ModeAt, DepthAt, Spans;
    StartTracksDepth(q, k - 1);
    if Reports(q, k) {
      var s := StartAt(q, k - 1) as nat;
      ShiftLast(Spans(p), SpansUpTo(q, k - 1), (s, k), |p|);
    } else {
      assert SpansUpTo(q, k - 1) + [] == SpansUpTo(q, k - 1);
    }
  }

  lemma {:induction false} ShiftLast(before: seq<Span>, spans: seq<Span>, last: Span, off: nat)
    ensures before + Shift(spans, off) + [(last.0 + off, last.1 + off)] == before + Shift(spans + [last], off)
  {
  }

  lemma {:induction false} SpansOfConcatUpTo(p: string, q: string, k: nat)
    requires Closed(p) && k <= |q|
    ensures StartAt(p + q, |p| + k) == if StartAt(q, k) >= 0 then |p| + StartAt(q, k) else -1
    ensures SpansUpTo(p + q, |p| + k) == Spans(p) + Shift(SpansUpTo(q, k), |p|)
  {
    hide ModeAt, DepthAt;
    if k == 0 {
      PrefixRun(p, q, |p|);
      StartTracksDepth(p, |p|);
      StartAtLeast(p, |p|);
    } else {
      SpansOfConcatUpTo(p, q, k - 1);
      assert (p + q)[|p| + k - 1] == q[k - 1];
      SameReport(p, q, k);
      ShiftedStep(p, q, k);
    }
  }

  lemma {:induction false} SpansOfConcat(p: string, q: string)
    requires Closed(p)
    ensures Spans(p + q) == Spans(p) + Shift(Spans(q), |p|)
  {
    SpansOfConcatUpTo(p, q, |q|);
  }

  // ---- What the scanner looks at, character by character ----

  lemma {:induction false} ShiftTwice(spans: seq<Span>, a: nat, b: nat)
    ensures Shift(Shift(spans, a), b) == Shift(spans, b + a)
  {
  }

  lemma {:induction false} ShiftsJoined(a: seq<Span>, none: seq<Span>, b: seq<Span>, m: nat, n: nat)
    requires none == []
    ensures a + Shift(none + Shift(b, m), n) == a + Shift(b, n + m)
  {
    assert none + Shift(b, m) == Shift(b, m);
    ShiftTwice(b, m, n);
  }

  /** A piece of text that ends outside strings at depth zero and holds no object is skipped. */
  lemma {:induction false} PieceSkipped(p: string, piece: string, q: string)
    requires Closed(p) && Closed(piece) && Spans(piece) == []
    ensures Spans(p + piece + q) == Spans(p) + Shift(Spans(q), |p| + |piece|)
  {
    hide Closed, Spans, Shift;
    SpansOfConcat(p, piece + q);
    SpansOfConcat(piece, q);
    ShiftsJoined(Spans(p), Spans(piece), Spans(q), |piece|, |p|);
    Assoc(p, piece, q);
  }

  lemma {:induction false} PlainCharScanned(c: char)
    requires c != '\'' && c != '"' && c != '{' && c != '}'
    ensures Closed([c]) && Spans([c]) == []
  {
    assert ModeAt([c], 0) == Code && DepthAt([c], 0) == 0;
    assert SpansUpTo([c], 0) == [];
  }

  /** Four characters matter outside strings: any other one, a backtick for instance, changes nothing. */
  lemma {:induction false} PlainCharSkipped(p: string, c: char, q: string)
    requires Closed(p) && c != '\'' && c != '"' && c != '{' && c != '}'
    ensures Spans(p + [c] + q) == Spans(p) + Shift(Spans(q), |p| + 1)
  {
    hide Closed, Spans;
    PlainCharScanned(c);
    PieceSkipped(p, [c], q);
  }

  lemma {:induction false} LiteralScanned(q0: char, r: string)
    requires (q0 == '\'' || q0 == '"') && forall i | 0 <= i < |r| :: r[i] != q0 && r[i] != '\\'
    ensures Closed([q0] + r + [q0]) && Spans([q0] + r + [q0]) == []
  {
    var t, open := [q0] + r + [q0], [q0] + r;
    assert "" + [q0] + r == open && t == open + [q0];
    assert ModeAt("", 0) == Code && Spans("") == [];
    InsideString("", q0, r, |r|);
    InsideDepth(q0, r, |r|);
    PrefixRun(open, [q0], |open|);
    assert t[|open|] == q0;
  }

  lemma {:induction false} InsideDepth(q0: char, r: string, k: nat)
    requires (q0 == '\'' || q0 == '"') && k <= |r| && forall i | 0 <= i < |r| :: r[i] != q0 && r[i] != '\\'
    ensures DepthAt([q0] + r, 1 + k) == 0
  {
    assert "" + [q0] + r == [q0] + r;
    if k == 0 {
      assert DepthAt([q0] + r, 0) == 0;
    } else {
      InsideDepth(q0, r, k - 1);
      InsideString("", q0, r, k - 1);
    }
  }

  /** Either quote opens a string that the same quote closes; what stands between them changes nothing. */
  lemma {:induction false} LiteralSkipped(p: string, q0: char, r: string, q: string)
    requires Closed(p) && (q0 == '\'' || q0 == '"') && forall i | 0 <= i < |r| :: r[i] != q0 && r[i] != '\\'
    ensures Spans(p + [q0] + r + [q0] + q) == Spans(p) + Shift(Spans(q), |p| + |r| + 2)
  {
    hide Closed, Spans;
    LiteralScanned(q0, r);
    PieceSkipped(p, [q0] + r + [q0], q);
    assert p + [q0] + r + [q0] + q == p + ([q0] + r + [q0]) + q;
  }

  /** Inside a string a backslash takes the next character with it, a quote or a backslash included. */
  lemma {:induction false} EscapeSkipped(p: string, q0: char, c: char, q: string)
    requires Closed(p) && (q0 == '\'' || q0 == '"')
    ensures Spans(p + [q0, '\\', c, q0] + q) == Spans(p) + Shift(Spans(q), |p| + 4)
  {
    hide Closed, Spans;
    EscapeScanned(q0, c);
    PieceSkipped(p, [q0, '\\', c, q0], q);
  }

  lemma {:induction false} EscapeScanned(q0: char, c: char)
    requires q0 == '\'' || q0 == '"'
    ensures Closed([q0, '\\', c, q0]) && Spans([q0, '\\', c, q0]) == []
  {
    var t := [q0, '\\', c, q0];
    assert ModeAt(t, 0) == Code && ModeAt(t, 1) == Quoted(q0) && ModeAt(t, 2) == Escaped(q0) && ModeAt(t, 3) == Quoted(q0);
    assert DepthAt(t, 0) == 0 && DepthAt(t, 1) == 0 && DepthAt(t, 2) == 0 && DepthAt(t, 3) == 0;
    assert SpansUpTo(t, 0) == [] && SpansUpTo(t, 1) == [] && SpansUpTo(t, 2) == [] && SpansUpTo(t, 3) == [];
  }

  /** A pair of braces around text without braces and quotes is an object. */
  lemma {:induction false} BracesFound(p: string, r: string, q: string)
    requires Closed(p) && forall i | 0 <= i < |r| :: r[i] != '\'' && r[i] != '"' && r[i] != '{' && r[i] != '}'
    ensures (|p|, |p| + |r| + 2) in Spans(p + ("{" + r + "}") + q)
  {
    var obj := "{" + r + "}";
    forall k | 1 <= k <= |r| + 1
      ensures ModeAt(obj, k) == Code && DepthAt(obj, k) == 1
    {
      InsideBraces(r, k);
    }
    assert ModeAt(obj, |r| + 1) == Code && obj[|r| + 1] == '}' && DepthAt(obj, 0) == 0;
    assert DepthAt(obj, |obj|) == DepthAt(obj, |r| + 1) + Weight(ModeAt(obj, |r| + 1), obj[|r| + 1]);
    ReportedIffClosed(p, obj, q);
  }

  lemma {:induction false} InsideBraces(r: string, k: nat)
    requires 1 <= k <= |r| + 1 && forall i | 0 <= i < |r| :: r[i] != '\'' && r[i] != '"' && r[i] != '{' && r[i] != '}'
    ensures ModeAt("{" + r + "}", k) == Code && DepthAt("{" + r + "}", k) == 1
  {
    var obj := "{" + r + "}";
    if k == 1 {
      assert ModeAt(obj, 0) == Code && DepthAt(obj, 0) == 0 && obj[0] == '{';
    } else {
      InsideBraces(r, k - 1);
      assert obj[k - 1] == r[k - 2];
    }
  }
}
