/**
 The benchmark's cutter for one Go function: a second brace matcher, blind to strings. It agrees with the
 scanner of `BraceScanner` on texts whose braces are all outside strings and whose first brace opens.
 */
module GoCutter {
  import opened Text
  import opened BraceScanner

  /** Opening minus closing braces in `t[from..k]`, quoted or not. */
  function RawDepth(t: string, from: nat, k: nat): int
    requires from <= k <= |t|
  {
    if k == from then 0
    else RawDepth(t, from, k - 1) + if t[k - 1] == '{' then 1 else if t[k - 1] == '}' then -1 else 0
  }

  /** The cut: just behind the first `}` at which the count, started at the first `{`, returns to zero. */
  ghost predicate CutsAt(t: string, e: nat) {
    exists p: nat :: OpensAt(t, p) && ReturnsAt(t, p, e)
  }

  ghost predicate OpensAt(t: string, p: nat) {
    p < |t| && t[p] == '{' && NoneBefore(t, p, '{')
  }

  ghost predicate NoneBefore(t: string, p: nat, c: char)
    requires p <= |t|
  {
    forall i | 0 <= i < p :: t[i] != c
  }

  ghost predicate ReturnsAt(t: string, p: nat, e: nat) {
    && p < e <= |t| && t[e - 1] == '}' && RawDepth(t, p, e) == 0
    && forall k | p < k < e :: RawDepth(t, p, k) != 0
  }

  method CutAtMatchingBrace(fnText: string) returns (cut: string)
    ensures forall e: nat | CutsAt(fnText, e) :: cut == fnText[..e]
    ensures (forall e: nat :: !CutsAt(fnText, e)) ==> cut == fnText
    ensures cut == fnText || CutsAt(fnText, |cut|)
  {
    var depth := 0;
    var found := Find(fnText, "{", 0);
    FindFirst(fnText, "{", 0);
    if found.None? {
      assert forall k | 0 <= k < |fnText| && fnText[k] == '{' :: StartsAt(fnText, k, "{");
      return fnText;
    }
    var start := found.value;
    assert OpensAt(fnText, start) by {
      assert forall k | 0 <= k < start && fnText[k] == '{' :: StartsAt(fnText, k, "{");
      assert fnText[start..start + 1][0] == fnText[start];
    }
    var i := start;
    while i < |fnText|
      invariant start <= i <= |fnText|
      invariant depth == RawDepth(fnText, start, i)
      invariant i > start ==> depth >= 1
      invariant forall k | start < k <= i :: RawDepth(fnText, start, k) >= 1
    {
      var ch := fnText[i];
      i := i + 1;
      if ch == '{' {
        depth := depth + 1;
      } else if ch == '}' {
        depth := depth - 1;
        if depth == 0 {
          assert ReturnsAt(fnText, start, i);
          assert CutsAt(fnText, i);
          CutUnique(fnText, start, i);
          return fnText[..i];
        }
      }
    }
    cut := fnText;
    assert forall p: nat | OpensAt(fnText, p) :: p == start;
  }

  lemma {:induction false} OpenUnique(t: string, p: nat, q: nat)
    requires OpensAt(t, p) && OpensAt(t, q)
    ensures p == q
  {
  }

  lemma {:induction false} CutUnique(t: string, p: nat, e: nat)
    requires OpensAt(t, p) && ReturnsAt(t, p, e)
    ensures forall e': nat | CutsAt(t, e') :: e' == e
  {
    forall e': nat | CutsAt(t, e')
      ensures e' == e
    {
      var p': nat :| OpensAt(t, p') && ReturnsAt(t, p', e');
      OpenUnique(t, p, p');
    }
  }

  // ---- Agreement with the scanner ----

  /** Every brace is outside the strings that the scanner sees; quote-free text is the simplest case. */
  ghost predicate BracesUnquoted(t: string) {
    forall i | 0 <= i < |t| && IsBrace(t[i]) :: ModeAt(t, i) == Code
  }

  lemma {:induction false} QuoteFreeRun(t: string, k: nat)
    requires k <= |t| && forall i | 0 <= i < |t| :: !IsQuote(t[i])
    ensures ModeAt(t, k) == Code
  {
    if k > 0 {
      QuoteFreeRun(t, k - 1);
    }
  }

  lemma {:induction false} QuoteFreeIsUnquoted(t: string)
    requires forall i | 0 <= i < |t| :: !IsQuote(t[i])
    ensures BracesUnquoted(t)
  {
    forall i | 0 <= i < |t|
      ensures ModeAt(t, i) == Code
    {
      QuoteFreeRun(t, i);
    }
  }

  lemma {:induction false} RawDepthIsDepth(t: string, p: nat, k: nat)
    requires p <= k <= |t| && BracesUnquoted(t)
    ensures DepthAt(t, k) == DepthAt(t, p) + RawDepth(t, p, k)
  {
    if p < k {
      RawDepthIsDepth(t, p, k - 1);
    }
  }

  /** The depth in front of the first `{` is minus the number of `}` there, so zero iff there is none. */
  lemma {:induction false} DepthBeforeFirstOpen(t: string, k: nat)
    requires k <= |t| && NoneBefore(t, k, '{') && BracesUnquoted(t)
    ensures DepthAt(t, k) <= 0
    ensures DepthAt(t, k) == 0 <==> NoneBefore(t, k, '}')
  {
    if k > 0 {
      DepthBeforeFirstOpen(t, k - 1);
    }
  }

  /** With nothing but an opening brace first, the cut is where the scanner's object from that brace ends. */
  lemma {:induction false} CutIsSpan(t: string, p: nat, e: nat)
    requires BracesUnquoted(t) && OpensAt(t, p) && NoneBefore(t, p, '}')
    ensures ReturnsAt(t, p, e) <==> IsObjectSpan(t, p, e)
  {
    DepthBeforeFirstOpen(t, p);
    if p < e <= |t| {
      RawDepthIsDepth(t, p, e);
      forall k | p < k <= e
        ensures DepthAt(t, k) == RawDepth(t, p, k)
      {
        RawDepthIsDepth(t, p, k);
      }
      if ReturnsAt(t, p, e) {
        forall k | p < k < e
          ensures DepthAt(t, k) >= 1
        {
          StaysPositive(t, p, k);
        }
      }
      if IsObjectSpan(t, p, e) {
        assert e > p + 1 ==> DepthAt(t, e - 1) >= 1;
        assert RawDepth(t, p, p + 1) == 1;
        assert t[e - 1] == '}';
      }
    }
  }

  lemma {:induction false} StaysPositive(t: string, p: nat, k: nat)
    requires p < k <= |t| && t[p] == '{'
    requires forall j | p < j <= k :: RawDepth(t, p, j) != 0
    ensures RawDepth(t, p, k) >= 1
  {
    if p + 1 < k {
      StaysPositive(t, p, k - 1);
    }
  }

  /**
   The two matchers agree: the cutter cuts exactly at the end of the scanner's first span, and finds no cut
   iff the scanner finds no span.
   */
  lemma {:induction false} CutterAgrees(t: string, p: nat)
    requires BracesUnquoted(t) && OpensAt(t, p) && NoneBefore(t, p, '}')
    ensures Spans(t) != [] ==> CutsAt(t, Spans(t)[0].1) && Spans(t)[0].0 == p
    ensures forall e: nat | CutsAt(t, e) :: Spans(t) != [] && e == Spans(t)[0].1
  {
    SpansExact(t);
    var spans := Spans(t);
    forall e: nat | CutsAt(t, e)
      ensures spans != [] && spans[0] == (p, e)
    {
      var p': nat :| OpensAt(t, p') && ReturnsAt(t, p', e);
      OpenUnique(t, p, p');
      CutIsSpan(t, p, e);
      FirstSpanFrom(t, p, e);
    }
    if spans != [] {
      var (s, e) := spans[0];
      assert (s, e) in spans;
      if s > p {
        ReturnBefore(t, p, s);
      } else {
        CutIsSpan(t, p, e);
      }
    }
  }

  /** A span from the very first `{` is the first one reported. */
  lemma {:induction false} FirstSpanFrom(t: string, p: nat, e: nat)
    requires OpensAt(t, p) && (p, e) in Spans(t)
    ensures Spans(t)[0] == (p, e)
  {
    SpansExact(t);
    var spans := Spans(t);
    var i :| 0 <= i < |spans| && spans[i] == (p, e);
    var (s, e0) := spans[0];
    assert (s, e0) in spans;
  }

  /** If the scanner is back at depth zero behind the first `{`, the cutter has cut by then. */
  lemma {:induction false} ReturnBefore(t: string, p: nat, s: nat)
    requires BracesUnquoted(t) && OpensAt(t, p) && NoneBefore(t, p, '}')
    requires p < s <= |t| && DepthAt(t, s) == 0
    ensures exists e: nat :: CutsAt(t, e)
  {
    DepthBeforeFirstOpen(t, p);
    RawDepthIsDepth(t, p, s);
    var e := p + 1;
    assert RawDepth(t, p, e) == 1;
    while RawDepth(t, p, e) != 0
      invariant p < e <= s
      invariant forall k | p < k < e :: RawDepth(t, p, k) != 0
      decreases s - e
    {
      e := e + 1;
    }
    StaysPositive(t, p, e - 1);
    assert ReturnsAt(t, p, e);
    assert CutsAt(t, e);
  }

  /** Behind a stray `}` they never agree on an end: no span of the scanner ends where the cutter cuts. */
  lemma {:induction false} StrayBraceDisagrees(t: string, p: nat, e: nat)
    requires BracesUnquoted(t) && OpensAt(t, p) && !NoneBefore(t, p, '}') && CutsAt(t, e)
    ensures forall s: nat :: (s, e) !in Spans(t)
  {
    SpansExact(t);
    DepthBeforeFirstOpen(t, p);
    var p': nat :| OpensAt(t, p') && ReturnsAt(t, p', e);
    OpenUnique(t, p, p');
    RawDepthIsDepth(t, p, e);
  }

  /** The matchers agree: both find nothing, or the cut is the end of the first span. */
  ghost predicate Agree(t: string) {
    && (Spans(t) == [] <==> forall e: nat :: !CutsAt(t, e))
    && forall e: nat | CutsAt(t, e) :: Spans(t) != [] && e == Spans(t)[0].1
  }

  /** The count of the cutter is `d` at an opening brace, and `d` again later. */
  ghost predicate ComesBack(t: string, p: nat, d: int)
    requires p <= |t|
  {
    exists s, e :: p <= s < e <= |t| && t[s] == '{' && RawDepth(t, p, s) == d && RawDepth(t, p, e) == d
  }

  /** The count of the cutter comes back to where it started. */
  ghost predicate Returns(t: string, p: nat)
    requires p <= |t|
  {
    exists k :: p < k <= |t| && RawDepth(t, p, k) == 0
  }

  lemma {:induction false} ReturnsIsBack(t: string, p: nat)
    requires OpensAt(t, p)
    ensures Returns(t, p) <==> ComesBack(t, p, 0)
  {
    if Returns(t, p) {
      var k :| p < k <= |t| && RawDepth(t, p, k) == 0;
      assert RawDepth(t, p, p) == 0;
    }
    if ComesBack(t, p, 0) {
      var s, e :| p <= s < e <= |t| && t[s] == '{' && RawDepth(t, p, s) == 0 && RawDepth(t, p, e) == 0;
    }
  }

  lemma {:induction false} CutIffReturns(t: string, p: nat)
    requires OpensAt(t, p)
    ensures (exists e: nat :: CutsAt(t, e)) <==> Returns(t, p)
  {
    if Returns(t, p) {
      var k :| p < k <= |t| && RawDepth(t, p, k) == 0;
      var e := p + 1;
      assert RawDepth(t, p, e) == 1;
      while RawDepth(t, p, e) != 0
        invariant p < e <= k
        invariant forall j | p < j < e :: RawDepth(t, p, j) != 0
        decreases k - e
      {
        e := e + 1;
      }
      StaysPositive(t, p, e - 1);
      assert ReturnsAt(t, p, e);
      assert CutsAt(t, e);
    }
    if exists e: nat :: CutsAt(t, e) {
      var e: nat :| CutsAt(t, e);
      var p': nat :| OpensAt(t, p') && ReturnsAt(t, p', e);
      OpenUnique(t, p, p');
    }
  }

  /** No top-level object stands anywhere in the text. */
  ghost predicate NoObject(t: string) {
    forall s: nat, e: nat :: !IsObjectSpan(t, s, e)
  }

  /** Behind `d` stray closing braces the scanner finds an object iff the count comes back to `d`. */
  lemma {:induction false} ObjectIffBack(t: string, p: nat)
    requires BracesUnquoted(t) && OpensAt(t, p)
    ensures DepthAt(t, p) <= 0
    ensures NoObject(t) <==> !ComesBack(t, p, -DepthAt(t, p))
  {
    DepthBeforeFirstOpen(t, p);
    if !NoObject(t) {
      var s: nat, e: nat :| IsObjectSpan(t, s, e);
      RawDepthIsDepth(t, p, s);
      RawDepthIsDepth(t, p, e);
    }
    if ComesBack(t, p, -DepthAt(t, p)) {
      var s, e :| p <= s < e <= |t| && t[s] == '{' && RawDepth(t, p, s) == -DepthAt(t, p) && RawDepth(t, p, e) == -DepthAt(t, p);
      RawDepthIsDepth(t, p, s);
      RawDepthIsDepth(t, p, e);
      ObjectFrom(t, s, e);
    }
  }

  /** An unquoted `{` at depth zero opens an object if the depth is zero again later. */
  lemma {:induction false} ObjectFrom(t: string, s: nat, e: nat)
    requires s < e <= |t| && ModeAt(t, s) == Code && t[s] == '{' && DepthAt(t, s) == 0 && DepthAt(t, e) == 0
    ensures !NoObject(t)
  {
    var k := s + 1;
    assert DepthAt(t, k) == 1;
    while DepthAt(t, k) != 0
      invariant s < k <= e && forall j | s < j < k :: DepthAt(t, j) >= 1
      invariant DepthAt(t, k) >= 0
      decreases e - k
    {
      k := k + 1;
    }
    assert IsObjectSpan(t, s, k);
  }

  lemma {:induction false} AgreeBehindOpen(t: string, p: nat)
    requires BracesUnquoted(t) && OpensAt(t, p) && NoneBefore(t, p, '}')
    ensures Agree(t)
  {
    hide BracesUnquoted, NoneBefore, OpensAt;
    CutterAgrees(t, p);
  }

  lemma {:induction false} AgreeBehindStray(t: string, p: nat)
    requires BracesUnquoted(t) && OpensAt(t, p) && !NoneBefore(t, p, '}')
    ensures Agree(t) <==> !Returns(t, p) && NoObject(t)
  {
    hide BracesUnquoted, NoneBefore, OpensAt, Returns, NoObject, CutsAt, Spans;
    SpansEmptyIff(t);
    CutIffReturns(t, p);
    FirstIsReported(t);
    forall e: nat | CutsAt(t, e)
      ensures forall s: nat :: (s, e) !in Spans(t)
    {
      StrayBraceDisagrees(t, p, e);
    }
  }

  /**
   When all braces are unquoted: the matchers agree iff there is no opening brace, or no closing brace in front of
   the first one, or with `d` of them in front the count that starts at the first `{` comes back neither to zero,
   where the cutter would cut, nor from an opening brace to `d`, where the scanner would report.
   */
  lemma {:induction false} AgreeIff(t: string)
    requires BracesUnquoted(t)
    ensures Agree(t) <==>
              forall p: nat | OpensAt(t, p) :: DepthAt(t, p) == 0 || (!ComesBack(t, p, 0) && !ComesBack(t, p, -DepthAt(t, p)))
  {
    hide BracesUnquoted, NoneBefore, Returns, NoObject, Agree, ComesBack;
    if p: nat :| OpensAt(t, p) {
      forall p': nat | OpensAt(t, p')
        ensures p' == p
      {
        OpenUnique(t, p, p');
      }
      ReturnsIsBack(t, p);
      ObjectIffBack(t, p);
      DepthBeforeFirstOpen(t, p);
      if NoneBefore(t, p, '}') {
        AgreeBehindOpen(t, p);
      } else {
        AgreeBehindStray(t, p);
      }
    } else {
      NoOpeningBrace(t);
    }
  }

  lemma {:induction false} SpansEmptyIff(t: string)
    ensures Spans(t) == [] <==> NoObject(t)
  {
    SpansExact(t);
    if Spans(t) != [] {
      var (s, e) := Spans(t)[0];
      assert (s, e) in Spans(t);
    }
  }

  lemma {:induction false} FirstIsReported(t: string)
    ensures Spans(t) != [] ==> exists s: nat :: (s, Spans(t)[0].1) in Spans(t)
  {
    if Spans(t) != [] {
      var (s, e) := Spans(t)[0];
      assert (s, e) in Spans(t);
    }
  }

  lemma {:induction false} NoOpeningBrace(t: string)
    requires forall p: nat :: !OpensAt(t, p)
    ensures Agree(t)
  {
    SpansExact(t);
    if exists i :: 0 <= i < |t| && t[i] == '{' {
      var i :| 0 <= i < |t| && t[i] == '{';
      var p := 0;
      while t[p] != '{'
        invariant p <= i && NoneBefore(t, p, '{')
        decreases i - p
      {
        p := p + 1;
      }
      assert OpensAt(t, p);
    }
    SpansEmptyIff(t);
  }

  // ---- Braces inside strings ----

  /** Opening minus closing braces inside strings in `t[from..k]`. */
  function QuotedDepth(t: string, from: nat, k: nat): int
    requires from <= k <= |t|
  {
    if k == from then 0
    else QuotedDepth(t, from, k - 1) + if ModeAt(t, k - 1) == Code then 0 else Weight(Code, t[k - 1])
  }

  lemma {:induction false} RawDepthSplits(t: string, p: nat, k: nat)
    requires p <= k <= |t|
    ensures RawDepth(t, p, k) == DepthAt(t, k) - DepthAt(t, p) + QuotedDepth(t, p, k)
  {
    if p < k {
      RawDepthSplits(t, p, k - 1);
    }
  }

  /** Between `p` and `e` the braces inside strings never make up for the depth. */
  ghost predicate NeverMakesUp(t: string, p: nat, e: nat)
    requires p <= e <= |t|
  {
    forall k | p < k < e :: QuotedDepth(t, p, k) + DepthAt(t, k) != 0
  }

  /**
   With any strings in it: the cutter cuts at the end of an object from the first `{` iff the braces inside its
   strings cancel out, and on the way never make up for the depth.
   */
  lemma {:induction false} QuotedBracesIff(t: string, p: nat, e: nat)
    requires OpensAt(t, p) && IsObjectSpan(t, p, e)
    ensures CutsAt(t, e) <==> QuotedDepth(t, p, e) == 0 && NeverMakesUp(t, p, e)
  {
    ObjectEnds(t, p, e);
    RawDepthSplits(t, p, e);
    if CutsAt(t, e) {
      var p': nat :| OpensAt(t, p') && ReturnsAt(t, p', e);
      OpenUnique(t, p, p');
      forall k | p < k < e
        ensures QuotedDepth(t, p, k) + DepthAt(t, k) != 0
      {
        RawDepthSplits(t, p, k);
      }
    }
    if QuotedDepth(t, p, e) == 0 && NeverMakesUp(t, p, e) {
      forall k | p < k < e
        ensures RawDepth(t, p, k) != 0
      {
        RawDepthSplits(t, p, k);
      }
      assert ReturnsAt(t, p, e);
      assert CutsAt(t, e);
    }
  }

  lemma {:induction false} ObjectEnds(t: string, p: nat, e: nat)
    requires IsObjectSpan(t, p, e)
    ensures t[e - 1] == '}'
  {
    assert DepthAt(t, p + 1) == 1;
    assert e > p + 1 ==> DepthAt(t, e - 1) >= 1;
  }

  /** A brace inside a string misleads the cutter: it cuts inside the object that the scanner finds. */
  lemma {:induction false} QuotedBraceDisagrees()
    ensures CutsAt("{'}'}", 3) && Spans("{'}'}") == [(0, 5)]
  {
    var t := "{'}'}";
    assert RawDepth(t, 0, 1) == 1 && RawDepth(t, 0, 2) == 1 && RawDepth(t, 0, 3) == 0;
    assert OpensAt(t, 0) && ReturnsAt(t, 0, 3);
    assert ModeAt(t, 1) == Code && ModeAt(t, 2) == Quoted('\'') && ModeAt(t, 3) == Quoted('\'') && ModeAt(t, 4) == Code;
    assert DepthAt(t, 1) == 1 && DepthAt(t, 2) == 1 && DepthAt(t, 3) == 1 && DepthAt(t, 4) == 1 && DepthAt(t, 5) == 0;
    OneObjectOneSpan(t);
  }
}
