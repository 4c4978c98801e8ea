/**
 Printing nested objects and scanning the printed text gives back the printed boundaries.

 A document is a list of nodes: plain characters, string literals in either quote style (holding any
 characters, braces and quotes included), and objects with nodes inside.
 */
module SpanRoundTrip {
  import opened Text
  import opened BraceScanner

  datatype Part = Raw(c: char) | Esc(c: char)
  datatype Node = Plain(c: char) | Literal(quote: char, parts: seq<Part>) | Object(children: seq<Node>)

  predicate LegalPart(quote: char, p: Part) {
    p.Raw? ==> p.c != quote && p.c != '\\'
  }

  predicate Legal(n: Node)
    decreases n, 0
  {
    match n
    case Plain(c) => !IsBrace(c) && !IsQuote(c)
    case Literal(q, parts) => IsQuote(q) && forall p | p in parts :: LegalPart(q, p)
    case Object(children) => AllLegal(children)
  }

  predicate AllLegal(nodes: seq<Node>)
    decreases nodes, 1
  {
    nodes == [] || (Legal(nodes[0]) && AllLegal(nodes[1..]))
  }

  function PrintPart(p: Part): string {
    match p case Raw(c) => [c] case Esc(c) => ['\\', c]
  }

  function PrintParts(parts: seq<Part>): string {
    if parts == [] then "" else PrintPart(parts[0]) + PrintParts(parts[1..])
  }

  function Print(n: Node): string
    decreases n, 0
  {
    match n
    case Plain(c) => [c]
    case Literal(q, parts) => [q] + PrintParts(parts) + [q]
    case Object(children) => "{" + PrintAll(children) + "}"
  }

  function PrintAll(nodes: seq<Node>): string
    decreases nodes, 1
  {
    if nodes == [] then "" else Print(nodes[0]) + PrintAll(nodes[1..])
  }

  /** Where the top-level objects of a document are printed, when printing starts at offset `off`. */
  function Boundaries(nodes: seq<Node>, off: nat): seq<Span> {
    if nodes == [] then []
    else
      var end := off + |Print(nodes[0])|;
      (if nodes[0].Object? then [(off, end)] else []) + Boundaries(nodes[1..], end)
  }

  // ---- Texts whose braces match ----

  /** Ends outside strings with all braces matched, and no closing brace comes too early. */
  ghost predicate Balanced(t: string) {
    Closed(t) && forall k | 0 <= k <= |t| :: DepthAt(t, k) >= 0
  }

  predicate Neutral(t: string) {
    forall i | 0 <= i < |t| :: !IsBrace(t[i]) && !IsQuote(t[i])
  }

  lemma {:induction false} BalancedConcat(p: string, q: string)
    requires Balanced(p) && Balanced(q)
    ensures Balanced(p + q)
  {
    SuffixRun(p, q, |q|);
    forall k | 0 <= k <= |p + q|
      ensures DepthAt(p + q, k) >= 0
    {
      if k <= |p| {
        PrefixRun(p, q, k);
      } else {
        SuffixRun(p, q, k - |p|);
      }
    }
  }

  lemma {:induction false} OpenOne()
    ensures ModeAt("{", 1) == Code && DepthAt("{", 1) == 1
  {
  }

  /** Between the braces the depth is one more than without them. */
  lemma {:induction false} WrapDepth(b: string, k: nat)
    requires Balanced(b) && k <= |b|
    ensures ModeAt("{" + b + "}", 1 + k) == ModeAt(b, k)
    ensures DepthAt("{" + b + "}", 1 + k) == 1 + DepthAt(b, k) >= 1
  {
    hide ModeAt, DepthAt;
    OpenOne();
    MiddleAt("{", b, "}", k);
  }

  lemma {:induction false} BalancedWrap(b: string)
    requires Balanced(b)
    ensures IsObjectSpan("{" + b + "}", 0, |b| + 2) && Balanced("{" + b + "}")
    ensures Spans("{" + b + "}") == [(0, |b| + 2)]
  {
    var t := "{" + b + "}";
    forall k | 0 < k < |t|
      ensures DepthAt(t, k) >= 1
    {
      WrapDepth(b, k - 1);
    }
    WrapDepth(b, |b|);
    WrapDepth(b, 0);
    assert t[|b| + 1] == '}';
    OneObjectOneSpan(t);
  }

  lemma {:induction false} NeutralRun(t: string, k: nat)
    requires Neutral(t) && k <= |t|
    ensures ModeAt(t, k) == Code && DepthAt(t, k) == 0 && SpansUpTo(t, k) == []
  {
    if k > 0 {
      NeutralRun(t, k - 1);
    }
  }

  lemma {:induction false} NeutralBalanced(t: string)
    requires Neutral(t)
    ensures Balanced(t) && Spans(t) == []
  {
    forall k | 0 <= k <= |t|
      ensures DepthAt(t, k) == 0
    {
      NeutralRun(t, k);
    }
    NeutralRun(t, |t|);
  }

  /** No brace of `t` has counted, and `t` ends in mode `m`. */
  ghost predicate QuietUntil(t: string, m: Mode) {
    ModeAt(t, |t|) == m && Spans(t) == [] && forall j | 0 <= j <= |t| :: DepthAt(t, j) == 0
  }

  lemma {:induction false} QuietStep(t: string, m: Mode, c: char)
    requires QuietUntil(t, m) && (m != Code || !IsBrace(c))
    ensures QuietUntil(t + [c], NextMode(m, c))
  {
    forall j | 0 <= j <= |t|
      ensures DepthAt(t + [c], j) == 0
    {
      PrefixRun(t, [c], j);
    }
    PrefixRun(t, [c], |t|);
  }

  lemma {:induction false} PartRun(t: string, q: char, p: Part)
    requires LegalPart(q, p) && QuietUntil(t, Quoted(q))
    ensures QuietUntil(t + PrintPart(p), Quoted(q))
  {
    if p.Raw? {
      QuietStep(t, Quoted(q), p.c);
    } else {
      QuietStep(t, Quoted(q), '\\');
      QuietStep(t + ['\\'], Escaped(q), p.c);
      assert t + ['\\'] + [p.c] == t + PrintPart(p);
    }
  }

  lemma {:induction false} PartsRun(t: string, q: char, parts: seq<Part>)
    requires forall p | p in parts :: LegalPart(q, p)
    requires QuietUntil(t, Quoted(q))
    ensures QuietUntil(t + PrintParts(parts), Quoted(q))
    decreases |parts|
  {
    hide PrintPart, QuietUntil, LegalPart;
    if parts == [] {
      assert t + PrintParts(parts) == t;
    } else {
      PartRun(t, q, parts[0]);
      PartsRun(t + PrintPart(parts[0]), q, parts[1..]);
      assert t + PrintParts(parts) == t + PrintPart(parts[0]) + PrintParts(parts[1..]);
    }
  }

  lemma {:induction false} LiteralBalanced(q: char, parts: seq<Part>)
    requires IsQuote(q) && forall p | p in parts :: LegalPart(q, p)
    ensures Balanced([q] + PrintParts(parts) + [q]) && Spans([q] + PrintParts(parts) + [q]) == []
  {
    QuietStep("", Code, q);
    assert "" + [q] == [q];
    PartsRun([q], q, parts);
    QuietStep([q] + PrintParts(parts), Quoted(q), q);
  }

  // ---- The round trip ----

  lemma {:induction false} PrintBalanced(n: Node)
    requires Legal(n)
    ensures Balanced(Print(n))
    ensures Spans(Print(n)) == if n.Object? then [(0, |Print(n)|)] else []
    decreases n, 0
  {
    match n
    case Plain(c) => NeutralBalanced([c]);
    case Literal(q, parts) => LiteralBalanced(q, parts);
    case Object(children) =>
      PrintAllBalanced(children);
      BalancedWrap(PrintAll(children));
  }

  lemma {:induction false} PrintAllBalanced(nodes: seq<Node>)
    requires AllLegal(nodes)
    ensures Balanced(PrintAll(nodes))
    decreases nodes, 1
  {
    if nodes == [] {
    } else {
      PrintBalanced(nodes[0]);
      PrintAllBalanced(nodes[1..]);
      BalancedConcat(Print(nodes[0]), PrintAll(nodes[1..]));
    }
  }

  lemma {:induction false} BoundariesShift(nodes: seq<Node>, off: nat, more: nat)
    ensures Boundaries(nodes, off + more) == Shift(Boundaries(nodes, off), more)
  {
    if nodes != [] {
      BoundariesShift(nodes[1..], off + |Print(nodes[0])|, more);
      assert off + more + |Print(nodes[0])| == off + |Print(nodes[0])| + more;
    }
  }

  /** Scanning a printed document reports exactly its top-level objects, in order. */
  lemma {:induction false} ScanOfPrint(nodes: seq<Node>)
    requires AllLegal(nodes)
    ensures Spans(PrintAll(nodes)) == Boundaries(nodes, 0)
  {
    if nodes == [] {
    } else {
      var head := Print(nodes[0]);
      PrintBalanced(nodes[0]);
      ScanOfPrint(nodes[1..]);
      SpansOfConcat(head, PrintAll(nodes[1..]));
      BoundariesShift(nodes[1..], 0, |head|);
    }
  }
}
