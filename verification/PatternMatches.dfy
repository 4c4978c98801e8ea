/**
 What the three regular expressions match, said without the functions that compute a match: where there is a match,
 which one comes first, and what its group is.
 */
module PatternMatches {
  import opened Text
  import opened ToolCallExtractor

  /** The group is as short as possible behind white space that is taken as far as possible. */
  lemma {:induction false} LazyGroupExact(t: string, close: string, lo: nat, hi: nat)
    requires lo <= hi <= |t|
    ensures LazyGroup(t, close, lo, hi).Some? <==> exists c: nat :: lo < c && StartsAt(t, c, close)
    ensures LazyGroup(t, close, lo, hi).Some? ==>
              var (g, c) := LazyGroup(t, close, lo, hi).value;
              && (forall k | g < k < c :: !StartsAt(t, k, close))
              && (g < hi ==> forall k: nat | g + 1 < k :: !StartsAt(t, k, close))
    decreases hi
  {
    hide StartsAt;
    FindFirst(t, close, hi + 1);
    if Find(t, close, hi + 1).None? && lo < hi {
      LazyGroupExact(t, close, lo, hi - 1);
    }
  }

  lemma {:induction false} GroupEndExact(t: string, g: nat, c: nat)
    requires g < c <= |t|
    ensures forall i | GroupEnd(t, g, c) <= i < c :: IsSpace(t[i])
    ensures GroupEnd(t, g, c) == g + 1 || !IsSpace(t[GroupEnd(t, g, c) - 1])
    decreases c
  {
    hide IsSpace;
    if g + 1 < c && IsSpace(t[c - 1]) {
      GroupEndExact(t, g, c - 1);
    }
  }

  /** The end of the white space at `lo`. */
  predicate InkAt(t: string, lo: nat, g: nat) {
    lo <= g <= |t| && (forall i | lo <= i < g :: IsSpace(t[i])) && (g < |t| ==> !IsSpace(t[g]))
  }

  lemma {:induction false} InkFound(t: string, lo: nat)
    requires lo <= |t|
    ensures InkAt(t, lo, SkipSpace(t, lo))
  {
    hide IsSpace;
  }

  /**
   A tag matches where it opens, iff it is closed behind at least one more character. The group starts behind the white
   space unless the tag is closed there at the latest, ends at the first closing tag behind its start, and has no white
   space at its end.
   */
  lemma {:induction false} TagMatchExact(open: string, close: string, t: string, p: nat)
    requires p <= |t|
    ensures TagMatchAt(open, close, t, p).Some? <==>
              StartsAt(t, p, open) && exists c: nat :: p + |open| < c && StartsAt(t, c, close)
    ensures TagMatchAt(open, close, t, p).Some? ==>
              var m, lo := TagMatchAt(open, close, t, p).value, p + |open|;
              var g, e, c := m.groupStart, m.groupEnd, m.end - |close|;
              && m.start == p && lo <= g < e <= c && StartsAt(t, c, close)
              && (forall k | g < k < c :: !StartsAt(t, k, close))
              && (forall i | lo <= i < g :: IsSpace(t[i]))
              && (InkAt(t, lo, g) || forall k: nat | g + 1 < k :: !StartsAt(t, k, close))
              && (forall i | e <= i < c :: IsSpace(t[i])) && (e == g + 1 || !IsSpace(t[e - 1]))
  {
    hide IsSpace, LazyGroup, SkipSpace, GroupEnd;
    assert StartsAt(t, p, open) ==> p + |open| <= |t|;
    hide StartsAt;
    if StartsAt(t, p, open) {
      var lo := p + |open|;
      var hi := SkipSpace(t, lo);
      InkFound(t, lo);
      LazyGroupExact(t, close, lo, hi);
      match LazyGroup(t, close, lo, hi)
      case Some((g, c)) =>
        GroupEndExact(t, g, c);
      case None =>
    }
  }

  /** The group of a fence whose text starts at `lo` and is closed at `c`. */
  predicate FenceGroup(t: string, lo: nat, g: nat, c: nat) {
    && lo <= g < c <= |t| && StartsAt(t, c, "```")
    && (forall k | g < k < c :: !StartsAt(t, k, "```"))
    && (forall i | lo <= i < g :: IsSpace(t[i]))
    && (InkAt(t, lo, g) || forall k: nat | g + 1 < k <= |t| :: !StartsAt(t, k, "```"))
  }

  lemma {:induction false} FenceMatchFrom(t: string, p: nat, lo: nat)
    requires p < lo <= |t|
    ensures FenceMatch(t, p, lo).Some? <==> exists c: nat :: lo < c && StartsAt(t, c, "```")
    ensures FenceMatch(t, p, lo).Some? ==>
              var m := FenceMatch(t, p, lo).value;
              m.start == p && m.end == m.groupEnd + 3 && FenceGroup(t, lo, m.groupStart, m.groupEnd)
  {
    hide IsSpace, LazyGroup, SkipSpace, StartsAt;
    InkFound(t, lo);
    LazyGroupExact(t, TICKS, lo, SkipSpace(t, lo));
  }

  /** A fence matches iff it is closed: with its group behind the language word if possible, else with the word in it. */
  lemma {:induction false} FenceMatchExact(t: string, p: nat)
    requires p <= |t|
    ensures FenceMatchAt(t, p).Some? <==> StartsAt(t, p, "```") && exists c: nat :: p + 3 < c && StartsAt(t, c, "```")
    ensures FenceMatchAt(t, p).Some? ==>
              var m, lo := FenceMatchAt(t, p).value, p + 3 + |Language(t, p + 3)|;
              && m.start == p && m.end == m.groupEnd + 3
              && if exists c: nat :: lo < c && StartsAt(t, c, "```") then FenceGroup(t, lo, m.groupStart, m.groupEnd)
                 else FenceGroup(t, p + 3, m.groupStart, m.groupEnd)
  {
    hide FenceMatch, FenceGroup;
    assert StartsAt(t, p, "```") ==> p + 3 + |Language(t, p + 3)| <= |t|;
    hide StartsAt, Language;
    if StartsAt(t, p, "```") {
      FenceMatchFrom(t, p, p + 3 + |Language(t, p + 3)|);
      FenceMatchFrom(t, p, p + 3);
    }
  }

  /** The first match is the one that starts first. */
  lemma {:induction false} FirstMatchExact(pat: Pattern, t: string, from: nat)
    requires from <= |t|
    ensures FirstMatch(pat, t, from).None? <==> forall p | from <= p <= |t| :: MatchAt(pat, t, p).None?
    ensures FirstMatch(pat, t, from).Some? ==>
              var p := FirstMatch(pat, t, from).value.start;
              && from <= p <= |t| && MatchAt(pat, t, p) == FirstMatch(pat, t, from)
              && forall q | from <= q < p :: MatchAt(pat, t, q).None?
    decreases |t| - from
  {
    hide MatchAt;
    if MatchAt(pat, t, from).None? && from < |t| {
      FirstMatchExact(pat, t, from + 1);
    }
  }
}
