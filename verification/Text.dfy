/** Character and string helpers: what Python's `str.strip`, `\s` and `str.find` do. */
module Text {

  datatype Option<+T> = None | Some(value: T)

  /** The characters for which Python's `str.isspace` holds; the regular expression `\s` uses the same set. */
  predicate IsSpace(c: char) {
    || '\t' <= c <= '\r'
    || '\U{1C}' <= c <= ' '
    || c == '\U{85}' || c == '\U{A0}' || c == '\U{1680}'
    || '\U{2000}' <= c <= '\U{200A}'
    || c == '\U{2028}' || c == '\U{2029}' || c == '\U{202F}' || c == '\U{205F}' || c == '\U{3000}'
  }

  predicate AllSpace(s: string) {
    forall i | 0 <= i < |s| :: IsSpace(s[i])
  }

  predicate Without(s: string, c: char) {
    forall i | 0 <= i < |s| :: s[i] != c
  }

  function TrimLeft(s: string): string {
    if s != "" && IsSpace(s[0]) then TrimLeft(s[1..]) else s
  }

  function TrimRight(s: string): string {
    if s != "" && IsSpace(s[|s| - 1]) then TrimRight(s[..|s| - 1]) else s
  }

  /** `s.strip()` */
  function Strip(s: string): string {
    TrimRight(TrimLeft(s))
  }

  lemma {:induction false} TrimLeftOf(lead: string, s: string)
    requires AllSpace(lead) && (s == "" || !IsSpace(s[0]))
    ensures TrimLeft(lead + s) == s
  {
    hide IsSpace;
    if lead == "" {
      assert lead + s == s;
    } else {
      TrimLeftOf(lead[1..], s);
      assert (lead + s)[1..] == lead[1..] + s;
    }
  }

  lemma {:induction false} TrimRightOf(s: string, tail: string)
    requires AllSpace(tail) && (s == "" || !IsSpace(s[|s| - 1]))
    ensures TrimRight(s + tail) == s
  {
    hide IsSpace;
    if tail == "" {
      assert s + tail == s;
    } else {
      var t := tail[..|tail| - 1];
      TrimRightOf(s, t);
      assert (s + tail)[..|s + tail| - 1] == s + t;
    }
  }

  lemma {:induction false} StripCore(lead: string, core: string, tail: string)
    requires AllSpace(lead) && AllSpace(tail)
    requires core != "" && !IsSpace(core[0]) && !IsSpace(core[|core| - 1])
    ensures Strip(lead + core + tail) == core
  {
    hide IsSpace;
    assert lead + core + tail == lead + (core + tail);
    TrimLeftOf(lead, core + tail);
    TrimRightOf(core, tail);
  }

  lemma {:induction false} TrimLeftShape(s: string) returns (lead: string)
    ensures s == lead + TrimLeft(s) && AllSpace(lead)
    ensures TrimLeft(s) != "" ==> !IsSpace(TrimLeft(s)[0])
  {
    hide IsSpace;
    if s != "" && IsSpace(s[0]) {
      var more := TrimLeftShape(s[1..]);
      lead := [s[0]] + more;
      Assoc([s[0]], more, TrimLeft(s[1..]));
    } else {
      lead := "";
    }
  }

  lemma {:induction false} TrimRightShape(s: string) returns (tail: string)
    ensures s == TrimRight(s) + tail && AllSpace(tail)
    ensures TrimRight(s) != "" ==> !IsSpace(TrimRight(s)[|TrimRight(s)| - 1])
  {
    hide IsSpace;
    if s != "" && IsSpace(s[|s| - 1]) {
      var init := s[..|s| - 1];
      var more := TrimRightShape(init);
      tail := more + [s[|s| - 1]];
      assert s == (TrimRight(init) + more) + [s[|s| - 1]];
    } else {
      tail := "";
    }
  }

  lemma {:induction false} StripShape(s: string) returns (lead: string, tail: string)
    ensures s == lead + Strip(s) + tail && AllSpace(lead) && AllSpace(tail)
    ensures Strip(s) != "" ==> !IsSpace(Strip(s)[0]) && !IsSpace(Strip(s)[|Strip(s)| - 1])
  {
    hide IsSpace;
    lead := TrimLeftShape(s);
    tail := TrimRightShape(TrimLeft(s));
    Assoc(lead, Strip(s), tail);
  }

  lemma {:induction false} StripEmpty(s: string)
    requires Strip(s) == ""
    ensures AllSpace(s)
  {
    hide IsSpace;
    var lead, tail := StripShape(s);
    assert s == lead + tail;
  }

  lemma {:induction false} StripBlank(s: string)
    requires AllSpace(s)
    ensures Strip(s) == ""
  {
    hide IsSpace;
    assert s + "" == s;
    TrimLeftOf(s, "");
  }

  /** White space around a text is stripped with its own. */
  lemma {:induction false} StripPadding(lead: string, s: string, tail: string)
    requires AllSpace(lead) && AllSpace(tail)
    ensures Strip(lead + s + tail) == Strip(s)
  {
    hide IsSpace, Strip;
    var core := Strip(s);
    if core == "" {
      StripEmpty(s);
      StripBlank(lead + s + tail);
    } else {
      var l, t := StripShape(s);
      assert lead + s + tail == (lead + l) + core + (t + tail);
      StripCore(lead + l, core, t + tail);
    }
  }

  /** The end of the white space that starts at `p`. */
  function SkipSpace(t: string, p: nat): (q: nat)
    requires p <= |t|
    ensures p <= q <= |t| && forall i | p <= i < q :: IsSpace(t[i])
    ensures q < |t| ==> !IsSpace(t[q])
    decreases |t| - p
  {
    if p < |t| && IsSpace(t[p]) then SkipSpace(t, p + 1) else p
  }

  lemma {:induction false} SkipSpaceTo(t: string, p: nat, g: nat)
    requires p <= g < |t| && !IsSpace(t[g]) && forall i | p <= i < g :: IsSpace(t[i])
    ensures SkipSpace(t, p) == g
    decreases g - p
  {
    if p < g {
      SkipSpaceTo(t, p + 1, g);
    }
  }

  predicate StartsAt(t: string, p: nat, word: string) {
    p + |word| <= |t| && t[p..p + |word|] == word
  }

  lemma {:induction false} StartsAtChar(t: string, p: nat, word: string, i: nat)
    requires i < |word|
    ensures StartsAt(t, p, word) ==> t[p + i] == word[i]
  {
    if StartsAt(t, p, word) {
      assert t[p..p + |word|][i] == t[p + i];
    }
  }

  lemma {:induction false} StartsAtSlice(a: string, word: string, b: string)
    ensures StartsAt(a + word + b, |a|, word)
  {
  }

  /** The first occurrence of `word` in `t` at or after `from`. */
  function Find(t: string, word: string, from: nat): (r: Option<nat>)
    ensures r.Some? ==> from <= r.value && StartsAt(t, r.value, word)
    decreases |t| - from
  {
    if from > |t| then None
    else if StartsAt(t, from, word) then Some(from)
    else Find(t, word, from + 1)
  }

  lemma {:induction false} FindFirst(t: string, word: string, from: nat)
    ensures Find(t, word, from).Some? ==> forall k | from <= k < Find(t, word, from).value :: !StartsAt(t, k, word)
    ensures Find(t, word, from).None? ==> forall k: nat | from <= k :: !StartsAt(t, k, word)
    decreases |t| - from
  {
    if from <= |t| && !StartsAt(t, from, word) {
      FindFirst(t, word, from + 1);
    }
  }

  lemma {:induction false} Assoc<T>(a: seq<T>, b: seq<T>, c: seq<T>)
    ensures (a + b) + c == a + (b + c)
  {
  }

  lemma {:induction false} TailOfConcat<T>(a: seq<T>, b: seq<T>)
    requires a != []
    ensures (a + b)[0] == a[0] && (a + b)[1..] == a[1..] + b
  {
  }
}
