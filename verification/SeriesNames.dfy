/** Series titles and the tags that stand for them. */
module SeriesNames {
  import opened Text

  predicate IsSlugChar(c: char) {
    'a' <= c <= 'z' || '0' <= c <= '9'
  }

  /**
   `lower()` as far as a slug can tell: the Kelvin sign and the dotted capital I are the only characters outside
   ASCII whose lower-case form has an ASCII letter in it. Any other is left as it is.
   */
  function LowerChar(c: char): string {
    if 'A' <= c <= 'Z' then [(c as int + 32) as char]
    else if c == '\U{212A}' then "k"
    else if c == '\U{130}' then "i\U{307}"
    else [c]
  }

  function Lower(s: string): string {
    if s == "" then "" else LowerChar(s[0]) + Lower(s[1..])
  }

  function SkipOther(s: string): (r: string)
    ensures |r| <= |s| && (r != "" ==> IsSlugChar(r[0]))
  {
    if s != "" && !IsSlugChar(s[0]) then SkipOther(s[1..]) else s
  }

  /** `re.sub(r"[^a-z0-9]+", "-", s)`: every run of other characters becomes one dash. */
  function Dashed(s: string): string
    decreases |s|
  {
    if s == "" then ""
    else if IsSlugChar(s[0]) then [s[0]] + Dashed(s[1..])
    else "-" + Dashed(SkipOther(s[1..]))
  }

  function SkipDashes(s: string): (r: string)
    ensures |r| <= |s|
  {
    if s != "" && s[0] == '-' then SkipDashes(s[1..]) else s
  }

  /** `re.sub(r"-+", "-", s)` */
  function Collapsed(s: string): string
    decreases |s|
  {
    if s == "" then ""
    else if s[0] != '-' then [s[0]] + Collapsed(s[1..])
    else "-" + Collapsed(SkipDashes(s[1..]))
  }

  function DropLastDashes(s: string): string {
    if s != "" && s[|s| - 1] == '-' then DropLastDashes(s[..|s| - 1]) else s
  }

  /** `slug` */
  function Slug(text: string): string {
    DropLastDashes(SkipDashes(Collapsed(Dashed(Lower(text)))))
  }

  /** Lower-case letters and digits, with single dashes between them. */
  predicate SingleDashes(s: string) {
    && (forall i | 0 <= i < |s| :: IsSlugChar(s[i]) || s[i] == '-')
    && forall i | 0 < i < |s| :: s[i - 1] == '-' ==> s[i] != '-'
  }

  predicate IsSlug(s: string) {
    SingleDashes(s) && (s != "" ==> s[0] != '-' && s[|s| - 1] != '-')
  }

  lemma {:induction false} DashedShape(s: string)
    ensures SingleDashes(Dashed(s))
    ensures s != "" && IsSlugChar(s[0]) ==> Dashed(s) != "" && Dashed(s)[0] == s[0]
    decreases |s|
  {
    if s != "" {
      DashedShape(if IsSlugChar(s[0]) then s[1..] else SkipOther(s[1..]));
    }
  }

  lemma {:induction false} CollapsedFixed(s: string)
    requires SingleDashes(s)
    ensures Collapsed(s) == s
    decreases |s|
  {
    if s != "" {
      CollapsedFixed(s[1..]);
      assert s == [s[0]] + s[1..];
      assert s[0] == '-' && |s| > 1 ==> s[1] != '-';
    }
  }

  /** The second substitution never finds anything to do. */
  lemma {:induction false} CollapseRedundant(s: string)
    ensures Collapsed(Dashed(s)) == Dashed(s)
  {
    DashedShape(s);
    CollapsedFixed(Dashed(s));
  }

  lemma {:induction false} DropLastShape(s: string)
    requires SingleDashes(s) && (s != "" ==> s[0] != '-')
    ensures IsSlug(DropLastDashes(s))
  {
    if s != "" && s[|s| - 1] == '-' {
      DropLastShape(s[..|s| - 1]);
    }
  }

  lemma {:induction false} SkipDashesShape(s: string)
    requires SingleDashes(s)
    ensures SingleDashes(SkipDashes(s)) && (SkipDashes(s) != "" ==> SkipDashes(s)[0] != '-')
  {
    if s != "" && s[0] == '-' {
      SkipDashesShape(s[1..]);
    }
  }

  lemma {:induction false} DashedFixed(s: string)
    requires SingleDashes(s)
    ensures Dashed(s) == s
    decreases |s|
  {
    if s != "" {
      DashedFixed(s[1..]);
      assert s == [s[0]] + s[1..];
      if !IsSlugChar(s[0]) && |s| > 1 {
        assert s[1] != '-';
      }
    }
  }

  lemma {:induction false} LowerFixed(s: string)
    requires SingleDashes(s)
    ensures Lower(s) == s
  {
    if s != "" {
      LowerFixed(s[1..]);
      assert s == [s[0]] + s[1..];
    }
  }

  lemma {:induction false} DropNothing(s: string)
    requires IsSlug(s)
    ensures SkipDashes(s) == s && DropLastDashes(s) == s
  {
  }

  /** A slug has the form of a tag, and tags of that form are their own slugs. */
  lemma {:induction false} SlugExact(text: string)
    ensures IsSlug(Slug(text))
    ensures IsSlug(text) ==> Slug(text) == text
  {
    hide Lower, Dashed, Collapsed, SkipDashes, DropLastDashes, SingleDashes;
    var dashed := Dashed(Lower(text));
    DashedShape(Lower(text));
    CollapseRedundant(Lower(text));
    SkipDashesShape(dashed);
    DropLastShape(SkipDashes(dashed));
    if IsSlug(text) {
      LowerFixed(text);
      DashedFixed(text);
      DropNothing(text);
    }
  }

  // ---- The slug of a title, word by word ----

  predicate IsWordChar(c: char) {
    'a' <= c <= 'z' || 'A' <= c <= 'Z' || '0' <= c <= '9'
  }

  predicate IsWord(w: string) {
    w != "" && forall i | 0 <= i < |w| :: IsWordChar(w[i])
  }

  /** Nothing but characters that belong in no slug, in upper or lower case. */
  predicate IsSeparator(g: string) {
    forall i | 0 <= i < |g| :: !IsWordChar(g[i]) && g[i] != '\U{212A}' && g[i] != '\U{130}'
  }

  /** `low` is `w` with every capital letter replaced by the small letter at the same place of the alphabet. */
  predicate Lowers(low: string, w: string) {
    && |low| == |w|
    && forall i | 0 <= i < |w| ::
         if 'A' <= w[i] <= 'Z' then 'a' <= low[i] <= 'z' && low[i] as int - 'a' as int == w[i] as int - 'A' as int
         else low[i] == w[i]
  }

  /** A title: words with separators around and between them. */
  function Title(words: seq<string>, gaps: seq<string>): string
    requires |gaps| == |words| + 1
  {
    if words == [] then gaps[0] else gaps[0] + (words[0] + Title(words[1..], gaps[1..]))
  }

  function Hyphenated(words: seq<string>): string {
    if words == [] then "" else if |words| == 1 then words[0] else words[0] + ("-" + Hyphenated(words[1..]))
  }

  predicate LegalTitle(words: seq<string>, gaps: seq<string>) {
    && |gaps| == |words| + 1
    && (forall i | 0 <= i < |words| :: IsWord(words[i]))
    && (forall i | 0 <= i < |gaps| :: IsSeparator(gaps[i]))
    && forall i | 0 < i < |words| :: gaps[i] != ""
  }

  lemma {:induction false} LowerConcat(a: string, b: string)
    ensures Lower(a + b) == Lower(a) + Lower(b)
  {
    hide LowerChar;
    if a == "" {
      assert a + b == b;
    } else {
      TailOfConcat(a, b);
      LowerConcat(a[1..], b);
      Assoc(LowerChar(a[0]), Lower(a[1..]), Lower(b));
    }
  }

  lemma {:induction false} LowerSeparator(g: string)
    requires IsSeparator(g)
    ensures Lower(g) == g
  {
    if g != "" {
      LowerSeparator(g[1..]);
      assert g == [g[0]] + g[1..];
    }
  }

  lemma {:induction false} LowerOne(c: char, low: char)
    requires IsWordChar(c) && Lowers([low], [c])
    ensures LowerChar(c) == [low] && IsSlugChar(low)
  {
    assert [c][0] == c && [low][0] == low;
  }

  lemma {:induction false} LowersTail(low: string, w: string)
    requires IsWord(w) && Lowers(low, w)
    ensures |low| == |w| > 0 && IsWordChar(w[0]) && Lowers([low[0]], [w[0]]) && Lowers(low[1..], w[1..])
    ensures |w| > 1 ==> IsWord(w[1..])
  {
    hide IsWordChar;
  }

  lemma {:induction false} LowerWord(w: string, low: string)
    requires IsWord(w) && Lowers(low, w)
    ensures Lower(w) == low && forall i | 0 <= i < |low| :: IsSlugChar(low[i])
  {
    hide IsWordChar, IsSlugChar, Lowers, LowerChar;
    assert w != "";
    hide IsWord;
    LowersTail(low, w);
    LowerOne(w[0], low[0]);
    assert low == [low[0]] + low[1..];
    if |w| > 1 {
      LowerWord(w[1..], low[1..]);
      assert forall i | 1 <= i < |low| :: low[i] == low[1..][i - 1];
    } else {
      assert low[1..] == "" && w[1..] == "";
    }
  }

  lemma {:induction false} DashedWord(low: string, rest: string)
    requires forall i | 0 <= i < |low| :: IsSlugChar(low[i])
    ensures Dashed(low + rest) == low + Dashed(rest)
  {
    if low == "" {
      assert low + rest == rest && low + Dashed(rest) == Dashed(rest);
    } else {
      TailOfConcat(low, rest);
      DashedWord(low[1..], rest);
      assert low == [low[0]] + low[1..];
    }
  }

  lemma {:induction false} SkipOtherPast(g: string, rest: string)
    requires (forall i | 0 <= i < |g| :: !IsSlugChar(g[i])) && (rest == "" || IsSlugChar(rest[0]))
    ensures SkipOther(g + rest) == rest
  {
    if g == "" {
      assert g + rest == rest;
    } else {
      TailOfConcat(g, rest);
      SkipOtherPast(g[1..], rest);
    }
  }

  /** One dash for a separator, nothing for none. */
  function DashFor(g: string): string {
    if g == "" then "" else "-"
  }

  lemma {:induction false} DashedGap(g: string, rest: string)
    requires IsSeparator(g) && (rest == "" || IsSlugChar(rest[0]))
    ensures Dashed(g + rest) == DashFor(g) + Dashed(rest)
  {
    if g == "" {
      assert g + rest == rest && "" + Dashed(rest) == Dashed(rest);
    } else {
      TailOfConcat(g, rest);
      assert !IsWordChar(g[0]);
      SkipOtherPast(g[1..], rest);
    }
  }

  predicate AllLower(lows: seq<string>, words: seq<string>) {
    |lows| == |words| && forall i | 0 <= i < |words| :: Lowers(lows[i], words[i])
  }

  lemma {:induction false} LegalRest(words: seq<string>, gaps: seq<string>, lows: seq<string>)
    requires LegalTitle(words, gaps) && AllLower(lows, words) && words != []
    ensures LegalTitle(words[1..], gaps[1..]) && AllLower(lows[1..], words[1..])
    ensures IsSeparator(gaps[0]) && IsWord(words[0]) && Lowers(lows[0], words[0])
    ensures gaps[1..][|words| - 1] == gaps[|words|] && (|words| > 1 ==> gaps[1] != "")
  {
    hide IsWord, IsSeparator, Lowers;
  }

  lemma {:induction false} OneGap(g: string)
    requires IsSeparator(g)
    ensures Lower(g) == g && Dashed(g) == DashFor(g)
  {
    LowerSeparator(g);
    DashedGap(g, "");
    assert g + "" == g && Dashed("") == "" && DashFor(g) + "" == DashFor(g);
  }

  /** A lower-cased title is its first separator, its first word, and the rest. */
  lemma {:induction false} TitleStep(gap: string, word: string, low: string, rest: string)
    requires IsSeparator(gap) && IsWord(word) && Lowers(low, word)
    ensures Lower(gap + (word + rest)) == gap + (low + Lower(rest))
    ensures Dashed(Lower(gap + (word + rest))) == DashFor(gap) + (low + Dashed(Lower(rest)))
  {
    hide Lower, Dashed, IsSeparator, Lowers;
    LowerConcat(gap, word + rest);
    LowerConcat(word, rest);
    LowerSeparator(gap);
    LowerWord(word, low);
    assert low != "" by {
      LowersLength(low, word);
    }
    DashedGap(gap, low + Lower(rest));
    DashedWord(low, Lower(rest));
  }

  lemma {:induction false} LowersLength(low: string, w: string)
    requires Lowers(low, w)
    ensures |low| == |w|
  {
  }

  lemma {:induction false} Hyphens(first: string, gap: string, low: string, more: string, last: string, one: bool)
    requires one ==> more == ""
    ensures first + (low + ((if one then "" else "-") + more + last)) == first + (if one then low else low + ("-" + more)) + last
  {
    if one {
      assert "" + more + last == last;
    }
  }

  /** Every separator becomes one dash, at the ends as well. */
  lemma {:induction false} DashedTitle(words: seq<string>, gaps: seq<string>, lows: seq<string>)
    requires LegalTitle(words, gaps) && AllLower(lows, words) && words != []
    ensures Dashed(Lower(Title(words, gaps))) == DashFor(gaps[0]) + Hyphenated(lows) + DashFor(gaps[|words|])
    decreases |words|
  {
    hide LegalTitle, AllLower, Lower, Dashed, DashFor, IsSeparator, IsWord, Lowers;
    LegalRest(words, gaps, lows);
    assert |gaps| == |words| + 1 && |lows| == |words| by {
      TitleLengths(words, gaps, lows);
    }
    var rest := Title(words[1..], gaps[1..]);
    TitleStep(gaps[0], words[0], lows[0], rest);
    if |words| == 1 {
      assert words[1..] == [] && rest == gaps[1];
      SeparatorAt(words, gaps, 1);
      OneGap(gaps[1]);
      Assoc(DashFor(gaps[0]), lows[0], DashFor(gaps[1]));
    } else {
      DashedTitle(words[1..], gaps[1..], lows[1..]);
      assert DashFor(gaps[1]) == "-" by {
        OneDash(gaps[1]);
      }
      var h, last := Hyphenated(lows[1..]), DashFor(gaps[|words|]);
      assert DashFor(gaps[0]) + (lows[0] + ("-" + h + last)) == DashFor(gaps[0]) + (lows[0] + ("-" + h)) + last;
    }
  }

  lemma {:induction false} OneDash(g: string)
    requires g != ""
    ensures DashFor(g) == "-"
  {
  }

  lemma {:induction false} SeparatorAt(words: seq<string>, gaps: seq<string>, k: nat)
    requires LegalTitle(words, gaps) && k < |gaps|
    ensures IsSeparator(gaps[k])
  {
    hide IsSeparator, IsWord;
  }

  lemma {:induction false} TitleLengths(words: seq<string>, gaps: seq<string>, lows: seq<string>)
    requires LegalTitle(words, gaps) && AllLower(lows, words)
    ensures |gaps| == |words| + 1 && |lows| == |words|
  {
    hide IsSeparator, IsWord, Lowers;
  }

  lemma {:induction false} HyphenatedEnds(words: seq<string>, lows: seq<string>)
    requires |lows| == |words| > 0 && forall i | 0 <= i < |words| :: IsWord(words[i]) && Lowers(lows[i], words[i])
    ensures var h := Hyphenated(lows); h != "" && h[0] != '-' && h[|h| - 1] != '-'
  {
    hide IsWord, Lowers;
    LowerWordEnds(words[0], lows[0]);
    if |lows| > 1 {
      HyphenatedEnds(words[1..], lows[1..]);
    }
  }

  lemma {:induction false} LowerWordEnds(w: string, low: string)
    requires IsWord(w) && Lowers(low, w)
    ensures low != "" && low[0] != '-' && low[|low| - 1] != '-'
  {
    assert IsWordChar(w[0]) && IsWordChar(w[|w| - 1]);
  }

  lemma {:induction false} TrimDashes(first: string, core: string, last: string)
    requires (first == "" || first == "-") && (last == "" || last == "-")
    requires core != "" && core[0] != '-' && core[|core| - 1] != '-'
    ensures DropLastDashes(SkipDashes(first + core + last)) == core
  {
    var t := core + last;
    assert SkipDashes(t) == t;
    assert first + core + last == first + t && (first == "-" ==> (first + t)[1..] == t) && (first == "" ==> first + t == t);
    assert DropLastDashes(core) == core;
    assert last == "-" ==> t[..|t| - 1] == core;
  }

  /**
   The slug of a title: its words in lower case with single dashes between them, whatever stands between the words
   and around them.
   */
  lemma {:induction false} SlugOfTitle(words: seq<string>, gaps: seq<string>, lows: seq<string>)
    requires |gaps| == |words| + 1
    requires forall i | 0 <= i < |words| :: IsWord(words[i])
    requires forall i | 0 <= i < |gaps| :: IsSeparator(gaps[i])
    requires forall i | 0 < i < |words| :: gaps[i] != ""
    requires |lows| == |words| && forall i | 0 <= i < |words| :: Lowers(lows[i], words[i])
    ensures Slug(Title(words, gaps)) == Hyphenated(lows)
  {
    hide Lower, Dashed, Collapsed, SkipDashes, DropLastDashes, IsWord, IsSeparator, Lowers;
    CollapseRedundant(Lower(Title(words, gaps)));
    if words == [] {
      OneGap(gaps[0]);
      NoDashes();
    } else {
      DashedTitle(words, gaps, lows);
      HyphenatedEnds(words, lows);
      TrimDashes(DashFor(gaps[0]), Hyphenated(lows), DashFor(gaps[|words|]));
    }
  }

  lemma {:induction false} NoDashes()
    ensures DropLastDashes(SkipDashes("")) == "" && DropLastDashes(SkipDashes("-")) == ""
  {
    assert SkipDashes("-") == SkipDashes("");
  }

  // ---- Series names ----

  predicate IsVolumeChar(c: char) {
    '0' <= c <= '9' || c == '.' || c == '-'
  }

  function SkipVolume(t: string, p: nat): (q: nat)
    requires p <= |t|
    ensures p <= q <= |t| && forall i | p <= i < q :: IsVolumeChar(t[i])
    ensures q < |t| ==> !IsVolumeChar(t[q])
    decreases |t| - p
  {
    if p < |t| && IsVolumeChar(t[p]) then SkipVolume(t, p + 1) else p
  }

  /** Where a match of `\s*#[\d.\-]+$` that starts at `p` ends; `$` also stands before a final line break. */
  function VolumeMatch(t: string, p: nat): (r: Option<nat>)
    requires p <= |t|
    ensures r.Some? ==> p < r.value <= |t|
  {
    var h := SkipSpace(t, p);
    if h == |t| || t[h] != '#' then None
    else
      var q := SkipVolume(t, h + 1);
      if q > h + 1 && (q == |t| || (q == |t| - 1 && t[q] == '\n')) then Some(q) else None
  }

  /** The title without its first match from `p` on. */
  function WithoutVolume(t: string, p: nat): string
    requires p <= |t|
    decreases |t| - p
  {
    match VolumeMatch(t, p)
    case Some(q) => t[..p] + t[q..]
    case None => if p < |t| then WithoutVolume(t, p + 1) else t
  }

  /** `series_name` */
  function SeriesName(seriesTitle: string): string {
    Strip(WithoutVolume(seriesTitle, 0))
  }

  /** A `#` at `h`, then digits, dots and dashes up to `q`, where the title ends or its final line break stands. */
  predicate IsVolume(t: string, h: nat, q: nat) {
    && h + 1 < q <= |t| && t[h] == '#'
    && (forall i | h < i < q :: '0' <= t[i] <= '9' || t[i] == '.' || t[i] == '-')
    && (q == |t| || (q == |t| - 1 && t[q] == '\n'))
  }

  lemma {:induction false} SkipVolumeTo(t: string, p: nat, q: nat)
    requires p <= q <= |t| && (forall i | p <= i < q :: IsVolumeChar(t[i])) && (q < |t| ==> !IsVolumeChar(t[q]))
    ensures SkipVolume(t, p) == q
    decreases q - p
  {
    if p < q {
      SkipVolumeTo(t, p + 1, q);
    }
  }

  /** A match that starts in front of the volume ends with it, and only white space lies between. */
  lemma {:induction false} MatchIsVolume(t: string, p: nat, h: nat, q: nat)
    requires IsVolume(t, h, q) && p <= h
    ensures VolumeMatch(t, p).Some? ==> VolumeMatch(t, p) == Some(q) && forall i | p <= i < h :: IsSpace(t[i])
    ensures p == h ==> VolumeMatch(t, p) == Some(q)
  {
    hide IsSpace;
    HashIsInk();
    SkipVolumeTo(t, h + 1, q);
    var h' := SkipSpace(t, p);
    assert h' <= h;
    if h' < h && t[h'] == '#' {
      assert SkipVolume(t, h' + 1) <= h;
    }
  }

  lemma {:induction false} HashIsInk()
    ensures !IsSpace('#')
  {
  }

  lemma {:induction false} VolumeRemoved(t: string, p: nat, h: nat, q: nat) returns (k: nat)
    requires IsVolume(t, h, q) && p <= h
    ensures k <= h && AllSpace(t[k..h]) && WithoutVolume(t, p) == t[..k] + t[q..]
    decreases h - p
  {
    hide IsSpace, VolumeMatch, IsVolume;
    MatchIsVolume(t, p, h, q);
    assert h < q <= |t| by {
      VolumeInside(t, h, q);
    }
    match VolumeMatch(t, p)
    case Some(_) => k := p;
    case None => k := VolumeRemoved(t, p + 1, h, q);
  }

  lemma {:induction false} VolumeInside(t: string, h: nat, q: nat)
    requires IsVolume(t, h, q)
    ensures h < q <= |t|
  {
  }

  lemma {:induction false} StripBehind(s: string, pad: string)
    requires AllSpace(pad)
    ensures Strip(s + pad) == Strip(s)
  {
    hide Strip, IsSpace;
    assert "" + s + pad == s + pad;
    StripPadding("", s, pad);
  }

  lemma {:induction false} NoVolume(t: string, p: nat)
    requires p <= |t| && forall h, q | 0 <= h < q :: !IsVolume(t, h, q)
    ensures WithoutVolume(t, p) == t
    decreases |t| - p
  {
    var h := SkipSpace(t, p);
    if h < |t| && t[h] == '#' {
      var q := SkipVolume(t, h + 1);
      assert !IsVolume(t, h, q);
    }
    if p < |t| {
      NoVolume(t, p + 1);
    }
  }

  /** A volume at the end of the title is cut off; any other title is only stripped. */
  lemma {:induction false} SeriesNameExact(t: string)
    ensures forall h, q | 0 <= h < q && IsVolume(t, h, q) :: h <= |t| && SeriesName(t) == Strip(t[..h])
    ensures (forall h, q | 0 <= h < q :: !IsVolume(t, h, q)) ==> SeriesName(t) == Strip(t)
  {
    hide Strip, IsVolume, WithoutVolume;
    forall h, q | 0 <= h < q && IsVolume(t, h, q)
      ensures h <= |t| && SeriesName(t) == Strip(t[..h])
    {
      VolumeInside(t, h, q);
      CutVolume(t, h, q);
    }
    if forall h, q | 0 <= h < q :: !IsVolume(t, h, q) {
      NoVolume(t, 0);
    }
  }

  lemma {:induction false} CutVolume(t: string, h: nat, q: nat)
    requires IsVolume(t, h, q)
    ensures SeriesName(t) == Strip(t[..h])
  {
    hide Strip, WithoutVolume;
    var k := VolumeRemoved(t, 0, h, q);
    assert AllSpace(t[q..]);
    StripBehind(t[..k], t[q..]);
    StripBehind(t[..k], t[k..h]);
    assert t[..k] + t[k..h] == t[..h];
  }

  /** Every volume of a series yields the series' name, whatever white space and number follow it. */
  lemma {:induction false} VolumeOfSeries(name: string, gap: string, number: string)
    requires Strip(name) == name && AllSpace(gap) && number != ""
    requires forall i | 0 <= i < |number| :: '0' <= number[i] <= '9' || number[i] == '.' || number[i] == '-'
    ensures SeriesName(name + gap + "#" + number) == name
  {
    hide Strip, IsSpace;
    var t, h := name + gap + "#" + number, |name + gap|;
    assert forall i | h < i < |t| :: t[i] == number[i - h - 1];
    assert IsVolume(t, h, |t|);
    CutVolume(t, h, |t|);
    assert t[..h] == name + gap;
    StripBehind(name, gap);
  }
}
