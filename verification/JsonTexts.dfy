/**
 JSON text, character by character: what `json.loads` accepts is exactly what the grammar spells, with integers for
 numbers.
 */
module JsonTexts {
  import opened Text
  import opened Json
  import opened JsonRoundTrip
  import opened JsonGrammar

  // ---- String literals ----

  /** One part of a JSON string literal. */
  datatype StrPart = Plain(c: char) | Short(e: char) | Code(hex: string) | Surrogates(high: string, low: string)

  /** The character written by a backslash and one more character. */
  function ShortValue(e: char): Option<char> {
    match e
    case '"' => Some('"')
    case '\\' => Some('\\')
    case '/' => Some('/')
    case 'b' => Some('\U{08}')
    case 'f' => Some('\U{0C}')
    case 'n' => Some('\U{0A}')
    case 'r' => Some('\U{0D}')
    case 't' => Some('\U{09}')
    case _ => None
  }

  predicate IsHexDigit(c: char) {
    '0' <= c <= '9' || 'a' <= c <= 'f' || 'A' <= c <= 'F'
  }

  function DigitOf(c: char): (r: nat)
    requires IsHexDigit(c)
    ensures r < 16
  {
    if '0' <= c <= '9' then c as int - '0' as int
    else if 'a' <= c <= 'f' then 10 + (c as int - 'a' as int)
    else 10 + (c as int - 'A' as int)
  }

  predicate IsHex4(s: string) {
    |s| == 4 && forall i | 0 <= i < 4 :: IsHexDigit(s[i])
  }

  function UnitOf(s: string): (r: nat)
    requires IsHex4(s)
    ensures r < 0x1_0000
  {
    0x1000 * DigitOf(s[0]) + 0x100 * DigitOf(s[1]) + 0x10 * DigitOf(s[2]) + DigitOf(s[3])
  }

  predicate LegalPart(p: StrPart) {
    match p
    case Plain(c) => c >= ' ' && c != '"' && c != '\\'
    case Short(e) => ShortValue(e).Some?
    case Code(hex) => IsHex4(hex) && !(0xD800 <= UnitOf(hex) < 0xE000)
    case Surrogates(high, low) => IsHex4(high) && IsHex4(low) && 0xD800 <= UnitOf(high) < 0xDC00 <= UnitOf(low) < 0xE000
  }

  function PartText(p: StrPart): string {
    match p
    case Plain(c) => [c]
    case Short(e) => ['\\', e]
    case Code(hex) => ['\\', 'u'] + hex
    case Surrogates(high, low) => ['\\', 'u'] + high + (['\\', 'u'] + low)
  }

  function PartValue(p: StrPart): char
    requires LegalPart(p)
  {
    match p
    case Plain(c) => c
    case Short(e) => ShortValue(e).value
    case Code(hex) => UnitOf(hex) as char
    case Surrogates(high, low) => (0x1_0000 + 0x400 * (UnitOf(high) - 0xD800) + (UnitOf(low) - 0xDC00)) as char
  }

  predicate LegalParts(parts: seq<StrPart>) {
    forall p | p in parts :: LegalPart(p)
  }

  function PartsText(parts: seq<StrPart>): string {
    if parts == [] then "" else PartText(parts[0]) + PartsText(parts[1..])
  }

  function PartsValue(parts: seq<StrPart>): string
    requires LegalParts(parts)
  {
    if parts == [] then ""
    else
      assert parts[0] in parts;
      [PartValue(parts[0])] + PartsValue(parts[1..])
  }

  lemma {:induction false} HexExact(s: string, rest: string)
    requires |s| == 4
    ensures LexHex4(s + rest) == if IsHex4(s) then Some(UnitOf(s)) else None
  {
    assert (s + rest)[0] == s[0] && (s + rest)[1] == s[1] && (s + rest)[2] == s[2] && (s + rest)[3] == s[3];
    HexDigitExact(s[0]);
    HexDigitExact(s[1]);
    HexDigitExact(s[2]);
    HexDigitExact(s[3]);
  }

  lemma {:induction false} HexDigitExact(c: char)
    ensures HexValue(c) == if IsHexDigit(c) then Some(DigitOf(c)) else None
  {
  }

  lemma {:induction false} ShortRead(e: char, rest: string)
    requires ShortValue(e).Some?
    ensures Unescape(JsonText, [e] + rest) == Some((ShortValue(e).value, 1))
  {
    hide LexUnicode;
  }

  lemma {:induction false} UnicodeRead(t: string, c: char, used: nat)
    requires LexUnicode(JsonText, t) == Some((c, used))
    ensures Unescape(JsonText, ['u'] + t) == Some((c, 1 + used))
  {
    hide LexUnicode;
    assert (['u'] + t)[1..] == t;
  }

  lemma {:induction false} CodeRead(hex: string, rest: string)
    requires LegalPart(Code(hex))
    ensures LexUnicode(JsonText, hex + rest) == Some((UnitOf(hex) as char, 4))
  {
    hide LexHex4, UnitOf;
    HexExact(hex, rest);
  }

  lemma {:induction false} WithoutBackslash(code: string, rest: string)
    ensures (['\\', 'u'] + code)[1..] + rest == ['u'] + (code + rest)
  {
  }

  /** A part other than a plain character is an escape that is read as its value, whatever follows it. */
  lemma {:induction false} EscapeRead(p: StrPart, rest: string)
    requires LegalPart(p) && !p.Plain?
    ensures Unescape(JsonText, PartText(p)[1..] + rest) == Some((PartValue(p), |PartText(p)| - 1))
  {
    hide UnitOf, IsHex4, Unescape, LexUnicode;
    match p
    case Short(e) =>
      ShortRead(e, rest);
      assert PartText(p)[1..] + rest == [e] + rest;
    case Code(hex) =>
      HexLength(hex);
      CodeRead(hex, rest);
      UnicodeRead(hex + rest, UnitOf(hex) as char, 4);
      WithoutBackslash(hex, rest);
    case Surrogates(high, low) =>
      HexLength(high);
      HexLength(low);
      SurrogatesRead(high, low, rest);
      UnicodeRead(high + (['\\', 'u'] + low + rest), PartValue(p), 10);
      WithoutBackslash(high + (['\\', 'u'] + low), rest);
      Assoc(['\\', 'u'], high, ['\\', 'u'] + low);
      Assoc(high, ['\\', 'u'] + low, rest);
  }

  lemma {:induction false} HexLength(hex: string)
    requires IsHex4(hex)
    ensures |hex| == 4
  {
  }

  lemma {:induction false} SurrogatesRead(high: string, low: string, rest: string)
    requires LegalPart(Surrogates(high, low))
    ensures LexUnicode(JsonText, high + (['\\', 'u'] + low + rest)) == Some((PartValue(Surrogates(high, low)), 10))
  {
    hide LexHex4, UnitOf;
    var s := high + (['\\', 'u'] + low + rest);
    HexExact(high, ['\\', 'u'] + low + rest);
    HexExact(low, rest);
    assert s[4..6] == "\\u" && s[6..] == low + rest;
  }

  lemma {:induction false} PartUndone(p: StrPart)
    requires LegalPart(p)
    ensures Undoes(UnescaperOf(JsonText), RawOf(JsonText), '"', PartText(p), PartValue(p))
  {
    hide Unescape;
    var e, c := PartText(p), PartValue(p);
    if !p.Plain? {
      forall rest: string {:trigger UnescaperOf(JsonText)(e[1..] + rest)}
        ensures UnescaperOf(JsonText)(e[1..] + rest) == Some((c, |e| - 1))
      {
        EscapeRead(p, rest);
      }
    }
  }

  /** Any legal parts between quotes are read as the characters they stand for. */
  lemma {:induction false} PartsRead(parts: seq<StrPart>, rest: string)
    requires LegalParts(parts)
    ensures LexString(UnescaperOf(JsonText), RawOf(JsonText), '"', PartsText(parts) + (['"'] + rest)) == Some((PartsValue(parts), rest))
  {
    if parts == [] {
      assert "" + (['"'] + rest) == ['"'] + rest;
      assert (['"'] + rest)[1..] == rest;
    } else {
      hide LexString, LegalPart, PartText, PartValue, Undoes;
      var p, more := parts[0], parts[1..];
      assert p in parts;
      PartUndone(p);
      PartsRead(more, rest);
      LexStringStep(UnescaperOf(JsonText), RawOf(JsonText), '"', PartText(p), PartValue(p), PartsText(more) + (['"'] + rest));
      Assoc(PartText(p), PartsText(more), ['"'] + rest);
    }
  }

  /** An escape that is read was written as one of the parts. */
  lemma {:induction false} PartOf(s: string) returns (p: StrPart)
    requires Unescape(JsonText, s).Some?
    ensures LegalPart(p) && !p.Plain? && PartValue(p) == Unescape(JsonText, s).value.0
    ensures var used := Unescape(JsonText, s).value.1; used <= |s| && PartText(p) == ['\\'] + s[..used]
  {
    hide LexHex4, UnitOf, IsHex4;
    if s[0] == 'u' {
      var t := s[1..];
      HexPrefix(t);
      assert t == t[..4] + t[4..];
      HexExact(t[..4], t[4..]);
      var u := LexHex4(t).value;
      if IsHigh(u) {
        assert StartsAt(t, 4, "\\u");
        assert t[4..6] == "\\u";
        HexPrefix(t[6..]);
        assert t[6..] == t[6..10] + t[10..];
        HexExact(t[6..10], t[10..]);
        p := Surrogates(t[..4], t[6..10]);
        SurrogatesSplit(s);
      } else {
        p := Code(t[..4]);
        assert ['\\', 'u'] + s[1..][..4] == ['\\'] + s[..5];
      }
    } else {
      p := Short(s[0]);
      assert s[..1] == [s[0]];
    }
  }

  lemma {:induction false} SurrogatesSplit(s: string)
    requires |s| >= 11 && s[0] == 'u' && s[1..][4..6] == "\\u"
    ensures ['\\', 'u'] + s[1..][..4] + (['\\', 'u'] + s[1..][6..10]) == ['\\'] + s[..11]
  {
    assert s[5] == s[1..][4..6][0] && s[6] == s[1..][4..6][1];
  }

  lemma {:induction false} HexPrefix(s: string)
    requires LexHex4(s).Some?
    ensures |s| >= 4
  {
  }

  /** A string literal that is read was written as legal parts. */
  lemma {:induction false} PartsOf(s: string) returns (parts: seq<StrPart>)
    requires LexString(UnescaperOf(JsonText), RawOf(JsonText), '"', s).Some?
    ensures LegalParts(parts) && PartsValue(parts) == LexString(UnescaperOf(JsonText), RawOf(JsonText), '"', s).value.0
    ensures s == PartsText(parts) + (['"'] + LexString(UnescaperOf(JsonText), RawOf(JsonText), '"', s).value.1)
    decreases |s|
  {
    hide Unescape, LegalPart, PartText, PartValue;
    if s[0] == '"' {
      parts := [];
      assert s == ['"'] + s[1..];
    } else if s[0] == '\\' {
      var p := PartOf(s[1..]);
      var used := Unescape(JsonText, s[1..]).value.1;
      var more := PartsOf(s[1 + used..]);
      parts := [p] + more;
      assert parts[1..] == more;
      assert s == (['\\'] + s[1..][..used]) + s[1 + used..];
      Assoc(PartText(p), PartsText(more), ['"'] + LexString(UnescaperOf(JsonText), RawOf(JsonText), '"', s[1 + used..]).value.1);
    } else {
      var p := Plain(s[0]);
      PlainLegal(s[0]);
      var more := PartsOf(s[1..]);
      parts := [p] + more;
      assert parts[1..] == more;
      assert s == [s[0]] + s[1..];
      Assoc(PartText(p), PartsText(more), ['"'] + LexString(UnescaperOf(JsonText), RawOf(JsonText), '"', s[1..]).value.1);
    }
  }

  lemma {:induction false} PlainLegal(c: char)
    requires RawOf(JsonText)(c) && c != '"' && c != '\\'
    ensures LegalPart(Plain(c)) && PartText(Plain(c)) == [c] && PartValue(Plain(c)) == c
  {
  }

  // ---- Tokens ----

  /** The text is a JSON spelling of the token. */
  ghost predicate Spells(e: string, t: Token) {
    match t
    case Punct(c) => IsPunct(c) && e == [c]
    case Atom(Str(v)) => exists parts :: LegalParts(parts) && e == ['"'] + PartsText(parts) + ['"'] && PartsValue(parts) == v
    case Atom(Int(n)) => e == IntText(n) || (n == 0 && e == "-0")
    case Atom(Null) => e == "null"
    case Atom(Bool(b)) => e == if b then "true" else "false"
    case Atom(_) => false
  }

  predicate IsBlank(gap: string) {
    forall i | 0 <= i < |gap| :: gap[i] == ' ' || gap[i] == '\t' || gap[i] == '\n' || gap[i] == '\r'
  }

  /** A token's text and the white space in front of it. */
  datatype Lexeme = Lexeme(gap: string, text: string)

  function Spelling(lexemes: seq<Lexeme>, tail: string): string {
    if lexemes == [] then tail else lexemes[0].gap + (lexemes[0].text + Spelling(lexemes[1..], tail))
  }

  ghost predicate SpellsAll(lexemes: seq<Lexeme>, ts: seq<Token>) {
    |lexemes| == |ts| && forall i | 0 <= i < |ts| :: IsBlank(lexemes[i].gap) && Spells(lexemes[i].text, ts[i])
  }

  /** Behind every atom comes punctuation, or nothing. */
  predicate AtomsApart(ts: seq<Token>) {
    forall i | 0 <= i < |ts| - 1 && ts[i].Atom? :: ts[i + 1].Punct?
  }

  lemma {:induction false} LexSpelledString(parts: seq<StrPart>, rest: string)
    requires LegalParts(parts)
    ensures Lex(JsonText, ['"'] + PartsText(parts) + ['"'] + rest) == After(Atom(Str(PartsValue(parts))), Lex(JsonText, rest))
  {
    hide LexString, LexInt, LexWord, Word, PartsText, PartsValue, UnescaperOf, RawOf, LegalParts;
    var s := ['"'] + PartsText(parts) + ['"'] + rest;
    PartsRead(parts, rest);
    assert s[1..] == PartsText(parts) + (['"'] + rest);
  }

  lemma {:induction false} LexMinusZero(rest: string)
    requires rest == "" || !IsDigit(rest[0])
    ensures Lex(JsonText, "-0" + rest) == After(Atom(Int(0)), Lex(JsonText, rest))
  {
    hide LexString, LexWord, Word;
    var s := "-0" + rest;
    assert s[0] == '-' && s[1..][0] == '0' && s[2..] == rest;
  }

  lemma {:induction false} LexSpelled(e: string, t: Token, rest: string)
    requires Spells(e, t) && (t.Atom? ==> rest == "" || !IsDigit(rest[0]))
    ensures Lex(JsonText, e + rest) == After(t, Lex(JsonText, rest))
  {
    hide Lex, PartsText, PartsValue, LegalParts, IntText;
    match t
    case Punct(c) => LexToken(JsonText, '"', t, rest);
    case Atom(Str(v)) =>
      var parts :| LegalParts(parts) && e == ['"'] + PartsText(parts) + ['"'] && PartsValue(parts) == v;
      LexSpelledString(parts, rest);
    case Atom(Int(n)) =>
      if e == IntText(n) {
        LexIntToken(JsonText, n, rest);
      } else {
        LexMinusZero(rest);
      }
    case Atom(v) => LexWordToken(JsonText, v, rest);
  }

  lemma {:induction false} BlankIsGap(gap: string)
    ensures IsBlank(gap) <==> IsGapText(JsonText, gap)
  {
  }

  lemma {:induction false} SpelledFirst(lexemes: seq<Lexeme>, ts: seq<Token>)
    requires SpellsAll(lexemes, ts) && ts != []
    ensures IsBlank(lexemes[0].gap) && Spells(lexemes[0].text, ts[0]) && SpellsAll(lexemes[1..], ts[1..])
  {
    hide Spells, IsBlank;
  }

  lemma {:induction false} NoDigitBehind(lexemes: seq<Lexeme>, ts: seq<Token>, tail: string)
    requires SpellsAll(lexemes, ts) && IsBlank(tail) && (ts == [] || ts[0].Punct?)
    ensures Spelling(lexemes, tail) == "" || !IsDigit(Spelling(lexemes, tail)[0])
  {
    if ts != [] {
      SpelledFirst(lexemes, ts);
      var x := lexemes[0];
      assert Spelling(lexemes, tail)[0] == if x.gap != "" then x.gap[0] else ts[0].c;
    }
  }

  /** Every spelling of tokens is read as the tokens. */
  lemma {:induction false} SpellingLexed(lexemes: seq<Lexeme>, ts: seq<Token>, tail: string)
    requires SpellsAll(lexemes, ts) && IsBlank(tail) && AtomsApart(ts)
    ensures Lex(JsonText, Spelling(lexemes, tail)) == Some(ts)
  {
    BlankIsGap(tail);
    if ts == [] {
      LexGap(JsonText, tail, "");
      assert tail + "" == tail;
    } else {
      hide Lex, Spells, IsBlank, IsGapText, SpellsAll;
      assert |lexemes| == |ts| by {
        SpelledLength(lexemes, ts);
      }
      SpelledFirst(lexemes, ts);
      SpellingLexed(lexemes[1..], ts[1..], tail);
      if ts[0].Atom? {
        assert |ts| > 1 ==> ts[0 + 1].Punct?;
        NoDigitBehind(lexemes[1..], ts[1..], tail);
      }
      BlankIsGap(lexemes[0].gap);
      LexGap(JsonText, lexemes[0].gap, lexemes[0].text + Spelling(lexemes[1..], tail));
      LexSpelled(lexemes[0].text, ts[0], Spelling(lexemes[1..], tail));
      assert [ts[0]] + ts[1..] == ts;
    }
  }

  lemma {:induction false} SpelledLength(lexemes: seq<Lexeme>, ts: seq<Token>)
    requires SpellsAll(lexemes, ts)
    ensures |lexemes| == |ts|
  {
  }

  // ---- What is read was spelled ----

  lemma {:induction false} DigitsText(s: string)
    requires s != "" && s[0] != '0' && forall i | 0 <= i < |s| :: IsDigit(s[i])
    ensures NatText(DigitsValue(s)) == s && DigitsValue(s) > 0
  {
    var init, last := s[..|s| - 1], s[|s| - 1];
    assert s == init + [last] && IsDigit(last);
    if init != "" {
      hide NatText, DigitsValue, IsDigit;
      assert init[0] == s[0] && forall i | 0 <= i < |init| :: init[i] == s[i];
      DigitsText(init);
    }
    DigitsStep(init, last);
  }

  lemma {:induction false} DigitsStep(init: string, last: char)
    requires IsDigit(last) && (init == "" ==> last != '0') && forall i | 0 <= i < |init| :: IsDigit(init[i])
    requires init != "" ==> NatText(DigitsValue(init)) == init && DigitsValue(init) > 0
    ensures NatText(DigitsValue(init + [last])) == init + [last] && DigitsValue(init + [last]) > 0
  {
    var s := init + [last];
    assert s[..|s| - 1] == init && s[|s| - 1] == last;
    assert DigitsValue(s) == 10 * DigitsValue(init) + (last as int - '0' as int);
  }

  lemma {:induction false} NaturalText(s: string)
    requires LexNat(s).Some?
    ensures var (n, used) := LexNat(s).value; 0 < used <= |s| && s[..used] == NatText(n) && (n == 0 ==> s[..used] == "0")
  {
    if s[0] == '0' {
      assert s[..1] == "0";
    } else {
      DigitsText(s[..DigitRun(s)]);
    }
  }

  lemma {:induction false} NumeralText(s: string)
    requires LexInt(s).Some?
    ensures var (n, used) := LexInt(s).value; 0 < used <= |s| && Spells(s[..used], Atom(Int(n)))
  {
    hide LexNat, NatText;
    if s[0] == '-' {
      NaturalText(s[1..]);
      var (n, used) := LexNat(s[1..]).value;
      assert s[..1 + used] == ['-'] + s[1..][..used];
    } else {
      NaturalText(s);
    }
  }

  lemma {:induction false} WordText(s: string)
    requires LexWord(JsonText, s).Some?
    ensures var v := LexWord(JsonText, s).value;
            var w := Word(JsonText, v);
            w != "" && |w| <= |s| && s[..|w|] == w && Spells(w, Atom(v))
  {
  }

  lemma {:induction false} PrependGap(c: char, lexemes: seq<Lexeme>, ts: seq<Token>, tail: string)
      returns (lexemes': seq<Lexeme>, tail': string)
    requires SpellsAll(lexemes, ts) && IsBlank(tail) && IsBlank([c])
    ensures SpellsAll(lexemes', ts) && IsBlank(tail') && Spelling(lexemes', tail') == [c] + Spelling(lexemes, tail)
  {
    hide Spells;
    if lexemes == [] {
      lexemes', tail' := [], [c] + tail;
    } else {
      var x := lexemes[0];
      lexemes', tail' := [Lexeme([c] + x.gap, x.text)] + lexemes[1..], tail;
      assert [c][0] == c && IsBlank(x.gap);
      assert lexemes'[1..] == lexemes[1..];
      Assoc([c], x.gap, x.text + Spelling(lexemes[1..], tail));
    }
  }

  lemma {:induction false} NothingBlank()
    ensures IsBlank("")
  {
  }

  lemma {:induction false} PrependLexeme(e: string, t: Token, lexemes: seq<Lexeme>, ts: seq<Token>, tail: string)
    requires SpellsAll(lexemes, ts) && Spells(e, t)
    ensures SpellsAll([Lexeme("", e)] + lexemes, [t] + ts)
    ensures Spelling([Lexeme("", e)] + lexemes, tail) == e + Spelling(lexemes, tail)
  {
    hide Spells, IsBlank;
    var all := [Lexeme("", e)] + lexemes;
    assert all[1..] == lexemes;
    NothingBlank();
    forall i | 0 <= i < |all|
      ensures IsBlank(all[i].gap) && Spells(all[i].text, ([t] + ts)[i])
    {
      if i > 0 {
        assert all[i] == lexemes[i - 1] && ([t] + ts)[i] == ts[i - 1];
      }
    }
    assert "" + (e + Spelling(lexemes, tail)) == e + Spelling(lexemes, tail);
  }

  /** The first token that is read, its text, and what is left to read. */
  lemma {:induction false} FirstLexeme(s: string) returns (e: string, t: Token, rest: string)
    requires s != "" && !IsGap(JsonText, s[0]) && Lex(JsonText, s).Some?
    ensures Spells(e, t) && s == e + rest && |rest| < |s|
    ensures Lex(JsonText, s) == After(t, Lex(JsonText, rest))
  {
    hide LexString, LexInt, LexWord, PartsText, PartsValue, LegalParts, IntText, UnescaperOf, RawOf, Word;
    if IsPunct(s[0]) {
      e, t, rest := [s[0]], Punct(s[0]), s[1..];
    } else if s[0] == '"' {
      var parts := PartsOf(s[1..]);
      var (v, more) := LexString(UnescaperOf(JsonText), RawOf(JsonText), '"', s[1..]).value;
      e, t, rest := ['"'] + PartsText(parts) + ['"'], Atom(Str(v)), more;
      assert s == ['"'] + s[1..];
    } else if s[0] == '-' || IsDigit(s[0]) {
      NumeralText(s);
      var (n, used) := LexInt(s).value;
      e, t, rest := s[..used], Atom(Int(n)), s[used..];
    } else {
      WordText(s);
      var v := LexWord(JsonText, s).value;
      e, t, rest := Word(JsonText, v), Atom(v), s[|Word(JsonText, v)|..];
    }
  }

  /** Tokens that are read were spelled. */
  lemma {:induction false} LexemesOf(s: string) returns (lexemes: seq<Lexeme>, tail: string)
    requires Lex(JsonText, s).Some?
    ensures SpellsAll(lexemes, Lex(JsonText, s).value) && IsBlank(tail) && Spelling(lexemes, tail) == s
    decreases |s|
  {
    hide Spells, LexString, LexInt, LexWord, Word, Spelling;
    if s == "" {
      lexemes, tail := [], "";
      NothingSpelled();
    } else if IsGap(JsonText, s[0]) {
      var more, end := LexemesOf(s[1..]);
      lexemes, tail := PrependGap(s[0], more, Lex(JsonText, s[1..]).value, end);
      assert [s[0]] + s[1..] == s;
    } else {
      var e, t, rest := FirstLexeme(s);
      hide Lex;
      var more, end := LexemesOf(rest);
      PrependLexeme(e, t, more, Lex(JsonText, rest).value, end);
      lexemes, tail := [Lexeme("", e)] + more, end;
    }
  }

  lemma {:induction false} NothingSpelled()
    ensures Spelling([], "") == ""
  {
  }

  // ---- The texts that json.loads accepts ----

  lemma {:induction false} WrittenApart(t: Tree)
    ensures AtomsApart(Written(t)) && Written(t) != [] && (t.Leaf? || Written(t)[|Written(t)| - 1].Punct?)
    decreases t, 0
  {
    hide WrittenItems, WrittenPairs;
    match t
    case Leaf(_) =>
    case List(items, trailing) =>
      ItemsApart(items);
      ApartWrapped(Punct('['), WrittenItems(items), Trail(trailing) + [Punct(']')]);
    case Dict(pairs, trailing) =>
      PairsApart(pairs);
      ApartWrapped(Punct('{'), WrittenPairs(pairs), Trail(trailing) + [Punct('}')]);
  }

  lemma {:induction false} ApartWrapped(open: Token, body: seq<Token>, end: seq<Token>)
    requires open.Punct? && AtomsApart(body) && end != [] && forall t | t in end :: t.Punct?
    ensures AtomsApart([open] + (body + end))
  {
    var all := [open] + (body + end);
    forall i | |body| < i < |all|
      ensures all[i].Punct?
    {
      assert all[i] == end[i - |body| - 1] && all[i] in end;
    }
    forall i | 0 < i < |body| && all[i].Atom?
      ensures all[i + 1].Punct?
    {
      assert all[i] == body[i - 1] && all[i + 1] == body[i - 1 + 1];
    }
  }

  lemma {:induction false} ApartJoined(a: seq<Token>, comma: Token, b: seq<Token>)
    requires AtomsApart(a) && comma.Punct? && AtomsApart(b)
    ensures AtomsApart(a + ([comma] + b))
  {
    var all := a + ([comma] + b);
    assert all[|a|] == comma;
    forall i | 0 <= i < |all| - 1 && all[i].Atom? && i < |a|
      ensures all[i + 1].Punct?
    {
      assert all[i] == a[i];
    }
    forall i | |a| < i < |all| - 1 && all[i].Atom?
      ensures all[i + 1].Punct?
    {
      assert all[i] == b[i - |a| - 1];
    }
  }

  lemma {:induction false} ItemsApart(items: seq<Tree>)
    ensures AtomsApart(WrittenItems(items))
    decreases items, 1
  {
    if items != [] {
      hide Written, AtomsApart;
      WrittenApart(items[0]);
      if |items| > 1 {
        ItemsApart(items[1..]);
        ApartJoined(Written(items[0]), Punct(','), WrittenItems(items[1..]));
      }
    }
  }

  lemma {:induction false} KeyApart(k: string, value: seq<Token>)
    requires AtomsApart(value)
    ensures AtomsApart([Atom(Str(k)), Punct(':')] + value)
  {
    assert AtomsApart([Atom(Str(k))]);
    ApartJoined([Atom(Str(k))], Punct(':'), value);
    assert [Atom(Str(k))] + ([Punct(':')] + value) == [Atom(Str(k)), Punct(':')] + value;
  }

  lemma {:induction false} PairsApart(pairs: seq<Pair>)
    ensures AtomsApart(WrittenPairs(pairs))
    decreases pairs, 1
  {
    if pairs != [] {
      hide Written, AtomsApart;
      WrittenApart(pairs[0].value);
      KeyApart(pairs[0].key, Written(pairs[0].value));
      if |pairs| > 1 {
        PairsApart(pairs[1..]);
        ApartJoined([Atom(Str(pairs[0].key)), Punct(':')] + Written(pairs[0].value), Punct(','), WrittenPairs(pairs[1..]));
      }
    }
  }

  /** The text spells a tree of the JSON grammar that means the value. */
  ghost predicate IsJsonOf(s: string, v: Json) {
    exists t, lexemes, tail :: Allowed(JsonText, t) && Meaning(t) == v && SpellsAll(lexemes, Written(t)) && IsBlank(tail)
                               && Spelling(lexemes, tail) == s
  }

  /** `json.loads` accepts exactly JSON: a text is read as a value iff it spells that value. */
  lemma {:induction false} LoadsIff(s: string, v: Json)
    ensures Loads(s) == Some(v) <==> IsJsonOf(s, v)
  {
    hide Lex, Allowed, Meaning, Written, SpellsAll, Spelling, IsBlank, AtomsApart, ParseValue;
    ParseIff(JsonText, s, v);
    if Loads(s) == Some(v) {
      var t :| Allowed(JsonText, t) && Written(t) == Lex(JsonText, s).value && Meaning(t) == v;
      var lexemes, tail := LexemesOf(s);
    }
    if IsJsonOf(s, v) {
      var t, lexemes, tail :| Allowed(JsonText, t) && Meaning(t) == v && SpellsAll(lexemes, Written(t)) && IsBlank(tail)
                              && Spelling(lexemes, tail) == s;
      WrittenApart(t);
      SpellingLexed(lexemes, Written(t), tail);
      assert Derives(JsonText, Written(t), v);
    }
  }
}
