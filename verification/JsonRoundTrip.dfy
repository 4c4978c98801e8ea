/**
 Reading back what was printed: any layout of a value, in either dialect, parses to that value.
 */
module JsonRoundTrip {
  import opened Text
  import opened Json

  // ---- Characters and numbers ----

  lemma {:induction false} HexDigitValue(d: nat)
    requires d < 16
    ensures HexValue(HexDigit(d)) == Some(d)
  {
  }

  lemma {:induction false} HexParts(u: nat)
    requires u < 0x1_0000
    ensures u / 0x1000 < 16
    ensures 0x1000 * (u / 0x1000) + 0x100 * (u / 0x100 % 16) + 0x10 * (u / 0x10 % 16) + u % 16 == u
  {
    HexDigits(u, u / 0x10, u / 0x100, u / 0x1000);
  }

  lemma {:induction false} HexDigits(u: nat, x: nat, y: nat, z: nat)
    requires x == u / 16 && y == u / 0x100 && z == u / 0x1000 && u < 0x1_0000
    ensures z < 16 && 0x1000 * z + 0x100 * (y % 16) + 0x10 * (x % 16) + u % 16 == u
  {
    assert y == x / 16 && z == y / 16;
    assert u == 16 * x + u % 16 && x == 16 * y + x % 16 && y == 16 * z + y % 16;
  }

  lemma {:induction false} Hex4RoundTrip(u: nat, rest: string)
    requires u < 0x1_0000
    ensures LexHex4(Hex4(u) + rest) == Some(u)
  {
    HexDigitValue(u / 0x1000);
    HexDigitValue(u / 0x100 % 16);
    HexDigitValue(u / 0x10 % 16);
    HexDigitValue(u % 16);
    HexParts(u);
  }

  lemma {:induction false} UnicodeRoundTrip(d: Dialect, c: char, rest: string)
    requires d.JsonText? || c as int < 0x1_0000
    ensures LexUnicode(d, UnicodeTail(c) + rest) == Some((c, |UnicodeTail(c)|))
  {
    hide LexHex4;
    var u := c as int;
    var s := UnicodeTail(c) + rest;
    if u < 0x1_0000 {
      Hex4RoundTrip(u, rest);
    } else {
      var h, l := 0xD800 + (u - 0x1_0000) / 0x400, 0xDC00 + (u - 0x1_0000) % 0x400;
      assert s == Hex4(h) + ("\\u" + Hex4(l) + rest);
      Hex4RoundTrip(h, "\\u" + Hex4(l) + rest);
      assert s[6..] == Hex4(l) + rest;
      Hex4RoundTrip(l, rest);
      assert s[4..6] == "\\u";
    }
  }

  /** An escaped character is read back; an unescaped one neither ends the literal nor starts an escape. */
  lemma {:induction false} EscapeRoundTrip(d: Dialect, q: char, c: char, rest: string)
    requires OpensString(d, q)
    ensures var e := EscapeChar(d, q, c);
            || (e[0] == '\\' && Unescape(d, e[1..] + rest) == Some((c, |e| - 1)))
            || (e == [c] && c != q && c != '\\' && IsRaw(d, c))
  {
    hide LexUnicode, LexOctal, LexHex2, LexHex8;
    var e := EscapeChar(d, q, c);
    if e[0] == '\\' {
      assert (e[1..] + rest)[0] == e[1];
      if |e| > 2 {
        UnicodeRoundTrip(d, c, rest);
        assert (e[1..] + rest)[1..] == UnicodeTail(c) + rest;
      }
    }
  }

  /** `escape` is undone by `unescape`, character by character. */
  ghost predicate Undoes(unescape: Unescaper, raw: char -> bool, q: char, e: string, c: char) {
    || (|e| >= 2 && e[0] == '\\' && q != '\\' && forall rest: string {:trigger unescape(e[1..] + rest)} ::
          unescape(e[1..] + rest) == Some((c, |e| - 1)))
    || (e == [c] && c != q && c != '\\' && raw(c))
  }

  /** Text written in dialect `e` can be read in dialect `d`, as far as string literals go. */
  predicate Reads(d: Dialect, e: Dialect) {
    d == e || (d.JsonText? && e.PythonText?)
  }

  lemma {:induction false} EscapeUndone(d: Dialect, e: Dialect, q: char, c: char)
    requires OpensString(d, q) && Reads(d, e)
    ensures Undoes(UnescaperOf(d), RawOf(d), q, EscapeChar(e, q, c), c)
  {
    hide Unescape;
    var t := EscapeChar(e, q, c);
    if t == EscapeChar(d, q, c) {
      forall rest: string {:trigger UnescaperOf(d)(t[1..] + rest)} | t[0] == '\\'
        ensures UnescaperOf(d)(t[1..] + rest) == Some((c, |t| - 1))
      {
        EscapeRoundTrip(d, q, c, rest);
      }
      EscapeRoundTrip(d, q, c, "");
    }
  }

  lemma {:induction false} LexStringStep(unescape: Unescaper, raw: char -> bool, q: char, e: string, c: char, more: string)
    requires Undoes(unescape, raw, q, e, c)
    ensures LexString(unescape, raw, q, e + more) == Behind(c, LexString(unescape, raw, q, more))
  {
    var s := e + more;
    if e[0] == '\\' && |e| >= 2 {
      assert s[1..] == e[1..] + more;
      assert s[|e|..] == more;
    } else {
      assert s[1..] == more;
    }
  }

  lemma {:induction false} LexStringRoundTrip(d: Dialect, e: Dialect, q: char, str: string, rest: string)
    requires OpensString(d, q) && Reads(d, e)
    ensures LexString(UnescaperOf(d), RawOf(d), q, EscapeAll(e, q, str) + ([q] + rest)) == Some((str, rest))
  {
    if str == "" {
      assert "" + ([q] + rest) == [q] + rest;
      assert ([q] + rest)[1..] == rest;
    } else {
      hide LexString, EscapeChar;
      var head, tail := EscapeChar(e, q, str[0]), EscapeAll(e, q, str[1..]);
      EscapeUndone(d, e, q, str[0]);
      LexStringRoundTrip(d, e, q, str[1..], rest);
      LexStringStep(UnescaperOf(d), RawOf(d), q, head, str[0], tail + ([q] + rest));
      Assoc(head, tail, [q] + rest);
      assert [str[0]] + str[1..] == str;
    }
  }

  lemma {:induction false} NatTextValue(n: nat)
    ensures DigitsValue(NatText(n)) == n
    ensures NatText(n)[0] == '0' <==> n == 0
  {
    if n >= 10 {
      NatTextValue(n / 10);
      var s := NatText(n);
      assert s[..|s| - 1] == NatText(n / 10);
    } else {
      assert NatText(n)[..0] == "";
    }
  }

  lemma {:induction false} DigitRunExact(s: string, rest: string)
    requires forall i | 0 <= i < |s| :: IsDigit(s[i])
    requires rest == "" || !IsDigit(rest[0])
    ensures DigitRun(s + rest) == |s|
  {
    if s == "" {
      assert s + rest == rest;
    } else {
      DigitRunExact(s[1..], rest);
      assert (s + rest)[1..] == s[1..] + rest;
    }
  }

  lemma {:induction false} LexNatRoundTrip(n: nat, rest: string)
    requires rest == "" || !IsDigit(rest[0])
    ensures LexNat(NatText(n) + rest) == Some((n, |NatText(n)|))
  {
    var s := NatText(n);
    NatTextValue(n);
    DigitRunExact(s, rest);
    assert (s + rest)[0] == s[0];
    assert (s + rest)[..|s|] == s;
  }

  lemma {:induction false} LexIntRoundTrip(n: int, rest: string)
    requires rest == "" || !IsDigit(rest[0])
    ensures LexInt(IntText(n) + rest) == Some((n, |IntText(n)|))
  {
    if n < 0 {
      NegativeRoundTrip(-n, rest);
    } else {
      LexNatRoundTrip(n, rest);
      assert (NatText(n) + rest)[0] == NatText(n)[0];
    }
  }

  lemma {:induction false} NegativeRoundTrip(m: nat, rest: string)
    requires rest == "" || !IsDigit(rest[0])
    ensures LexInt("-" + NatText(m) + rest) == Some((-(m as int), 1 + |NatText(m)|))
  {
    LexNatRoundTrip(m, rest);
    assert ("-" + NatText(m) + rest)[1..] == NatText(m) + rest;
  }

  // ---- Tokens ----

  predicate Printable(t: Token) {
    match t case Punct(c) => IsPunct(c) case Atom(v) => IsScalar(v)
  }

  /** Tokens that a value is printed as: numbers stand alone or before punctuation. */
  predicate Spaced(ts: seq<Token>) {
    && (forall t | t in ts :: Printable(t))
    && forall i | 0 <= i < |ts| - 1 && ts[i].Atom? :: ts[i + 1].Punct?
  }

  lemma {:induction false} LexGap(d: Dialect, gap: string, s: string)
    requires IsGapText(d, gap)
    ensures Lex(d, gap + s) == Lex(d, s)
  {
    hide LexString, LexInt, LexWord, Word;
    if gap == "" {
      assert gap + s == s;
    } else {
      LexGap(d, gap[1..], s);
      assert (gap + s)[1..] == gap[1..] + s;
    }
  }

  lemma {:induction false} LexToken(d: Dialect, q: char, t: Token, rest: string)
    requires Printable(t) && OpensString(d, q)
    requires t.Atom? && t.v.Int? ==> rest == "" || !IsDigit(rest[0])
    ensures Lex(d, Spell(d, q, t) + rest) == After(t, Lex(d, rest))
  {
    match t
    case Punct(c) => assert ([c] + rest)[1..] == rest;
    case Atom(Str(str)) => LexStringToken(d, d, q, str, rest);
    case Atom(Int(n)) => LexIntToken(d, n, rest);
    case Atom(v) => LexWordToken(d, v, rest);
  }

  lemma {:induction false} LexStringToken(d: Dialect, e: Dialect, q: char, str: string, rest: string)
    requires OpensString(d, q) && Reads(d, e)
    ensures Lex(d, [q] + EscapeAll(e, q, str) + [q] + rest) == After(Atom(Str(str)), Lex(d, rest))
  {
    hide LexString, EscapeAll, LexInt, LexWord, Word, UnescaperOf, RawOf;
    var s := [q] + EscapeAll(e, q, str) + [q] + rest;
    LexStringRoundTrip(d, e, q, str, rest);
    assert s[1..] == EscapeAll(e, q, str) + ([q] + rest);
  }

  lemma {:induction false} LexIntToken(d: Dialect, n: int, rest: string)
    requires rest == "" || !IsDigit(rest[0])
    ensures Lex(d, IntText(n) + rest) == After(Atom(Int(n)), Lex(d, rest))
  {
    hide LexString, LexWord, Word, NatText;
    var s := IntText(n) + rest;
    LexIntRoundTrip(n, rest);
    assert s[|IntText(n)|..] == rest;
    assert s[0] == IntText(n)[0];
  }

  lemma {:induction false} LexWordToken(d: Dialect, v: Json, rest: string)
    requires v.Null? || v.Bool?
    ensures Lex(d, Word(d, v) + rest) == After(Atom(v), Lex(d, rest))
  {
    var w := Word(d, v);
    var s := w + rest;
    assert s[0] == w[0];
    assert s[0..|w|] == w;
    assert s[|w|..] == rest;
    forall v' | v' in {Null, Bool(true), Bool(false)} && v' != v
      ensures !StartsAt(s, 0, Word(d, v'))
    {
      assert Word(d, v')[0] != w[0];
      StartsAtChar(s, 0, Word(d, v'), 0);
    }
  }

  lemma {:induction false} LayOutParts(d: Dialect, ts: seq<Token>, style: seq<Piece>)
    requires |ts| == |style| > 0 && LegalStyle(d, style) && Spaced(ts)
    ensures IsGapText(d, style[0].gap) && OpensString(d, style[0].quote) && LegalStyle(d, style[1..])
    ensures Printable(ts[0]) && Spaced(ts[1..])
  {
    hide IsGapText, OpensString, Printable;
    assert style[0] in style && ts[0] in ts;
  }

  lemma {:induction false} LayOutFirst(d: Dialect, ts: seq<Token>, style: seq<Piece>, tail: string)
    requires |ts| == |style| > 0
    ensures LayOut(d, ts, style) + tail
         == style[0].gap + (Spell(d, style[0].quote, ts[0]) + (LayOut(d, ts[1..], style[1..]) + tail))
  {
    hide Spell;
  }

  /** Lexing any layout gives the tokens back. */
  lemma {:induction false} LexOfLayout(d: Dialect, ts: seq<Token>, style: seq<Piece>, tail: string)
    requires |ts| == |style| && LegalStyle(d, style) && IsGapText(d, tail) && Spaced(ts)
    ensures Lex(d, LayOut(d, ts, style) + tail) == Some(ts)
  {
    if ts == [] {
      LexGap(d, tail, "");
      assert "" + tail == tail + "";
    } else {
      hide Lex, Spell, LayOut, LegalStyle, Spaced, IsGapText, Printable, OpensString;
      LayOutParts(d, ts, style);
      LexOfLayout(d, ts[1..], style[1..], tail);
      if ts[0].Atom? {
        AfterAtom(d, ts, style, tail);
      }
      LexPiece(d, style[0], ts[0], LayOut(d, ts[1..], style[1..]) + tail);
      LayOutFirst(d, ts, style, tail);
      assert [ts[0]] + ts[1..] == ts;
    }
  }

  lemma {:induction false} LexPiece(d: Dialect, p: Piece, t: Token, rest: string)
    requires Printable(t) && IsGapText(d, p.gap) && OpensString(d, p.quote)
    requires t.Atom? && t.v.Int? ==> rest == "" || !IsDigit(rest[0])
    ensures Lex(d, p.gap + (Spell(d, p.quote, t) + rest)) == After(t, Lex(d, rest))
  {
    LexGap(d, p.gap, Spell(d, p.quote, t) + rest);
    LexToken(d, p.quote, t, rest);
  }

  /** What follows an atom never continues a number. */
  lemma {:induction false} AfterAtom(d: Dialect, ts: seq<Token>, style: seq<Piece>, tail: string)
    requires |ts| == |style| > 0 && LegalStyle(d, style) && IsGapText(d, tail) && Spaced(ts) && ts[0].Atom?
    ensures var rest := LayOut(d, ts[1..], style[1..]) + tail; rest == "" || !IsDigit(rest[0])
  {
    if |ts| > 1 {
      var p := style[1];
      assert p in style && ts[1] in ts && ts[0 + 1].Punct?;
      var s := LayOut(d, ts[1..], style[1..]);
      assert s[0] == (if p.gap != "" then p.gap[0] else ts[1].c);
    } else {
      assert LayOut(d, ts[1..], style[1..]) + tail == tail;
    }
  }

  // ---- A Python literal read as JSON ----

  /** Reading JSON gives up, or it finds the tokens. */
  predicate NoneOr(r: Option<seq<Token>>, expected: Option<seq<Token>>) {
    r.None? || r == expected
  }

  lemma {:induction false} NoWordAt(s: string)
    requires s != "" && s[0] != 'n' && s[0] != 't' && s[0] != 'f'
    ensures LexWord(JsonText, s).None?
  {
    StartsAtChar(s, 0, "null", 0);
    StartsAtChar(s, 0, "true", 0);
    StartsAtChar(s, 0, "false", 0);
  }

  lemma {:induction false} JsonStops(s: string)
    requires s != "" && (s[0] == '\'' || s[0] == '\U{0C}' || s[0] == 'N' || s[0] == 'T' || s[0] == 'F')
    ensures Lex(JsonText, s).None?
  {
    hide LexWord;
    NoWordAt(s);
  }

  lemma {:induction false} CrossGap(gap: string, s: string)
    requires IsGapText(PythonText, gap)
    ensures NoneOr(Lex(JsonText, gap + s), Lex(JsonText, s))
  {
    hide Lex;
    if gap == "" {
      assert gap + s == s;
    } else if IsGap(JsonText, gap[0]) {
      CrossGap(gap[1..], s);
      LexGap(JsonText, [gap[0]], gap[1..] + s);
      assert gap + s == [gap[0]] + (gap[1..] + s);
    } else {
      JsonStops(gap + s);
    }
  }

  lemma {:induction false} CrossToken(q: char, t: Token, rest: string)
    requires Printable(t) && OpensString(PythonText, q)
    requires t.Atom? && t.v.Int? ==> rest == "" || !IsDigit(rest[0])
    ensures NoneOr(Lex(JsonText, Spell(PythonText, q, t) + rest), After(t, Lex(JsonText, rest)))
  {
    match t
    case Punct(c) => LexToken(JsonText, '"', t, rest);
    case Atom(Int(n)) => LexToken(JsonText, '"', t, rest);
    case Atom(Str(str)) =>
      hide Lex, EscapeAll;
      if q == '"' {
        LexStringToken(JsonText, PythonText, q, str, rest);
      } else {
        JsonStops(Spell(PythonText, q, t) + rest);
      }
    case Atom(v) =>
      hide Lex;
      JsonStops(Word(PythonText, v) + rest);
  }

  lemma {:induction false} CrossPiece(p: Piece, t: Token, rest: string, ts: seq<Token>)
    requires Printable(t) && IsGapText(PythonText, p.gap) && OpensString(PythonText, p.quote)
    requires t.Atom? && t.v.Int? ==> rest == "" || !IsDigit(rest[0])
    requires NoneOr(Lex(JsonText, rest), Some(ts))
    ensures NoneOr(Lex(JsonText, p.gap + (Spell(PythonText, p.quote, t) + rest)), Some([t] + ts))
  {
    hide Lex, Spell, IsGapText, Printable, OpensString;
    CrossGap(p.gap, Spell(PythonText, p.quote, t) + rest);
    CrossToken(p.quote, t, rest);
  }

  /** A value printed as a Python literal is no JSON, or the same JSON. */
  lemma {:induction false} CrossLayout(ts: seq<Token>, style: seq<Piece>)
    requires |ts| == |style| && LegalStyle(PythonText, style) && Spaced(ts)
    ensures NoneOr(Lex(JsonText, LayOut(PythonText, ts, style) + ""), Some(ts))
  {
    if ts == [] {
      assert "" + "" == "";
    } else {
      hide Lex, Spell, LayOut, LegalStyle, Spaced, Printable, OpensString;
      LayOutParts(PythonText, ts, style);
      CrossLayout(ts[1..], style[1..]);
      if ts[0].Atom? {
        AfterAtom(PythonText, ts, style, "");
      }
      CrossPiece(style[0], ts[0], LayOut(PythonText, ts[1..], style[1..]) + "", ts[1..]);
      LayOutFirst(PythonText, ts, style, "");
      assert [ts[0]] + ts[1..] == ts;
    }
  }

  // ---- Values ----

  lemma {:induction false} TokensSpaced(v: Json)
    ensures Spaced(TokensOf(v)) && TokensOf(v) != []
    ensures v.Arr? || v.Obj? ==> TokensOf(v)[0].Punct? && TokensOf(v)[|TokensOf(v)| - 1].Punct?
    ensures !Next(TokensOf(v), ']') && !Next(TokensOf(v), '}')
    decreases v, 0
  {
    match v
    case Arr(items) =>
      ItemsSpaced(items);
      SpacedWrap(Punct('['), ItemTokens(items), Punct(']'));
    case Obj(members) =>
      MembersSpaced(members);
      SpacedWrap(Punct('{'), MemberTokens(members), Punct('}'));
    case _ =>
  }

  lemma {:induction false} SpacedWrap(open: Token, ts: seq<Token>, close: Token)
    requires Printable(open) && Printable(close) && open.Punct? && close.Punct? && Spaced(ts)
    ensures Spaced([open] + ts + [close])
  {
    var all := [open] + ts + [close];
    forall i | 0 <= i < |all| - 1 && all[i].Atom?
      ensures all[i + 1].Punct?
    {
      assert all[i] == ts[i - 1];
    }
  }

  lemma {:induction false} SpacedJoin(a: seq<Token>, sep: Token, b: seq<Token>)
    requires Spaced(a) && Spaced(b) && Printable(sep) && sep.Punct?
    ensures Spaced(a + [sep] + b)
  {
    var all := a + [sep] + b;
    forall i | 0 <= i < |all| - 1 && all[i].Atom?
      ensures all[i + 1].Punct?
    {
      if i < |a| {
        assert all[i] == a[i];
      } else {
        assert all[i] == b[i - |a| - 1];
      }
    }
  }

  lemma {:induction false} ItemsSpaced(items: seq<Json>)
    ensures Spaced(ItemTokens(items))
    ensures items != [] ==> ItemTokens(items) != [] && !Next(ItemTokens(items), ']')
    decreases items, 1
  {
    if items != [] {
      TokensSpaced(items[0]);
      ItemsSpaced(items[1..]);
      SpacedJoin(TokensOf(items[0]), Punct(','), ItemTokens(items[1..]));
    }
  }

  lemma {:induction false} MembersSpaced(members: seq<Member>)
    ensures Spaced(MemberTokens(members))
    ensures members != [] ==> MemberTokens(members) != [] && !Next(MemberTokens(members), '}')
    decreases members, 1
  {
    if members != [] {
      var key, value := Atom(Str(members[0].key)), TokensOf(members[0].value);
      TokensSpaced(members[0].value);
      SpacedJoin([key], Punct(':'), value);
      assert [key] + [Punct(':')] + value == [key, Punct(':')] + value;
      MembersSpaced(members[1..]);
      SpacedJoin([key, Punct(':')] + value, Punct(','), MemberTokens(members[1..]));
    }
  }

  lemma {:induction false} PutFresh(members: seq<Member>, m: Member)
    requires !HasKey(members, m.key)
    ensures Put(members, m.key, m.value) == members + [m]
  {
    if members != [] {
      assert members[0].key != m.key;
      assert !HasKey(members[1..], m.key) by {
        assert forall i | 0 <= i < |members| - 1 :: members[1..][i] == members[i + 1];
      }
      PutFresh(members[1..], m);
    }
  }

  lemma {:induction false} DictOfDistinct(pairs: seq<Member>)
    requires DistinctKeys(pairs)
    ensures DictOf(pairs) == pairs
  {
    if pairs != [] {
      var init, last := pairs[..|pairs| - 1], pairs[|pairs| - 1];
      DictOfDistinct(init);
      PutFresh(init, last);
    }
  }

  lemma {:induction false} ParseOfTokens(d: Dialect, v: Json, rest: seq<Token>)
    requires WellFormed(v)
    ensures ParseValue(d, TokensOf(v) + rest) == Some((v, rest))
    decreases v, 0
  {
    var ts := TokensOf(v) + rest;
    match v
    case Arr(items) =>
      assert ts[1..] == ItemTokens(items) + ([Punct(']')] + rest);
      if items == [] {
        assert ts[2..] == rest;
      } else {
        ItemsSpaced(items);
        ParseOfItems(d, items, rest);
      }
    case Obj(members) =>
      assert ts[1..] == MemberTokens(members) + ([Punct('}')] + rest);
      if members == [] {
        assert ts[2..] == rest;
      } else {
        MembersSpaced(members);
        ParseOfMembers(d, members, rest);
        DictOfDistinct(members);
      }
    case _ => assert ts[1..] == rest;
  }

  lemma {:induction false} ParseOfItems(d: Dialect, items: seq<Json>, rest: seq<Token>)
    requires items != [] && AllWellFormed(items)
    ensures ParseItems(d, ItemTokens(items) + ([Punct(']')] + rest)) == Some((items, rest))
    decreases items, 1
  {
    hide TokensOf, ParseValue, ParseMembers;
    var end := [Punct(']')] + rest;
    var ts := ItemTokens(items) + end;
    if |items| == 1 {
      ParseOfTokens(d, items[0], end);
      assert items == [items[0]];
    } else {
      var more := ItemTokens(items[1..]) + end;
      assert ts == TokensOf(items[0]) + ([Punct(',')] + more);
      ParseOfTokens(d, items[0], [Punct(',')] + more);
      assert ([Punct(',')] + more)[1..] == more;
      ItemsSpaced(items[1..]);
      ParseOfItems(d, items[1..], rest);
      assert items == [items[0]] + items[1..];
    }
  }

  lemma {:induction false} ParseOfMembers(d: Dialect, members: seq<Member>, rest: seq<Token>)
    requires members != [] && MembersWellFormed(members)
    ensures ParseMembers(d, MemberTokens(members) + ([Punct('}')] + rest)) == Some((members, rest))
    decreases members, 1
  {
    hide TokensOf, ParseValue, ParseItems;
    var end := [Punct('}')] + rest;
    var m, ms := members[0], members[1..];
    var next := if ms == [] then end else [Punct(',')] + (MemberTokens(ms) + end);
    MemberTokensSplit(members, end);
    ParseOfTokens(d, m.value, next);
    MemberHead(d, m, MemberTokens(members) + end, next);
    assert next[1..] == if ms == [] then rest else MemberTokens(ms) + end;
    if ms == [] {
      assert members == [m];
    } else {
      MembersSpaced(ms);
      ParseOfMembers(d, ms, rest);
      assert members == [m] + ms;
    }
  }

  lemma {:induction false} MemberTokensSplit(members: seq<Member>, end: seq<Token>)
    requires members != []
    ensures MemberTokens(members) + end
         == [Atom(Str(members[0].key)), Punct(':')] + TokensOf(members[0].value)
            + if |members| == 1 then end else [Punct(',')] + (MemberTokens(members[1..]) + end)
  {
  }

  lemma {:induction false} MemberHead(d: Dialect, m: Member, ts: seq<Token>, rest: seq<Token>)
    requires ts == [Atom(Str(m.key)), Punct(':')] + TokensOf(m.value) + rest
    requires ParseValue(d, TokensOf(m.value) + rest) == Some((m.value, rest))
    ensures |ts| >= 2 && ts[0] == Atom(Str(m.key)) && ts[1] == Punct(':')
    ensures ParseValue(d, ts[2..]) == Some((m.value, rest))
  {
    hide TokensOf, ParseValue;
    assert ts[2..] == TokensOf(m.value) + rest;
  }

  /** Parsing any layout of a value, in either dialect, gives the value. */
  lemma {:induction false} ParseOfLayout(d: Dialect, v: Json, style: seq<Piece>, tail: string)
    requires WellFormed(v) && |style| == |TokensOf(v)| && LegalStyle(d, style) && IsGapText(d, tail)
    ensures Parse(d, LayOut(d, TokensOf(v), style) + tail) == Some(v)
  {
    TokensSpaced(v);
    LexOfLayout(d, TokensOf(v), style, tail);
    ParseOfTokens(d, v, []);
    assert TokensOf(v) + [] == TokensOf(v);
  }

  /** Trying JSON first does no harm to a Python literal: JSON fails on it, or gives the same value. */
  lemma {:induction false} PythonReadAsJson(v: Json, style: seq<Piece>)
    requires WellFormed(v) && |style| == |TokensOf(v)| && LegalStyle(PythonText, style)
    ensures var r := Parse(JsonText, LayOut(PythonText, TokensOf(v), style)); r.None? || r == Some(v)
  {
    hide Lex, LayOut, ParseValue;
    var text := LayOut(PythonText, TokensOf(v), style);
    TokensSpaced(v);
    CrossLayout(TokensOf(v), style);
    ParseOfTokens(JsonText, v, []);
    assert TokensOf(v) + [] == TokensOf(v) && text + "" == text;
  }

  lemma {:induction false} LoadsOfDumps(v: Json)
    requires WellFormed(v)
    ensures Loads(Dumps(v)) == Some(v)
  {
    ParseOfLayout(JsonText, v, DumpsStyle(TokensOf(v)), "");
    assert Dumps(v) + "" == Dumps(v);
  }

  // ---- What a parser returns is a Python value: keys are distinct ----

  lemma {:induction false} PutKeepsForm(members: seq<Member>, k: string, v: Json)
    requires DistinctKeys(members) && MembersWellFormed(members) && WellFormed(v)
    ensures DistinctKeys(Put(members, k, v)) && MembersWellFormed(Put(members, k, v))
    ensures forall x :: HasKey(Put(members, k, v), x) <==> HasKey(members, x) || x == k
  {
    if members == [] {
    } else {
      var m, rest := members[0], members[1..];
      assert members == [m] + rest;
      HasKeyCons(m, rest);
      if m.key == k {
        assert Put(members, k, v)[1..] == rest;
        HasKeyCons(Member(k, v), rest);
      } else {
        PutKeepsForm(rest, k, v);
        HasKeyCons(m, Put(rest, k, v));
        assert Put(members, k, v)[1..] == Put(rest, k, v);
        assert !HasKey(rest, m.key);
        DistinctCons(m, Put(rest, k, v));
      }
    }
  }

  lemma {:induction false} HasKeyCons(m: Member, rest: seq<Member>)
    ensures forall x :: HasKey([m] + rest, x) <==> m.key == x || HasKey(rest, x)
  {
    forall x
      ensures HasKey([m] + rest, x) <==> m.key == x || HasKey(rest, x)
    {
      if HasKey(rest, x) {
        var i :| 0 <= i < |rest| && rest[i].key == x;
        assert ([m] + rest)[i + 1].key == x;
      }
      if m.key == x {
        assert ([m] + rest)[0].key == x;
      }
    }
  }

  lemma {:induction false} DistinctCons(m: Member, rest: seq<Member>)
    requires DistinctKeys(rest) && !HasKey(rest, m.key)
    ensures DistinctKeys([m] + rest)
  {
  }

  lemma {:induction false} DictOfKeepsForm(pairs: seq<Member>)
    requires MembersWellFormed(pairs)
    ensures DistinctKeys(DictOf(pairs)) && MembersWellFormed(DictOf(pairs))
  {
    if pairs != [] {
      var init, last := pairs[..|pairs| - 1], pairs[|pairs| - 1];
      MembersFormSplit(pairs, |pairs| - 1);
      DictOfKeepsForm(init);
      PutKeepsForm(DictOf(init), last.key, last.value);
    }
  }

  lemma {:induction false} MembersFormSplit(members: seq<Member>, k: nat)
    requires MembersWellFormed(members) && k < |members|
    ensures MembersWellFormed(members[..k]) && WellFormed(members[k].value)
  {
    if k > 0 {
      MembersFormSplit(members[1..], k - 1);
      assert members[..k][1..] == members[1..][..k - 1];
    }
  }

  predicate AtomsScalar(ts: seq<Token>) {
    forall t | t in ts && t.Atom? :: IsScalar(t.v)
  }

  lemma {:induction false} LexAtomsScalar(d: Dialect, s: string)
    ensures Lex(d, s).Some? ==> AtomsScalar(Lex(d, s).value)
    decreases |s|
  {
    if s == "" {
    } else if IsGap(d, s[0]) || IsPunct(s[0]) {
      LexAtomsScalar(d, s[1..]);
    } else if OpensString(d, s[0]) {
      var r := LexString(UnescaperOf(d), RawOf(d), s[0], s[1..]);
      if r.Some? {
        LexAtomsScalar(d, r.value.1);
      }
    } else if s[0] == '-' || IsDigit(s[0]) {
      var r := LexInt(s);
      if r.Some? {
        LexAtomsScalar(d, s[r.value.1..]);
      }
    } else {
      var r := LexWord(d, s);
      if r.Some? {
        LexAtomsScalar(d, s[|Word(d, r.value)|..]);
      }
    }
  }

  lemma {:induction false} ParseValueForm(d: Dialect, ts: seq<Token>)
    requires AtomsScalar(ts)
    ensures ParseValue(d, ts).Some? ==> WellFormed(ParseValue(d, ts).value.0) && AtomsScalar(ParseValue(d, ts).value.1)
    decreases |ts|, 0
  {
    if ts != [] {
      assert ts[0] in ts;
      match ts[0]
      case Punct('[') =>
        if !Next(ts[1..], ']') {
          ParseItemsForm(d, ts[1..]);
        }
      case Punct('{') =>
        if !Next(ts[1..], '}') {
          ParseMembersForm(d, ts[1..]);
          var r := ParseMembers(d, ts[1..]);
          if r.Some? {
            DictOfKeepsForm(r.value.0);
          }
        }
      case _ =>
    }
  }

  lemma {:induction false} ParseItemsForm(d: Dialect, ts: seq<Token>)
    requires AtomsScalar(ts)
    ensures ParseItems(d, ts).Some? ==> AllWellFormed(ParseItems(d, ts).value.0) && AtomsScalar(ParseItems(d, ts).value.1)
    decreases |ts|, 1
  {
    ParseValueForm(d, ts);
    var r := ParseValue(d, ts);
    if r.Some? && Next(r.value.1, ',') {
      ParseItemsForm(d, r.value.1[1..]);
    }
  }

  lemma {:induction false} ParseMembersForm(d: Dialect, ts: seq<Token>)
    requires AtomsScalar(ts)
    ensures ParseMembers(d, ts).Some? ==>
              MembersWellFormed(ParseMembers(d, ts).value.0) && AtomsScalar(ParseMembers(d, ts).value.1)
    decreases |ts|, 1
  {
    if |ts| >= 2 {
      ParseValueForm(d, ts[2..]);
      var r := ParseValue(d, ts[2..]);
      if r.Some? && Next(r.value.1, ',') {
        ParseMembersForm(d, r.value.1[1..]);
      }
    }
  }

  lemma {:induction false} ParseWellFormed(d: Dialect, s: string)
    ensures Parse(d, s).Some? ==> WellFormed(Parse(d, s).value)
  {
    LexAtomsScalar(d, s);
    if Lex(d, s).Some? {
      ParseValueForm(d, Lex(d, s).value);
    }
  }
}
